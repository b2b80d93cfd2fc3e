/** The library's error family (`PininError` and its three subclasses) as
    one sum type, with the message each constructor composes. */
module Exceptions {
  import opened Optional
  import opened Strings

  /** The type name and text of a wrapped Python exception
      (`type(e).__name__` and `str(e)`). */
  datatype ExceptionInfo = ExceptionInfo(typeName: string, text: string)

  /** Every error the engine raises. `message` is the full text the
      exception carries; the other fields are the constructor arguments
      the exception object keeps. */
  datatype PininError =
    | InvalidPincode(pincode: string, message: string)
    | DataNotFound(pincode: string, message: string)
    | DataLoad(message: string, filePath: Option<string>, originalException: Option<ExceptionInfo>)

  /** The outcome of an operation that may raise one of the errors above. */
  datatype Result<+T> = Success(value: T) | Failure(error: PininError)

  const InvalidPrefix: string := "Invalid pincode: '"
  const InvalidSuffix: string := "'. Pincode must be a 6-digit number."
  const NotFoundPrefix: string := "No data found for pincode: '"
  const NotFoundSuffix: string := "'"
  const LoadPrefix: string := "Failed to load pincode data: "
  const FileLead: string := " from file: '"
  const ExceptionLead: string := "\nOriginal Exception: "

  /** The text between a known prefix and suffix, if `msg` has that shape. */
  function Between(msg: string, prefix: string, suffix: string): (r: Option<string>)
    ensures r.Some? <==> |prefix| + |suffix| <= |msg| && msg[..|prefix|] == prefix && msg[|msg| - |suffix|..] == suffix
    ensures r.Some? ==> msg == prefix + r.value + suffix
  {
    if |prefix| + |suffix| <= |msg| && msg[..|prefix|] == prefix && msg[|msg| - |suffix|..] == suffix then
      var inner := msg[|prefix|..|msg| - |suffix|];
      assert msg == msg[..|prefix|] + inner + msg[|msg| - |suffix|..];
      Some(inner)
    else None
  }

  /** `InvalidPincodeError(pincode, message)`: a given, non-empty message is
      kept verbatim; otherwise the default text quotes the pincode. */
  function InvalidPincodeError(pincode: string, message: Option<string>): (e: PininError)
    ensures e.InvalidPincode? && e.pincode == pincode
    ensures Given(message) ==> e.message == message.value
    ensures !Given(message) ==> Between(e.message, InvalidPrefix, InvalidSuffix) == Some(pincode)
  {
    var text := if Given(message) then message.value else InvalidPrefix + pincode + InvalidSuffix;
    assert !Given(message) ==> Between(text, InvalidPrefix, InvalidSuffix).Some?;
    InvalidPincode(pincode, text)
  }

  /** `DataNotFoundError(pincode, message)`: a given, non-empty message is
      kept verbatim; otherwise the default text quotes the pincode. */
  function DataNotFoundError(pincode: string, message: Option<string>): (e: PininError)
    ensures e.DataNotFound? && e.pincode == pincode
    ensures Given(message) ==> e.message == message.value
    ensures !Given(message) ==> Between(e.message, NotFoundPrefix, NotFoundSuffix) == Some(pincode)
  {
    var text := if Given(message) then message.value else NotFoundPrefix + pincode + NotFoundSuffix;
    assert !Given(message) ==> Between(text, NotFoundPrefix, NotFoundSuffix).Some?;
    DataNotFound(pincode, text)
  }

  function FileSuffix(filePath: Option<string>): string {
    if Given(filePath) then FileLead + filePath.value + "'" else ""
  }

  function ExceptionLine(original: Option<ExceptionInfo>): string {
    if original.Some? then ExceptionLead + original.value.typeName + ": " + original.value.text else ""
  }

  /** `DataLoadError(message, file_path, original_exception)`: the message
      behind the fixed prefix, then the file clause when a non-empty path is
      given, then the original-exception line when an exception is given. */
  function DataLoadError(message: string, filePath: Option<string>, original: Option<ExceptionInfo>): (e: PininError)
    ensures e.DataLoad? && e.filePath == filePath && e.originalException == original
    ensures IsPrefix(LoadPrefix + message, e.message)
  {
    DataLoad(LoadPrefix + message + FileSuffix(filePath) + ExceptionLine(original), filePath, original)
  }

  /** The default invalid-pincode text and the quoted pincode determine each
      other: reading the pincode back out of the text gives it back, and any
      text of that shape is the default text of what it quotes. */
  lemma InvalidTextRoundTrip(pincode: string, msg: string)
    ensures Between(InvalidPincodeError(pincode, None).message, InvalidPrefix, InvalidSuffix) == Some(pincode)
    ensures Between(msg, InvalidPrefix, InvalidSuffix) == Some(pincode) ==> InvalidPincodeError(pincode, None).message == msg
  {
  }

  /** The same two-way correspondence for the default not-found text. */
  lemma NotFoundTextRoundTrip(pincode: string, msg: string)
    ensures Between(DataNotFoundError(pincode, None).message, NotFoundPrefix, NotFoundSuffix) == Some(pincode)
    ensures Between(msg, NotFoundPrefix, NotFoundSuffix) == Some(pincode) ==> DataNotFoundError(pincode, None).message == msg
  {
  }

  /** An empty custom message counts as no message (`if message:`). */
  lemma EmptyMessageIsDefault(pincode: string)
    ensures InvalidPincodeError(pincode, Some("")) == InvalidPincodeError(pincode, None)
    ensures DataNotFoundError(pincode, Some("")) == DataNotFoundError(pincode, None)
  {
  }

  /** The load message is exactly the prefixed message when, and only when,
      neither a non-empty file path nor an original exception is given. */
  lemma LoadMessageBare(message: string, filePath: Option<string>, original: Option<ExceptionInfo>)
    ensures DataLoadError(message, filePath, original).message == LoadPrefix + message
        <==> !Given(filePath) && original.None?
  {
    var e := DataLoadError(message, filePath, original);
    if Given(filePath) || original.Some? {
      assert |e.message| > |LoadPrefix + message|;
    }
  }

  /** Right after the prefixed message comes a space exactly when a
      non-empty file path was given: the file clause starts with a space,
      the exception line with a newline. */
  lemma LoadFileClauseIff(message: string, filePath: Option<string>, original: Option<ExceptionInfo>)
    ensures var m := DataLoadError(message, filePath, original).message;
      var n := |LoadPrefix + message|;
      (n < |m| && m[n] == ' ') <==> Given(filePath)
  {
    var m := DataLoadError(message, filePath, original).message;
    var n := |LoadPrefix + message|;
    if Given(filePath) {
      assert m[n] == FileLead[0];
    } else if original.Some? {
      assert m[n] == ExceptionLead[0];
    }
  }

  /** When a non-empty file path is given, the file clause follows the
      prefixed message directly; when an original exception is given, its
      line closes the message, so it always comes after the file clause. */
  lemma LoadClauseOrder(message: string, filePath: Option<string>, original: Option<ExceptionInfo>)
    ensures var m := DataLoadError(message, filePath, original).message;
      var n := |LoadPrefix + message|;
      Given(filePath) ==> n + |FileSuffix(filePath)| <= |m| && m[n..n + |FileSuffix(filePath)|] == FileLead + filePath.value + "'"
    ensures var m := DataLoadError(message, filePath, original).message;
      var x := ExceptionLine(original);
      original.Some? ==> |LoadPrefix + message| + |FileSuffix(filePath)| + |x| == |m| && m[|m| - |x|..] == x
    ensures var m := DataLoadError(message, filePath, original).message;
      original.Some? <==> |m| > |LoadPrefix + message| + |FileSuffix(filePath)|
  {
    var m := DataLoadError(message, filePath, original).message;
    var n := |LoadPrefix + message|;
    if Given(filePath) {
      var f := FileLead + filePath.value + "'";
      assert m == (LoadPrefix + message) + f + ExceptionLine(original);
      assert m[n..n + |f|] == f;
    }
    if original.Some? {
      var x := ExceptionLine(original);
      assert m == (LoadPrefix + message + FileSuffix(filePath)) + x;
      assert m[|m| - |x|..] == x;
    }
  }

  /** An empty file path is the same as none (`if file_path:`). */
  lemma LoadEmptyPathIsNone(message: string, original: Option<ExceptionInfo>)
    ensures DataLoadError(message, Some(""), original).message == DataLoadError(message, None, original).message
  {
  }
}
