/** `PincodeData._load_data`: check that the file exists, read it as CSV
    under the first encoding that decodes, check the required columns, and
    turn every failure into a `DataLoadError`. The file system and the CSV
    reader are an oracle: whether the file exists, and what reading it
    under each encoding yields. */
module Loader {
  import opened Optional
  import opened Collections
  import opened Exceptions
  import opened Queries
  import opened Strings

  /** The encodings tried, in order. */
  const Encodings: seq<string> := ["utf-8", "latin-1", "iso-8859-1", "cp1252"]

  /** The columns the table must have, in the order they are reported. */
  const RequiredColumns: seq<string> :=
    ["pincode", "officename", "statename", "districtname", "taluk", "officetype", "Deliverystatus"]

  /** A parsed CSV file: a header and rows of text cells. */
  datatype RawFrame = RawFrame(columns: seq<string>, rows: seq<seq<string>>)

  predicate Rectangular(f: RawFrame) {
    forall i :: 0 <= i < |f.rows| ==> |f.rows[i]| == |f.columns|
  }

  /** The reader only produces frames whose rows fill every column. */
  type Frame = f: RawFrame | Rectangular(f) witness RawFrame([], [])

  /** The exceptions `pandas.read_csv` can raise other than a decoding error. */
  datatype ReaderError =
    | EmptyDataError
    | ParserError(detail: string)
    | OtherError(info: ExceptionInfo)

  /** What reading the file under one encoding yields. */
  datatype ReadOutcome =
    | Parsed(frame: Frame)
    | UnicodeDecodeError
    | Raises(error: ReaderError)

  /** The file behind the configured path, as the loader can observe it. */
  datatype DataSource = DataSource(present: bool, read: string -> ReadOutcome)

  /** What the encoding loop ends with: the first outcome under `encodings`
      that is not a decoding error, or nothing when every encoding fails
      to decode. */
  function FirstDecodable(read: string -> ReadOutcome, encodings: seq<string>): (r: Option<ReadOutcome>)
    ensures r.None? <==> forall i :: 0 <= i < |encodings| ==> read(encodings[i]).UnicodeDecodeError?
    ensures r.Some? ==> !r.value.UnicodeDecodeError?
  {
    if encodings == [] then None
    else if read(encodings[0]).UnicodeDecodeError? then
      var r := FirstDecodable(read, encodings[1..]);
      assert forall i :: 1 <= i < |encodings| ==> encodings[i] == encodings[1..][i - 1];
      r
    else Some(read(encodings[0]))
  }

  /** The first encoding that decodes wins, whatever the later ones would
      give. */
  lemma {:induction false} FirstDecodableWins(read: string -> ReadOutcome, encodings: seq<string>, k: nat)
    requires k < |encodings| && !read(encodings[k]).UnicodeDecodeError?
    requires forall j :: 0 <= j < k ==> read(encodings[j]).UnicodeDecodeError?
    ensures FirstDecodable(read, encodings) == Some(read(encodings[k]))
  {
    if k > 0 {
      assert forall j :: 0 <= j < k - 1 ==> encodings[1..][j] == encodings[j + 1];
      FirstDecodableWins(read, encodings[1..], k - 1);
    }
  }

  /** The `for encoding in encodings` loop: stop at the first outcome that
      is not a decoding error; fall through when every encoding fails. */
  method ReadWithFallback(source: DataSource) returns (outcome: Option<ReadOutcome>)
    ensures outcome == FirstDecodable(source.read, Encodings)
  {
    outcome := None;
    var i := 0;
    while i < |Encodings|
      invariant 0 <= i <= |Encodings|
      invariant forall j :: 0 <= j < i ==> source.read(Encodings[j]).UnicodeDecodeError?
      invariant FirstDecodable(source.read, Encodings) == FirstDecodable(source.read, Encodings[i..])
    {
      var attempt := source.read(Encodings[i]);
      if !attempt.UnicodeDecodeError? {
        outcome := Some(attempt);
        assert Encodings[i..][0] == Encodings[i];
        return;
      }
      assert Encodings[i..][1..] == Encodings[i + 1..];
      i := i + 1;
    }
  }

  /** The required columns absent from the header, in required order. */
  function MissingColumns(columns: seq<string>): (missing: seq<string>)
    ensures forall c :: c in missing <==> c in RequiredColumns && c !in columns
    ensures IsSubsequence(missing, RequiredColumns)
  {
    Filter(RequiredColumns, (c: string) => c !in columns)
  }

  /** Python's `repr` of a list of column names: `['taluk', 'officetype']`.
      The items, each quoted, sit between the brackets. This agrees with
      `repr` only for names without a single quote or a backslash (which
      `repr` would write in double quotes or escape); every required column
      name is such a name. */
  function ListRepr(items: seq<string>): (r: string)
    ensures |r| >= 2 && r[0] == '[' && r[|r| - 1] == ']'
    ensures r[1..|r| - 1] == QuotedItems(items)
  {
    var r := "[" + QuotedItems(items) + "]";
    assert r[1..|r| - 1] == QuotedItems(items);
    r
  }

  /** The quoted items of a list repr, separated by `, `: empty exactly for
      the empty list, and otherwise starting with the first item quoted. */
  function QuotedItems(items: seq<string>): (r: string)
    ensures r == [] <==> items == []
    ensures items != [] ==> IsPrefix("'" + items[0] + "'", r)
  {
    if items == [] then ""
    else if |items| == 1 then "'" + items[0] + "'"
    else
      var r := "'" + items[0] + "', " + QuotedItems(items[1..]);
      assert r[..|"'" + items[0] + "'"|] == "'" + items[0] + "'";
      r
  }

  /** Quoting distributes over concatenation: the items of two non-empty
      lists are quoted in order, joined by one `, `. So every item appears
      quoted, in list order. */
  lemma {:induction false} QuotedItemsAppend(a: seq<string>, b: seq<string>)
    requires a != [] && b != []
    ensures QuotedItems(a + b) == QuotedItems(a) + ", " + QuotedItems(b)
    decreases |a|
  {
    assert (a + b)[0] == a[0];
    if |a| == 1 {
      assert (a + b)[1..] == b;
    } else {
      assert (a + b)[1..] == a[1..] + b;
      QuotedItemsAppend(a[1..], b);
    }
  }

  /** The repr of two column names, as the missing-columns message shows it. */
  lemma ListReprOfTwo(x: string, y: string)
    ensures ListRepr([x, y]) == "['" + x + "', '" + y + "']"
  {
    assert [x, y][1..] == [y];
    calc {
      ListRepr([x, y]);
      "[" + QuotedItems([x, y]) + "]";
      "[" + ("'" + x + "', " + QuotedItems([y])) + "]";
      "[" + ("'" + x + "', " + ("'" + y + "'")) + "]";
    }
    assert "[" + ("'" + x + "', " + ("'" + y + "'")) + "]" == "['" + x + "', '" + y + "']";
  }

  /** The position of the first column with this name. */
  function ColumnIndex(columns: seq<string>, name: string): (i: nat)
    requires name in columns
    ensures i < |columns| && columns[i] == name
    ensures forall j :: 0 <= j < i ==> columns[j] != name
  {
    if columns[0] == name then 0 else 1 + ColumnIndex(columns[1..], name)
  }

  predicate HasRequired(columns: seq<string>) {
    forall c :: c in RequiredColumns ==> c in columns
  }

  /** One CSV row as a record, reading each field from its column. */
  function RowRecord(columns: seq<string>, row: seq<string>): (r: Record)
    requires |row| == |columns| && HasRequired(columns)
    ensures "pincode" in columns && r.pincode == row[ColumnIndex(columns, "pincode")]
    ensures "officename" in columns && r.officename == row[ColumnIndex(columns, "officename")]
    ensures "statename" in columns && r.statename == row[ColumnIndex(columns, "statename")]
    ensures "districtname" in columns && r.districtname == row[ColumnIndex(columns, "districtname")]
    ensures "taluk" in columns && r.taluk == row[ColumnIndex(columns, "taluk")]
    ensures "officetype" in columns && r.officetype == row[ColumnIndex(columns, "officetype")]
    ensures "Deliverystatus" in columns && r.deliverystatus == row[ColumnIndex(columns, "Deliverystatus")]
  {
    assert "pincode" in RequiredColumns && "officename" in RequiredColumns;
    assert "statename" in RequiredColumns && "districtname" in RequiredColumns;
    assert "taluk" in RequiredColumns && "officetype" in RequiredColumns;
    assert "Deliverystatus" in RequiredColumns;
    Record(
      row[ColumnIndex(columns, "pincode")],
      row[ColumnIndex(columns, "officename")],
      row[ColumnIndex(columns, "statename")],
      row[ColumnIndex(columns, "districtname")],
      row[ColumnIndex(columns, "taluk")],
      row[ColumnIndex(columns, "officetype")],
      row[ColumnIndex(columns, "Deliverystatus")])
  }

  /** The table a frame with every required column loads as: one record
      per row, in file order. */
  function FrameTable(f: Frame): (t: Table)
    requires HasRequired(f.columns)
    ensures |t| == |f.rows|
    ensures forall i :: 0 <= i < |t| ==> t[i] == RowRecord(f.columns, f.rows[i])
  {
    seq(|f.rows|, i requires 0 <= i < |f.rows| => RowRecord(f.columns, f.rows[i]))
  }

  /** How the body of the `try` in `_load_data` ends. */
  datatype Attempt =
    | Loaded(table: Table)
    | Raised(error: PininError)
    | ReaderFailed(failure: ReaderError)

  /** The body of the `try`: the existence check, the encoding loop, the
      column check, and the conversion to records. */
  function TryLoad(path: string, source: DataSource): (a: Attempt)
    ensures a.Raised? ==> a.error.DataLoad? && a.error.filePath.None?
  {
    if !source.present then
      Raised(DataLoadError("Data file not found: " + path, None, None))
    else
      match FirstDecodable(source.read, Encodings)
      case None =>
        Raised(DataLoadError("Could not decode CSV file with any supported encoding", None, None))
      case Some(Raises(e)) => ReaderFailed(e)
      case Some(Parsed(frame)) =>
        var missing := MissingColumns(frame.columns);
        if missing != [] then
          Raised(DataLoadError("Missing required columns: " + ListRepr(missing), None, None))
        else
          assert HasRequired(frame.columns);
          Loaded(FrameTable(frame))
  }

  /** The three `except` clauses for the reader's own exceptions. */
  function ReaderFailure(path: string, e: ReaderError): (err: PininError)
    ensures err.DataLoad? && err.filePath == Some(path)
  {
    match e
    case EmptyDataError => DataLoadError("Data file is empty", Some(path), None)
    case ParserError(detail) => DataLoadError("Failed to parse CSV file: " + detail, Some(path), None)
    case OtherError(info) => DataLoadError("Unexpected error loading data: " + info.text, Some(path), None)
  }

  /** `_load_data` as written: the `DataLoadError`s raised inside the `try`
      are themselves caught by `except Exception` and wrapped a second time
      as an unexpected error, with the file path added. */
  function LoadAsWritten(path: string, source: DataSource): (r: Result<Table>)
    ensures r.Failure? ==> r.error.DataLoad?
  {
    match TryLoad(path, source)
    case Loaded(t) => Success(t)
    case ReaderFailed(e) => Failure(ReaderFailure(path, e))
    case Raised(e) => Failure(DataLoadError("Unexpected error loading data: " + e.message, Some(path), None))
  }

  /** `_load_data` as intended: the errors raised inside the `try` reach the
      caller unchanged; the reader's own exceptions are wrapped as above. */
  function Load(path: string, source: DataSource): (r: Result<Table>)
    ensures r.Failure? ==> r.error.DataLoad?
  {
    match TryLoad(path, source)
    case Loaded(t) => Success(t)
    case ReaderFailed(e) => Failure(ReaderFailure(path, e))
    case Raised(e) => Failure(e)
  }

  /** A missing file: as written, the reason is wrapped twice, so the
      message repeats the load prefix and ends with the path clause. */
  lemma MissingFileAsWritten(path: string, source: DataSource)
    requires !source.present
    ensures LoadAsWritten(path, source).Failure?
    ensures LoadAsWritten(path, source).error.message ==
      LoadPrefix + "Unexpected error loading data: " + LoadPrefix + "Data file not found: " + path
      + FileSuffix(Some(path))
  {
    var inner := LoadPrefix + "Data file not found: " + path;
    assert TryLoad(path, source) == Raised(DataLoad(inner, None, None));
    var outer := "Unexpected error loading data: " + inner;
    assert LoadAsWritten(path, source) == Failure(DataLoadError(outer, Some(path), None));
    assert DataLoadError(outer, Some(path), None).message == LoadPrefix + outer + FileSuffix(Some(path)) + "";
  }

  /** A missing file: as intended, the message is the load prefix followed
      by the reason, and nothing else. */
  lemma MissingFileFails(path: string, source: DataSource)
    requires !source.present
    ensures Load(path, source) == Failure(DataLoad(LoadPrefix + "Data file not found: " + path, None, None))
  {
  }

  /** The two readings differ exactly on the errors raised inside the
      `try`: on those the intended error carries the reason directly after
      the load prefix, the written one only after a second prefix. */
  lemma RaisedErrorsKeptIntact(path: string, source: DataSource)
    requires TryLoad(path, source).Raised?
    ensures Load(path, source) == Failure(TryLoad(path, source).error)
    ensures var m := LoadAsWritten(path, source).error.message;
      var inner := TryLoad(path, source).error.message;
      IsPrefix(LoadPrefix + "Unexpected error loading data: " + inner, m)
    ensures LoadAsWritten(path, source) != Load(path, source)
  {
    var inner := TryLoad(path, source).error;
    var outer := DataLoadError("Unexpected error loading data: " + inner.message, Some(path), None);
    assert LoadAsWritten(path, source) == Failure(outer);
    UnexpectedWrap(path, inner);
  }

  /** Wrapping an error as an unexpected one keeps its message behind a
      second load prefix and attaches the path. */
  lemma UnexpectedWrap(path: string, inner: PininError)
    requires inner.DataLoad? && inner.filePath.None?
    ensures var outer := DataLoadError("Unexpected error loading data: " + inner.message, Some(path), None);
      && IsPrefix(LoadPrefix + "Unexpected error loading data: " + inner.message, outer.message)
      && outer != inner
  {
    var wrapped := "Unexpected error loading data: " + inner.message;
    assert LoadPrefix + wrapped == LoadPrefix + "Unexpected error loading data: " + inner.message;
  }

  /** When every encoding fails to decode, the load fails with that reason. */
  lemma NoEncodingDecodes(path: string, source: DataSource)
    requires source.present
    requires forall i :: 0 <= i < |Encodings| ==> source.read(Encodings[i]).UnicodeDecodeError?
    ensures Load(path, source) ==
      Failure(DataLoadError("Could not decode CSV file with any supported encoding", None, None))
  {
  }

  /** Once an encoding decodes, the later encodings are never consulted:
      two present files that read alike up to and including the first
      decodable encoding load alike, both as written and as intended. */
  lemma LaterEncodingsIgnored(path: string, a: DataSource, b: DataSource, k: nat)
    requires a.present && b.present
    requires k < |Encodings| && !a.read(Encodings[k]).UnicodeDecodeError?
    requires a.read(Encodings[k]) == b.read(Encodings[k])
    requires forall j :: 0 <= j < k ==> a.read(Encodings[j]).UnicodeDecodeError? && b.read(Encodings[j]).UnicodeDecodeError?
    ensures Load(path, a) == Load(path, b)
    ensures LoadAsWritten(path, a) == LoadAsWritten(path, b)
  {
    FirstDecodableWins(a.read, Encodings, k);
    FirstDecodableWins(b.read, Encodings, k);
    assert TryLoad(path, a) == TryLoad(path, b);
  }

  /** A frame with every required column loads as one record per row. */
  lemma LoadsFrame(path: string, source: DataSource, frame: Frame)
    requires source.present
    requires FirstDecodable(source.read, Encodings) == Some(Parsed(frame))
    requires HasRequired(frame.columns)
    ensures Load(path, source) == Success(FrameTable(frame))
  {
  }

  /** A frame without some required column fails naming exactly the
      missing ones, in required order. */
  lemma RejectsMissingColumns(path: string, source: DataSource, frame: Frame)
    requires source.present
    requires FirstDecodable(source.read, Encodings) == Some(Parsed(frame))
    requires !HasRequired(frame.columns)
    ensures Load(path, source) == Failure(DataLoadError(
      "Missing required columns: " + ListRepr(MissingColumns(frame.columns)), None, None))
  {
    var c :| c in RequiredColumns && c !in frame.columns;
    assert c in MissingColumns(frame.columns);
  }

  /** A reader exception under the first decodable encoding fails with the
      file path attached. */
  lemma ReaderErrorCarriesPath(path: string, source: DataSource, e: ReaderError)
    requires source.present
    requires FirstDecodable(source.read, Encodings) == Some(Raises(e))
    ensures Load(path, source) == Failure(ReaderFailure(path, e))
    ensures Load(path, source).error.filePath == Some(path)
  {
  }

  /** A load succeeds only on a present file whose first decodable reading
      is a frame with every required column, and then yields one record per
      row of that frame. */
  lemma LoadSuccessShape(path: string, source: DataSource)
    requires Load(path, source).Success?
    ensures source.present
    ensures var first := FirstDecodable(source.read, Encodings);
      && first.Some? && first.value.Parsed?
      && MissingColumns(first.value.frame.columns) == []
      && |Load(path, source).value| == |first.value.frame.rows|
  {
  }
}
