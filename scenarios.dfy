/** Concrete answers of the engine on a small table: two post offices
    sharing the New Delhi pincode 110001 and one Mumbai office. */
module Scenarios {
  import opened Optional
  import opened Strings
  import opened Collections
  import opened Exceptions
  import opened Queries
  import opened Loader

  function Connaught(): Record {
    Record("110001", "Connaught Place SO", "DELHI", "CENTRAL DELHI", "New Delhi", "S.O", "Delivery")
  }

  function Parliament(): Record {
    Record("110001", "Parliament Street HO", "DELHI", "CENTRAL DELHI", "New Delhi", "H.O", "Delivery")
  }

  function Fort(): Record {
    Record("400001", "Mumbai GPO", "MAHARASHTRA", "MUMBAI", "Mumbai", "H.O", "Delivery")
  }

  function Sample(): (t: Table)
    ensures |t| == 3
  {
    [Connaught(), Fort(), Parliament()]
  }

  /** Selection from a three-row table that keeps the outer rows. */
  lemma FilterOuter(a: Record, b: Record, c: Record, keep: Record -> bool)
    requires keep(a) && !keep(b) && keep(c)
    ensures Filter([a, b, c], keep) == [a, c]
  {
    assert [a, b, c][1..] == [b, c];
    assert [b, c][1..] == [c];
    assert [c][1..] == [];
  }

  /** The rows of 110001 are the two Delhi offices, in table order. */
  lemma DelhiRows()
    ensures MatchingRows(Sample(), "110001") == [Connaught(), Parliament()]
  {
    FilterOuter(Connaught(), Fort(), Parliament(), (row: Record) => row.pincode == "110001");
  }

  lemma Valid110001()
    ensures ValidatePincode(PincodeText("110001")) == Success("110001")
  {
    ValidateAcceptsPadded("", "110001", "");
    assert "" + "110001" + "" == "110001";
  }

  /** Both offices of 110001 come back, in table order, when the code is
      given as an integer. */
  lemma LookupNumber()
    ensures PincodeInfo(Sample(), PincodeNumber(110001)) == Success([Connaught(), Parliament()])
  {
    ValidateNumber(110001);
    Decimal110001();
    DelhiRows();
  }

  lemma Decimal110001()
    ensures NatToDecimal(110001) == "110001"
  {
    assert NatToDecimal(1) == "1";
    assert NatToDecimal(11) == "11";
    assert NatToDecimal(110) == "110";
    assert NatToDecimal(1100) == "1100";
    assert NatToDecimal(11000) == "11000";
  }

  /** The state of 110001 is read from its first row. */
  lemma LookupState()
    ensures FirstRowField(Sample(), PincodeText("110001"), StateName) == Success("DELHI")
  {
    Valid110001();
    DelhiRows();
  }

  /** The office names of 110001, both of them, in table order. */
  lemma LookupOffices()
    ensures OfficeNames(Sample(), PincodeText("110001")) == Success([Connaught().officename, Parliament().officename])
  {
    Valid110001();
    DelhiRows();
    assert PincodeInfo(Sample(), PincodeText("110001")) == Success([Connaught(), Parliament()]);
    assert Column([Connaught(), Parliament()], OfficeName) == [Connaught().officename, Parliament().officename];
  }

  /** A well-formed code with no rows is not found. */
  lemma UnknownCodeNotFound()
    ensures PincodeInfo(Sample(), PincodeText("560001")) ==
      Failure(DataNotFound("560001", NotFoundPrefix + "560001" + NotFoundSuffix))
  {
    ValidateAcceptsPadded("", "560001", "");
    assert "" + "560001" + "" == "560001";
    NoRows560001();
  }

  lemma NoRows560001()
    ensures MatchingRows(Sample(), "560001") == []
  {
  }

  lemma RejectsFiveDigits() ensures ValidatePincode(PincodeText("12345")).Failure? {}
  lemma RejectsSevenDigits() ensures ValidatePincode(PincodeText("1234567")).Failure? {}
  lemma RejectsLetter() ensures ValidatePincode(PincodeText("11000A")).Failure? {}
  lemma RejectsEmpty() ensures ValidatePincode(PincodeText("")).Failure? {}

  /** An integer loses its leading zero, so 012345 given as a number is
      rejected. */
  lemma RejectsLostZero()
    ensures ValidatePincode(PincodeNumber(12345)).Failure?
  {
    ValidateNumber(12345);
  }

  lemma RejectsNegative()
    ensures ValidatePincode(PincodeNumber(-110001)).Failure?
  {
    ValidateNumber(-110001);
  }

  /** The lower-case state name selects the two Delhi rows. */
  lemma DelhiStateRows()
    ensures InState(Sample(), "delhi") == [Connaught(), Parliament()]
  {
    DelhiMatchesDelhi();
    MaharashtraIsNotDelhi();
    FilterOuter(Connaught(), Fort(), Parliament(), (row: Record) => SameText(row.statename, "delhi"));
  }

  lemma DelhiMatchesDelhi()
    ensures SameText("DELHI", "delhi")
  {
    UpperIdempotent("delhi");
    assert Upper("delhi") == "DELHI";
  }

  lemma MaharashtraIsNotDelhi()
    ensures !SameText("MAHARASHTRA", "delhi")
  {
    assert Upper("MAHARASHTRA")[0] == 'M';
    assert Upper("delhi")[0] == 'D';
  }

  /** The state search ignores case and reports the shared pincode once. */
  lemma StateSearchDelhi()
    ensures Queries.SearchByState(Sample(), "delhi") == ["110001"]
  {
    DelhiStateRows();
    var c := Column([Connaught(), Parliament()], Pincode);
    assert c == ["110001", "110001"];
    assert c[1..] == ["110001"];
    assert SortedUnique(["110001"]) == ["110001"];
  }

  /** An unknown state gives an empty answer, not an error. */
  lemma StateSearchUnknown()
    ensures Queries.SearchByState(Sample(), "GOA") == []
  {
    var t := Sample();
    var goa := (row: Record) => SameText(row.statename, "GOA");
    assert Upper("GOA")[0] == 'G';
    assert Upper("DELHI")[0] == 'D';
    assert Upper("MAHARASHTRA")[0] == 'M';
    assert !goa(t[0]) && !goa(t[1]) && !goa(t[2]);
    assert Filter(t[3..], goa) == [];
    assert Filter(t[2..], goa) == [];
    assert Filter(t[1..], goa) == [];
    assert Filter(t[0..], goa) == [];
    assert t[0..] == t;
  }

  /** A header without the taluk and delivery-status columns names both,
      in required order. */
  lemma MissingTalukColumns()
    ensures MissingColumns(["pincode", "officename", "statename", "districtname", "officetype"])
      == ["taluk", "Deliverystatus"]
  {
    var cols := ["pincode", "officename", "statename", "districtname", "officetype"];
    var keep := (c: string) => c !in cols;
    var req := RequiredColumns;
    assert !keep(req[0]) && !keep(req[1]) && !keep(req[2]) && !keep(req[3]);
    assert keep(req[4]) && !keep(req[5]) && keep(req[6]);
    assert Filter(req[7..], keep) == [];
    assert Filter(req[6..], keep) == [req[6]];
    assert Filter(req[5..], keep) == [req[6]];
    assert Filter(req[4..], keep) == [req[4], req[6]];
    assert Filter(req[3..], keep) == [req[4], req[6]];
    assert Filter(req[2..], keep) == [req[4], req[6]];
    assert Filter(req[1..], keep) == [req[4], req[6]];
    assert Filter(req[0..], keep) == [req[4], req[6]];
    assert req[0..] == req;
  }

  /** The load error for that header lists both missing columns quoted,
      as Python prints a list. */
  lemma MissingTalukMessage(columns: seq<string>)
    requires columns == ["pincode", "officename", "statename", "districtname", "officetype"]
    ensures ListRepr(MissingColumns(columns)) == "['taluk', 'Deliverystatus']"
  {
    MissingTalukColumns();
    TalukDeliveryRepr(MissingColumns(columns));
  }

  lemma TalukDeliveryRepr(missing: seq<string>)
    requires missing == ["taluk", "Deliverystatus"]
    ensures ListRepr(missing) == "['taluk', 'Deliverystatus']"
  {
    ListReprOfTwo(missing[0], missing[1]);
    assert missing == [missing[0], missing[1]];
  }

  /** A missing file `p`: the message the code as written produces. */
  lemma MissingFileWrittenMessage(source: DataSource)
    requires !source.present
    ensures LoadAsWritten("p", source).error.message ==
      LoadPrefix + "Unexpected error loading data: " + LoadPrefix + "Data file not found: p" + " from file: 'p'"
  {
    MissingFileAsWritten("p", source);
  }
}
