/** The read-only query engine of `PincodeData`: pincode validation, point
    lookups, case-insensitive searches, listings and statistics, each a
    function of the loaded table. */
module Queries {
  import opened Optional
  import opened Strings
  import opened Collections
  import opened Exceptions

  /** One row of the pincode table: the seven required columns. */
  datatype Record = Record(
    pincode: string,
    officename: string,
    statename: string,
    districtname: string,
    taluk: string,
    officetype: string,
    deliverystatus: string)

  /** The loaded table, in file order. */
  type Table = seq<Record>

  /** The columns a query can read. */
  datatype Field = Pincode | OfficeName | StateName | DistrictName | Taluk | OfficeType | DeliveryStatus

  function Get(r: Record, f: Field): string {
    match f
    case Pincode => r.pincode
    case OfficeName => r.officename
    case StateName => r.statename
    case DistrictName => r.districtname
    case Taluk => r.taluk
    case OfficeType => r.officetype
    case DeliveryStatus => r.deliverystatus
  }

  /** One column of a table, row by row (`table[field]`). */
  function Column(t: Table, f: Field): (c: seq<string>)
    ensures |c| == |t|
    ensures forall i :: 0 <= i < |t| ==> c[i] == Get(t[i], f)
  {
    if t == [] then [] else [Get(t[0], f)] + Column(t[1..], f)
  }

  lemma ColumnHas(t: Table, f: Field, v: string)
    ensures v in Column(t, f) <==> exists row :: row in t && Get(row, f) == v
  {
    var c := Column(t, f);
    if v in c {
      var i :| 0 <= i < |c| && c[i] == v;
      assert t[i] in t;
    }
  }

  /** A pincode as callers pass it: a string or an integer. */
  datatype PincodeInput = PincodeText(text: string) | PincodeNumber(number: int)

  /** `str(pincode)`. */
  function InputText(p: PincodeInput): string {
    match p
    case PincodeText(s) => s
    case PincodeNumber(n) => IntToDecimal(n)
  }

  /** The pattern `^\d{6}$`. */
  predicate IsSixDigits(s: string) {
    && |s| == 6
    && IsDigit(s[0]) && IsDigit(s[1]) && IsDigit(s[2])
    && IsDigit(s[3]) && IsDigit(s[4]) && IsDigit(s[5])
  }

  /** `_validate_pincode`: the stripped text of the input when it is six
      digits, otherwise an `InvalidPincodeError` for the stripped text,
      carrying the default message that quotes it. */
  function ValidatePincode(p: PincodeInput): (r: Result<string>)
    ensures r.Success? ==> IsSixDigits(r.value)
    ensures r.Success? ==> r.value == Strip(InputText(p))
    ensures r.Failure? ==> r.error.InvalidPincode? && r.error.pincode == Strip(InputText(p))
    ensures r.Failure? ==>
      r.error == InvalidPincode(Strip(InputText(p)), InvalidPrefix + Strip(InputText(p)) + InvalidSuffix)
  {
    var s := Strip(InputText(p));
    if IsSixDigits(s) then Success(s) else Failure(InvalidPincodeError(s, None))
  }

  /** Six digits with any whitespace around them validate, and validation
      returns the digits alone. */
  lemma ValidateAcceptsPadded(pre: string, digits: string, post: string)
    requires AllSpace(pre) && AllSpace(post) && IsSixDigits(digits)
    ensures ValidatePincode(PincodeText(pre + digits + post)) == Success(digits)
  {
    StripPadded(pre, digits, post);
  }

  /** Conversely, a text validates only if it is six digits padded by
      whitespace: what validation returns sits in the text with nothing but
      whitespace before and after it. */
  lemma ValidateOnlyPadded(s: string)
    requires ValidatePincode(PincodeText(s)).Success?
    ensures var d := ValidatePincode(PincodeText(s)).value;
      var k := LeadingSpace(s);
      && IsSixDigits(d)
      && k + |d| <= |s| && s[k..k + |d|] == d
      && AllSpace(s[..k]) && AllSpace(s[k + |d|..])
  {
  }

  /** An integer validates exactly when it has six decimal digits, and the
      validated text is its decimal form, which reads back as the integer. */
  lemma ValidateNumber(n: int)
    ensures ValidatePincode(PincodeNumber(n)).Success? <==> 100000 <= n <= 999999
    ensures ValidatePincode(PincodeNumber(n)).Success? ==>
      ValidatePincode(PincodeNumber(n)).value == NatToDecimal(n) &&
      DecimalValue(NatToDecimal(n)) == n
  {
    StripDecimal(n);
    if n >= 0 {
      SixDigitDecimals(n);
      DecimalRoundTrip(n);
    } else {
      assert !IsDigit(IntToDecimal(n)[0]);
    }
  }

  /** The decimal form of an integer has no surrounding whitespace. */
  lemma StripDecimal(n: int)
    ensures Strip(IntToDecimal(n)) == IntToDecimal(n)
  {
    var s := IntToDecimal(n);
    var digits := NatToDecimal(if n < 0 then -n else n);
    assert s[|s| - 1] == digits[|digits| - 1];
    assert !IsSpace(s[0]) && !IsSpace(s[|s| - 1]);
    StripPadded("", s, "");
    assert "" + s + "" == s;
  }

  /** Validating a validated pincode returns it unchanged. */
  lemma ValidateIdempotent(p: PincodeInput)
    requires ValidatePincode(p).Success?
    ensures ValidatePincode(PincodeText(ValidatePincode(p).value)) == ValidatePincode(p)
  {
    var d := ValidatePincode(p).value;
    StripPadded("", d, "");
    assert "" + d + "" == d;
  }

  predicate HasPincode(t: Table, code: string) {
    exists i :: 0 <= i < |t| && t[i].pincode == code
  }

  /** `_get_matching_rows`: the rows whose pincode is `code`, in table order. */
  function MatchingRows(t: Table, code: string): (rows: Table)
    ensures forall row :: row in rows <==> row in t && row.pincode == code
    ensures forall row {:trigger multiset(rows)[row]} ::
      multiset(rows)[row] == if row.pincode == code then multiset(t)[row] else 0
    ensures IsSubsequence(rows, t)
    ensures rows == [] <==> !HasPincode(t, code)
  {
    var rows := Filter(t, (row: Record) => row.pincode == code);
    assert HasPincode(t, code) ==> exists i :: 0 <= i < |t| && t[i] in rows;
    rows
  }

  /** `get_pincode_info`: validation comes first, so a malformed code is an
      `InvalidPincode` error whatever the table holds; a well-formed code
      with no rows is a `DataNotFound` error; otherwise the answer is every
      row with that pincode, each as often as in the table, in table order. */
  function PincodeInfo(t: Table, p: PincodeInput): (r: Result<Table>)
    ensures ValidatePincode(p).Failure? ==> r == Failure(ValidatePincode(p).error) && r.error.InvalidPincode?
    ensures ValidatePincode(p).Success? ==>
      var code := ValidatePincode(p).value;
      && (r.Failure? <==> !HasPincode(t, code))
      && (r.Failure? ==> r.error.DataNotFound? && r.error.pincode == code)
      && (r.Failure? ==> r.error == DataNotFound(code, NotFoundPrefix + code + NotFoundSuffix))
      && (r.Success? ==>
          && r.value != []
          && (forall row :: row in r.value <==> row in t && row.pincode == code)
          && (forall row {:trigger multiset(r.value)[row]} ::
                multiset(r.value)[row] == if row.pincode == code then multiset(t)[row] else 0)
          && IsSubsequence(r.value, t))
  {
    match ValidatePincode(p)
    case Failure(e) => Failure(e)
    case Success(code) =>
      var rows := MatchingRows(t, code);
      if rows == [] then Failure(DataNotFoundError(code, None)) else Success(rows)
  }

  /** `_get_info_field` for a single-valued field: that field of the first
      row `get_pincode_info` returns, with the same errors. */
  function FirstRowField(t: Table, p: PincodeInput, f: Field): (r: Result<string>)
    ensures PincodeInfo(t, p).Failure? ==> r == Failure(PincodeInfo(t, p).error)
    ensures PincodeInfo(t, p).Success? ==> r == Success(Get(PincodeInfo(t, p).value[0], f))
  {
    match PincodeInfo(t, p)
    case Failure(e) => Failure(e)
    case Success(rows) => Success(Get(rows[0], f))
  }

  /** The single-valued lookups answer from the first row of the table that
      carries the pincode. */
  lemma {:induction false} FirstRowFieldIsFirstMatch(t: Table, p: PincodeInput, f: Field, i: nat)
    requires ValidatePincode(p).Success?
    requires i < |t| && t[i].pincode == ValidatePincode(p).value
    requires forall j :: 0 <= j < i ==> t[j].pincode != ValidatePincode(p).value
    ensures FirstRowField(t, p, f) == Success(Get(t[i], f))
  {
    var code := ValidatePincode(p).value;
    FilterFirst(t, (row: Record) => row.pincode == code, i);
  }

  /** `_get_info_field(pincode, 'officename')`, i.e. `get_offices`: the
      office name of every row `get_pincode_info` returns, in the same
      order, repeats kept, with the same errors. */
  function OfficeNames(t: Table, p: PincodeInput): (r: Result<seq<string>>)
    ensures PincodeInfo(t, p).Failure? ==> r == Failure(PincodeInfo(t, p).error)
    ensures PincodeInfo(t, p).Success? ==>
      && r.Success?
      && |r.value| == |PincodeInfo(t, p).value|
      && forall i :: 0 <= i < |r.value| ==> r.value[i] == PincodeInfo(t, p).value[i].officename
  {
    match PincodeInfo(t, p)
    case Failure(e) => Failure(e)
    case Success(rows) => Success(Column(rows, OfficeName))
  }

  /** Case-insensitive equality: `a.upper() == b.upper()`. */
  predicate SameText(a: string, b: string) {
    Upper(a) == Upper(b)
  }

  /** `sorted(rows[field].unique().tolist()) if not rows.empty else []`:
      every value the column takes, once each, in increasing order. */
  function SortedValues(rows: Table, f: Field): (r: seq<string>)
    ensures StrictlySorted(r)
    ensures forall v :: v in r <==> exists row :: row in rows && Get(row, f) == v
    ensures |r| == |Distinct(Column(rows, f))|
  {
    if rows == [] then []
    else
      var r := SortedUnique(Column(rows, f));
      forall v ensures v in r <==> exists row :: row in rows && Get(row, f) == v {
        ColumnHas(rows, f, v);
      }
      r
  }

  function InState(t: Table, state: string): (rows: Table)
    ensures forall row :: row in rows <==> row in t && SameText(row.statename, state)
  {
    Filter(t, (row: Record) => SameText(row.statename, state))
  }

  function InDistrict(t: Table, district: string): (rows: Table)
    ensures forall row :: row in rows <==> row in t && SameText(row.districtname, district)
  {
    Filter(t, (row: Record) => SameText(row.districtname, district))
  }

  /** `search_by_state`: the pincodes of the rows whose state matches
      `state` ignoring case, sorted and without repeats; no match is an
      empty answer, not an error. */
  function SearchByState(t: Table, state: string): (r: seq<string>)
    ensures StrictlySorted(r)
    ensures forall c :: c in r <==> exists row :: row in t && SameText(row.statename, state) && row.pincode == c
  {
    SortedValues(InState(t, state), Pincode)
  }

  /** `search_by_district`: the pincodes of the rows whose district matches
      `district` ignoring case, further restricted to the rows whose state
      matches when a non-empty state is given; sorted, without repeats. */
  function SearchByDistrict(t: Table, district: string, state: Option<string>): (r: seq<string>)
    ensures StrictlySorted(r)
    ensures forall c :: c in r <==>
      exists row :: row in t && SameText(row.districtname, district) &&
        (Given(state) ==> SameText(row.statename, state.value)) && row.pincode == c
  {
    var rows := InDistrict(t, district);
    var rows := if Given(state) then InState(rows, state.value) else rows;
    SortedValues(rows, Pincode)
  }

  /** `search_by_office`: the rows whose upper-cased office name contains
      the upper-cased query, each as often as in the table, in table order;
      possibly none. */
  function SearchByOffice(t: Table, query: string): (r: Table)
    ensures forall row :: row in r <==> row in t && Contains(Upper(row.officename), Upper(query))
    ensures forall row {:trigger multiset(r)[row]} ::
      multiset(r)[row] == if Contains(Upper(row.officename), Upper(query)) then multiset(t)[row] else 0
    ensures IsSubsequence(r, t)
  {
    Filter(t, (row: Record) => Contains(Upper(row.officename), Upper(query)))
  }

  /** `get_states`: every state name in the table, once, in increasing order. */
  function States(t: Table): (r: seq<string>)
    ensures StrictlySorted(r)
    ensures forall s :: s in r <==> exists row :: row in t && row.statename == s
  {
    SortedValues(t, StateName)
  }

  /** `get_districts`: every district name, once, in increasing order, taken
      from the rows of the given state (ignoring case) when a non-empty
      state is given. */
  function Districts(t: Table, state: Option<string>): (r: seq<string>)
    ensures StrictlySorted(r)
    ensures forall d :: d in r <==>
      exists row :: row in t && (Given(state) ==> SameText(row.statename, state.value)) && row.districtname == d
  {
    if Given(state) then SortedValues(InState(t, state.value), DistrictName)
    else SortedValues(t, DistrictName)
  }

  datatype Statistics = Statistics(
    totalRecords: nat,
    uniquePincodes: nat,
    uniqueStates: nat,
    uniqueDistricts: nat,
    uniqueOffices: nat)

  /** The number of distinct values of a column, zero for an empty table. */
  function UniqueCount(t: Table, f: Field): nat {
    if t == [] then 0 else |Distinct(Column(t, f))|
  }

  /** `get_statistics`. */
  function TableStatistics(t: Table): (s: Statistics)
    ensures s.totalRecords == |t|
    ensures s.uniquePincodes == |Distinct(Column(t, Pincode))|
    ensures s.uniqueStates == |Distinct(Column(t, StateName))|
    ensures s.uniqueDistricts == |Distinct(Column(t, DistrictName))|
    ensures s.uniqueOffices == |Distinct(Column(t, OfficeName))|
  {
    Statistics(|t|, UniqueCount(t, Pincode), UniqueCount(t, StateName),
      UniqueCount(t, DistrictName), UniqueCount(t, OfficeName))
  }

  /** No column has more distinct values than the table has rows, and an
      empty table has only zero counts. */
  lemma StatisticsBounds(t: Table)
    ensures var s := TableStatistics(t);
      && s.uniquePincodes <= s.totalRecords
      && s.uniqueStates <= s.totalRecords
      && s.uniqueDistricts <= s.totalRecords
      && s.uniqueOffices <= s.totalRecords
    ensures t == [] ==> TableStatistics(t) == Statistics(0, 0, 0, 0, 0)
  {
    DistinctAtMostLength(Column(t, Pincode));
    DistinctAtMostLength(Column(t, StateName));
    DistinctAtMostLength(Column(t, DistrictName));
    DistinctAtMostLength(Column(t, OfficeName));
  }

  /** The listings have exactly as many entries as the statistics count
      distinct states and districts. */
  lemma ListingsMatchStatistics(t: Table)
    ensures |States(t)| == TableStatistics(t).uniqueStates
    ensures |Districts(t, None)| == TableStatistics(t).uniqueDistricts
    ensures t == [] ==> States(t) == [] && Districts(t, None) == []
  {
  }

  /** A pincode search answers the same for any spelling of the state that
      differs only in letter case. */
  lemma {:induction false} SearchByStateIgnoresCase(t: Table, a: string, b: string)
    requires SameText(a, b)
    ensures SearchByState(t, a) == SearchByState(t, b)
  {
    FilterSameMask(t, (row: Record) => SameText(row.statename, a), (row: Record) => SameText(row.statename, b));
  }

  /** In particular the upper-cased spelling gives the same answer. */
  lemma SearchByStateUpper(t: Table, state: string)
    ensures SearchByState(t, Upper(state)) == SearchByState(t, state)
  {
    UpperIdempotent(state);
    SearchByStateIgnoresCase(t, Upper(state), state);
  }

  /** A state filter only narrows: every pincode found in a district within
      a state is found in that district without the filter, and an absent
      or empty state is no filter at all. */
  lemma StateFilterNarrowsSearch(t: Table, district: string, state: Option<string>)
    ensures forall c :: c in SearchByDistrict(t, district, state) ==> c in SearchByDistrict(t, district, None)
    ensures !Given(state) ==> SearchByDistrict(t, district, state) == SearchByDistrict(t, district, None)
  {
  }

  /** The same for the district listing. */
  lemma StateFilterNarrowsDistricts(t: Table, state: Option<string>)
    ensures forall d :: d in Districts(t, state) ==> d in Districts(t, None)
    ensures !Given(state) ==> Districts(t, state) == Districts(t, None)
  {
  }

  /** An empty office query matches every row. */
  lemma EmptyOfficeQueryMatchesAll(t: Table)
    ensures SearchByOffice(t, "") == t
  {
    forall row: Record
      ensures Contains(Upper(row.officename), Upper(""))
    {
      ContainsEmpty(Upper(row.officename));
    }
    FilterAll(t, (row: Record) => Contains(Upper(row.officename), Upper("")));
  }

  lemma {:induction false} FilterAll(t: Table, keep: Record -> bool)
    requires forall row :: keep(row)
    ensures Filter(t, keep) == t
  {
    if t != [] {
      FilterAll(t[1..], keep);
      assert t == [t[0]] + t[1..];
    }
  }
}
