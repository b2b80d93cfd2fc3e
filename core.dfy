/** `PincodeData`: the object that loads the table once and then answers
    every query over it. Its state is the loaded table (absent until a load
    succeeds) and the path the table was read from. */
module Core {
  import opened Optional
  import opened Exceptions
  import opened Queries
  import opened Loader

  /** The error every query raises while no table is loaded. */
  function NotLoaded(): (e: PininError)
    ensures e.DataLoad? && e.filePath.None? && e.originalException.None?
    ensures e.message == LoadPrefix + "Data not loaded"
  {
    DataLoadError("Data not loaded", None, None)
  }

  class PincodeData {
    /** The loaded table; `None` until a load succeeds. */
    var data: Option<Table>
    /** The path the table is read from. */
    var dataFile: string

    /** The first half of `__init__`: no table yet, and the path is the
        given one unless it is missing or empty, in which case it is the
        bundled default. */
    constructor (dataFile: Option<string>, defaultFile: string)
      ensures this.data.None?
      ensures Given(dataFile) ==> this.dataFile == dataFile.value
      ensures !Given(dataFile) ==> this.dataFile == defaultFile
    {
      data := None;
      this.dataFile := if Given(dataFile) then dataFile.value else defaultFile;
    }

    /** `_load_data`, with the errors raised inside it kept intact: check
        that the file exists, read it under the first encoding that
        decodes, check the required columns, and store the table. On
        failure nothing is stored and the load error is returned. */
    method LoadData(source: DataSource) returns (failure: Option<PininError>)
      modifies this
      ensures dataFile == old(dataFile)
      ensures failure.None? <==> Load(dataFile, source).Success?
      ensures failure.None? ==> data == Some(Load(dataFile, source).value)
      ensures failure.Some? ==> failure.value == Load(dataFile, source).error && data == old(data)
      ensures failure.Some? ==> failure.value.DataLoad?
    {
      if !source.present {
        return Some(DataLoadError("Data file not found: " + dataFile, None, None));
      }
      var outcome := ReadWithFallback(source);
      match outcome {
        case None =>
          return Some(DataLoadError("Could not decode CSV file with any supported encoding", None, None));
        case Some(Raises(e)) =>
          return Some(ReaderFailure(dataFile, e));
        case Some(UnicodeDecodeError) =>
          assert false;
        case Some(Parsed(frame)) =>
          var missing := MissingColumns(frame.columns);
          if missing != [] {
            return Some(DataLoadError("Missing required columns: " + ListRepr(missing), None, None));
          }
          data := Some(FrameTable(frame));
          return None;
      }
    }

    /** `get_pincode_info`: the loaded-table check comes before validation. */
    function GetPincodeInfo(p: PincodeInput): (r: Result<Table>)
      reads this
      ensures data.None? ==> r == Failure(NotLoaded())
      ensures data.Some? ==> r == PincodeInfo(data.value, p)
    {
      if data.None? then Failure(NotLoaded()) else PincodeInfo(data.value, p)
    }

    /** `_get_matching_rows`. */
    function GetMatchingRows(code: string): (r: Result<Table>)
      reads this
      ensures data.None? ==> r == Failure(NotLoaded())
      ensures data.Some? ==> r == Success(MatchingRows(data.value, code))
    {
      if data.None? then Failure(NotLoaded()) else Success(MatchingRows(data.value, code))
    }

    /** `get_state`. */
    function GetState(p: PincodeInput): (r: Result<string>)
      reads this
      ensures data.None? ==> r == Failure(NotLoaded())
      ensures data.Some? ==> r == FirstRowField(data.value, p, StateName)
    {
      if data.None? then Failure(NotLoaded()) else FirstRowField(data.value, p, StateName)
    }

    /** `get_district`. */
    function GetDistrict(p: PincodeInput): (r: Result<string>)
      reads this
      ensures data.None? ==> r == Failure(NotLoaded())
      ensures data.Some? ==> r == FirstRowField(data.value, p, DistrictName)
    {
      if data.None? then Failure(NotLoaded()) else FirstRowField(data.value, p, DistrictName)
    }

    /** `get_taluk`. */
    function GetTaluk(p: PincodeInput): (r: Result<string>)
      reads this
      ensures data.None? ==> r == Failure(NotLoaded())
      ensures data.Some? ==> r == FirstRowField(data.value, p, Taluk)
    {
      if data.None? then Failure(NotLoaded()) else FirstRowField(data.value, p, Taluk)
    }

    /** `get_offices`. */
    function GetOffices(p: PincodeInput): (r: Result<seq<string>>)
      reads this
      ensures data.None? ==> r == Failure(NotLoaded())
      ensures data.Some? ==> r == OfficeNames(data.value, p)
    {
      if data.None? then Failure(NotLoaded()) else OfficeNames(data.value, p)
    }

    /** `search_by_state`. */
    function SearchByState(state: string): (r: Result<seq<string>>)
      reads this
      ensures data.None? ==> r == Failure(NotLoaded())
      ensures data.Some? ==> r == Success(Queries.SearchByState(data.value, state))
    {
      if data.None? then Failure(NotLoaded()) else Success(Queries.SearchByState(data.value, state))
    }

    /** `search_by_district`. */
    function SearchByDistrict(district: string, state: Option<string>): (r: Result<seq<string>>)
      reads this
      ensures data.None? ==> r == Failure(NotLoaded())
      ensures data.Some? ==> r == Success(Queries.SearchByDistrict(data.value, district, state))
    {
      if data.None? then Failure(NotLoaded()) else Success(Queries.SearchByDistrict(data.value, district, state))
    }

    /** `search_by_office`. */
    function SearchByOffice(query: string): (r: Result<Table>)
      reads this
      ensures data.None? ==> r == Failure(NotLoaded())
      ensures data.Some? ==> r == Success(Queries.SearchByOffice(data.value, query))
    {
      if data.None? then Failure(NotLoaded()) else Success(Queries.SearchByOffice(data.value, query))
    }

    /** `get_states`. */
    function GetStates(): (r: Result<seq<string>>)
      reads this
      ensures data.None? ==> r == Failure(NotLoaded())
      ensures data.Some? ==> r == Success(States(data.value))
    {
      if data.None? then Failure(NotLoaded()) else Success(States(data.value))
    }

    /** `get_districts`. */
    function GetDistricts(state: Option<string>): (r: Result<seq<string>>)
      reads this
      ensures data.None? ==> r == Failure(NotLoaded())
      ensures data.Some? ==> r == Success(Districts(data.value, state))
    {
      if data.None? then Failure(NotLoaded()) else Success(Districts(data.value, state))
    }

    /** `get_statistics`. */
    function GetStatistics(): (r: Result<Statistics>)
      reads this
      ensures data.None? ==> r == Failure(NotLoaded())
      ensures data.Some? ==> r == Success(TableStatistics(data.value))
    {
      if data.None? then Failure(NotLoaded()) else Success(TableStatistics(data.value))
    }
  }

  /** `PincodeData(data_file)`: build the object and load its table. Every
      load failure leaves the constructor as a load error and no object is
      handed out; an object that is handed out has its table loaded. */
  method Open(dataFile: Option<string>, defaultFile: string, source: DataSource) returns (r: Result<PincodeData>)
    ensures var path := if Given(dataFile) then dataFile.value else defaultFile;
      && (r.Success? <==> Load(path, source).Success?)
      && (r.Failure? ==> r.error == Load(path, source).error && r.error.DataLoad?)
      && (r.Success? ==> fresh(r.value) && r.value.dataFile == path)
      && (r.Success? ==> r.value.data == Some(Load(path, source).value))
  {
    var d := new PincodeData(dataFile, defaultFile);
    var failure := d.LoadData(source);
    if failure.Some? {
      return Failure(failure.value);
    }
    return Success(d);
  }

  /** A loaded object never raises the not-loaded error: its lookups fail
      only on malformed or unknown pincodes, and its searches, listings and
      statistics always answer. */
  lemma LoadedAnswers(d: PincodeData, p: PincodeInput, text: string, state: Option<string>)
    requires d.data.Some?
    ensures d.GetPincodeInfo(p).Failure? ==>
      d.GetPincodeInfo(p).error.InvalidPincode? || d.GetPincodeInfo(p).error.DataNotFound?
    ensures d.GetOffices(p).Failure? ==>
      d.GetOffices(p).error.InvalidPincode? || d.GetOffices(p).error.DataNotFound?
    ensures d.SearchByState(text).Success? && d.SearchByDistrict(text, state).Success?
    ensures d.SearchByOffice(text).Success? && d.GetStates().Success?
    ensures d.GetDistricts(state).Success? && d.GetStatistics().Success?
  {
  }
}
