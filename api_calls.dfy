/** The data-access layer: the query each endpoint wrapper sends, and the module-level
    derivation of the choropleth table. The HTTP request and the JSON decoding of its
    answer are not modelled; a wrapper's result is the request it would issue, and a
    fetched table is an input. */
module ApiCalls {
  import opened Values
  import opened Frame
  import CountyResults

  /** The stage URL every wrapper appends its endpoint to. */
  const InvokeUrl: string := "https://qp4b96543m.execute-api.us-east-2.amazonaws.com/active"

  /** A GET request: the URL and its query parameters. */
  datatype Request = Request(url: string, params: map<string, Value>)

  /** `get_results_by_county`: votes aggregated to the county level. */
  function GetResultsByCounty(sheetNumber: Value := Int(2), year: Value := Int(2016),
                              month: Value := Int(11), resultColumn: Value := Str("total_votes")): (r: Request)
    ensures r.url == InvokeUrl + "/get_results"
    ensures r.params.Keys == {"sheet_number", "year", "month", "result_column"}
    ensures r.params["sheet_number"] == sheetNumber && r.params["year"] == year
    ensures r.params["month"] == month && r.params["result_column"] == resultColumn
  {
    Request(InvokeUrl + "/get_results",
            map["sheet_number" := sheetNumber, "year" := year, "month" := month, "result_column" := resultColumn])
  }

  /** `get_turnout_by_county`: each optional filter is sent only when it is truthy. */
  method GetTurnoutByCounty(year: Value := Int(2016), month: Value := Int(11),
                            race: Value := None, gender: Value := None, ageGrp: Value := None)
    returns (r: Request)
    ensures r.url == InvokeUrl + "/get_turnout"
    ensures r.params.Keys == {"year", "month"}
                             + (if Truthy(race) then {"race"} else {})
                             + (if Truthy(gender) then {"gender"} else {})
                             + (if Truthy(ageGrp) then {"age_grp"} else {})
    ensures r.params["year"] == year && r.params["month"] == month
    ensures "race" in r.params ==> r.params["race"] == race
    ensures "gender" in r.params ==> r.params["gender"] == gender
    ensures "age_grp" in r.params ==> r.params["age_grp"] == ageGrp
  {
    var params := map["year" := year, "month" := month];
    if Truthy(race) {
      params := params["race" := race];
    }
    if Truthy(gender) {
      params := params["gender" := gender];
    }
    if Truthy(ageGrp) {
      params := params["age_grp" := ageGrp];
    }
    r := Request(InvokeUrl + "/get_turnout", params);
  }

  /** `get_distribution`: one metric of a county's turnout broken down along one axis. */
  function GetDistribution(countyName: Value := Str("Fulton"), year: Value := Int(2016), month: Value := Int(11),
                           axis: Value := Str("age_grp"), metric: Value := Str("voted")): (r: Request)
    ensures r.url == InvokeUrl + "/get_distribution"
    ensures r.params.Keys == {"county_name", "year", "month", "axis", "metric"}
    ensures r.params["county_name"] == countyName && r.params["year"] == year && r.params["month"] == month
    ensures r.params["axis"] == axis && r.params["metric"] == metric
  {
    Request(InvokeUrl + "/get_distribution",
            map["county_name" := countyName, "year" := year, "month" := month, "axis" := axis, "metric" := metric])
  }

  /** Called without arguments, the two pure wrappers ask for the 2016 general election:
      contest sheet 2 by total votes, and Fulton's voters by age group. */
  lemma DefaultRequests()
    ensures GetResultsByCounty().params ==
      map["sheet_number" := Int(2), "year" := Int(2016), "month" := Int(11), "result_column" := Str("total_votes")]
    ensures GetDistribution().params ==
      map["county_name" := Str("Fulton"), "year" := Int(2016), "month" := Int(11),
          "axis" := Str("age_grp"), "metric" := Str("voted")]
  {
  }

  /** The module's globals once lines 61-71 have run. */
  datatype ApiState = ApiState(results: DataFrame, counties: seq<Value>, countyResults: DataFrame)

  /** Module load: `results` is the table fetched by `get_results_by_county()` and `fipsDf`
      the FIPS CSV. The county column is read first; then the winner and FIPS columns are
      added to `results` itself, through the alias `countyResults`. */
  method LoadModule(results: DataFrame, fipsDf: DataFrame) returns (r: Result<ApiState>)
    requires results.Valid() && fipsDf.Valid() && results != fipsDf
    modifies results
    ensures results.Valid()
    ensures r.Success? <==>
      "county_name" in old(results.columns) && CountyResults.Derivation(old(results.View()), fipsDf.View()).Success?
    ensures r.Failure? ==>
      r.error == (if "county_name" !in old(results.columns) then KeyError(Str("county_name"))
                  else CountyResults.Derivation(old(results.View()), fipsDf.View()).error)
    ensures r.Success? ==>
      && r.value.results == results && r.value.countyResults == results
      && r.value.counties == GetColumn(old(results.View()), "county_name").value
    ensures results.View() ==
      if "county_name" in old(results.columns) then CountyResults.Attempt(old(results.View()), fipsDf.View())
      else old(results.View())
  {
    var counties := GetColumn(results.View(), "county_name");
    if counties.Failure? {
      return Failure(counties.error);
    }
    var countyResults := results;
    var outcome := CountyResults.Derive(countyResults, fipsDf);
    if outcome.Fail? {
      return Failure(outcome.error);
    }
    r := Success(ApiState(results, counties.value, countyResults));
  }
}
