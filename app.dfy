/** The dashboard's data: what module load derives from the fetched results (the choropleth
    columns, the statewide totals), the county dropdown, and the table the county-select
    callback charts. Figures and layout are not modelled. */
module App {
  import opened Values
  import opened Frame
  import opened CountyResults
  import ApiCalls

  /** `list.remove(x)`: drops the first occurrence of `x`, or raises ValueError. */
  function Remove(s: seq<string>, x: string): (r: Result<seq<string>>)
    ensures r.Success? <==> x in s
    ensures r.Failure? ==> r.error == NotInList(x)
    ensures r.Success? ==> r.value == s[..IndexOf(s, x)] + s[IndexOf(s, x) + 1..]
    decreases |s|
  {
    if |s| == 0 then Failure(NotInList(x))
    else if s[0] == x then Success(s[1..])
    else
      var rest :- Remove(s[1..], x);
      assert s[..IndexOf(s, x)] == [s[0]] + s[1..][..IndexOf(s[1..], x)];
      Success([s[0]] + rest)
  }

  /** A row of the statewide chart: a column of `results` and its sum over all counties. */
  datatype CandidateTotal = CandidateTotal(candidate: string, votes: Total)

  /** `results[columnList].sum(axis=0)`, reset to a (Candidate, votes) table. */
  function StateWide(t: Table, columnList: seq<string>): (r: seq<CandidateTotal>)
    requires WellFormed(t) && HasColumns(t, columnList)
    ensures |r| == |columnList|
    ensures forall k | 0 <= k < |r| ::
      r[k].candidate == columnList[k] && r[k].votes == ColumnTotal(GetColumn(t, columnList[k]).value)
  {
    seq(|columnList|, k requires 0 <= k < |columnList| =>
      CandidateTotal(columnList[k], ColumnTotal(ColumnAt(t, IndexOf(t.columns, columnList[k])))))
  }

  /** Removing a name from a list of distinct names shifts the names after it one place left. */
  lemma RemoveDistinct(s: seq<string>, x: string)
    requires Distinct(s) && x in s
    ensures var r := Remove(s, x).value;
      var c := IndexOf(s, x);
      && |r| == |s| - 1
      && (forall k | 0 <= k < |r| :: r[k] == s[if k < c then k else k + 1])
      && (forall k | 0 <= k < |r| :: r[k] != x)
  {
    var c := IndexOf(s, x);
    var r := Remove(s, x).value;
    assert r == s[..c] + s[c + 1..];
    forall k | 0 <= k < |r| ensures r[k] == s[if k < c then k else k + 1] && r[k] != x {
      var j := if k < c then k else k + 1;
      assert r[k] == s[j];
      assert j != c;
    }
  }

  /** The statewide chart has one row per column other than `county_name`, in column order;
      `county_name` is never a candidate; a row's votes are the total of the column it
      names, a number exactly when that column holds no text. */
  lemma StateWideRows(t: Table)
    requires WellFormed(t) && "county_name" in t.columns
    ensures var columnList := Remove(t.columns, "county_name").value;
      var c := IndexOf(t.columns, "county_name");
      && HasColumns(t, columnList)
      && var sw := StateWide(t, columnList);
      && |sw| == |t.columns| - 1
      && (forall k | 0 <= k < |sw| :: sw[k].candidate != "county_name")
      && (forall k | 0 <= k < |sw| :: sw[k].candidate == t.columns[if k < c then k else k + 1])
      && (forall k | 0 <= k < |sw| :: sw[k].votes == ColumnTotal(ColumnAt(t, if k < c then k else k + 1)))
  {
    var columnList := Remove(t.columns, "county_name").value;
    var c := IndexOf(t.columns, "county_name");
    RemoveDistinct(t.columns, "county_name");
    assert HasColumns(t, columnList);
    var sw := StateWide(t, columnList);
    forall k | 0 <= k < |sw|
      ensures sw[k].votes == ColumnTotal(ColumnAt(t, if k < c then k else k + 1))
    {
      var j := if k < c then k else k + 1;
      IndexOfDistinct(t.columns, j);
      assert GetColumn(t, columnList[k]).value == ColumnAt(t, j);
    }
  }

  /** The two-county example table: Appling {A: 100, B: 50} and Fulton {A: 9000, B: 9500}. */
  function TwoCounties(): (t: Table)
    ensures WellFormed(t) && HasColumns(t, ["A", "B"]) && NumericColumns(t, ["A", "B"])
  {
    Table(["county_name", "A", "B"], [[Str("Appling"), Int(100), Int(50)], [Str("Fulton"), Int(9000), Int(9500)]])
  }

  /** In the example the statewide totals are A: 9100 and B: 9550. */
  lemma TwoCountyTotals()
    ensures var columnList := Remove(TwoCounties().columns, "county_name");
      && columnList == Success(["A", "B"])
      && StateWide(TwoCounties(), columnList.value) == [CandidateTotal("A", Count(9100)), CandidateTotal("B", Count(9550))]
  {
    var t := TwoCounties();
    assert IndexOf(t.columns, "county_name") == 0;
    assert t.columns[..0] + t.columns[1..] == ["A", "B"];
    assert IndexOf(t.columns, "A") == 1 && IndexOf(t.columns, "B") == 2;
    TwoCellTotal(100, 9000);
    TwoCellTotal(50, 9500);
    assert GetColumn(t, "A").value == [Int(100), Int(9000)];
    assert GetColumn(t, "B").value == [Int(50), Int(9500)];
  }

  lemma TwoCellTotal(x: int, y: int)
    ensures ColumnTotal([Int(x), Int(y)]) == Count(x + y)
  {
    PairTotal(Int(x), Int(y));
  }

  lemma PairTotal(a: Value, b: Value)
    ensures ColumnTotal([a, b]) == Plus(CellTotal(a), CellTotal(b))
  {
    var cells := [a, b];
    assert cells[..|cells| - 1] == [a];
    ColumnTotalSingle(a);
  }

  /** In the example the winners are A in Appling and B in Fulton. */
  lemma TwoCountyWinners()
    ensures IdxMax(TwoCounties(), ["A", "B"]) == Success([Str("A"), Str("B")])
  {
    var t := TwoCounties();
    assert IndexOf(t.columns, "A") == 1 && IndexOf(t.columns, "B") == 2;
    assert RowValues(t, 0, ["A", "B"]) == [100, 50];
    assert RowValues(t, 1, ["A", "B"]) == [9000, 9500];
    FirstMaxUnique([100, 50], 0, FirstMax([100, 50]));
    FirstMaxUnique([9000, 9500], 1, FirstMax([9000, 9500]));
    var w := IdxMax(t, ["A", "B"]).value;
    assert w[0] == Str(["A", "B"][FirstMax(RowValues(t, 0, ["A", "B"]))]);
    assert w[1] == Str(["A", "B"][FirstMax(RowValues(t, 1, ["A", "B"]))]);
    assert w == [Str("A"), Str("B")];
  }

  /** Removing an item that occurs in `s` does not reach anything appended after `s`. */
  lemma {:induction false} RemoveAppend(s: seq<string>, tail: seq<string>, x: string)
    requires x in s
    ensures Remove(s + tail, x) == Success(Remove(s, x).value + tail)
    decreases |s|
  {
    assert (s + tail)[0] == s[0];
    if s[0] != x {
      assert (s + tail)[1..] == s[1..] + tail;
      RemoveAppend(s[1..], tail, x);
      var rest := Remove(s[1..], x).value;
      assert Remove(s, x).value == [s[0]] + rest;
      assert Remove(s + tail, x).value == [s[0]] + (rest + tail);
      assert [s[0]] + (rest + tail) == ([s[0]] + rest) + tail;
    } else {
      assert (s + tail)[1..] == s[1..] + tail;
    }
  }

  /** Because `countyResults` aliases `results`, the statewide column list is the derived
      table's: `FIPS`, the fetched columns other than `county_name`, then `winner`. */
  lemma ColumnListAfterDerivation(t: Table, fipsTable: Table)
    requires WellFormed(t) && WellFormed(fipsTable) && "county_name" in t.columns && "winner" !in t.columns
    requires Derivation(t, fipsTable).Success?
    ensures Remove(Derivation(t, fipsTable).value.columns, "county_name")
         == Success(["FIPS"] + Remove(t.columns, "county_name").value + ["winner"])
  {
    DerivationShape(t, fipsTable);
    RemoveAppend(["FIPS"] + t.columns, ["winner"], "county_name");
    assert (["FIPS"] + t.columns)[1..] == t.columns;
  }

  /** A row of the county chart: a column of `results` and the selected county's cell in it. */
  datatype CandidateVotes = CandidateVotes(candidate: string, votes: Value)

  /** `results[results['county_name'] == county].iloc[:, 1:].T`, reset and renamed to
      (Candidate, Votes). Renaming needs exactly two columns, so it raises unless exactly
      one row matches; the first column, whatever it is, is dropped. */
  function CountyPivot(t: Table, county: Value): (r: Result<seq<CandidateVotes>>)
    requires WellFormed(t)
    ensures "county_name" !in t.columns ==> r == Failure(KeyError(Str("county_name")))
    ensures r.Success? <==>
      "county_name" in t.columns && exists i: nat :: OnlyMatch(t, IndexOf(t.columns, "county_name"), county, i)
    ensures r.Failure? && "county_name" in t.columns ==> r.error.LengthMismatch? && r.error.given == 2
    ensures forall i: nat | r.Success? && OnlyMatch(t, IndexOf(t.columns, "county_name"), county, i) ::
      && |r.value| == |t.columns| - 1
      && forall k | 0 <= k < |r.value| :: r.value[k] == CandidateVotes(t.columns[k + 1], t.rows[i][k + 1])
  {
    if "county_name" !in t.columns then Failure(KeyError(Str("county_name")))
    else
      var j := IndexOf(t.columns, "county_name");
      var m := MatchingRows(t.rows, j, county);
      MatchingRowsSingle(t, j, county);
      if |m| != 1 then Failure(LengthMismatch(|m| + 1, 2))
      else
        var row := t.rows[m[0]];
        assert OnlyMatch(t, j, county, m[0]);
        assert exists i: nat :: OnlyMatch(t, IndexOf(t.columns, "county_name"), county, i);
        Success(seq(|t.columns| - 1, k requires 0 <= k < |t.columns| - 1 => CandidateVotes(t.columns[k + 1], row[k + 1])))
  }

  /** The pivot of a table laid out as `[x] + t.columns + [y]`, cell by cell. */
  lemma PivotOfWidened(t: Table, d: Table, county: Value, i: nat)
    requires WellFormed(t) && WellFormed(d) && "county_name" in t.columns
    requires |d.columns| == |t.columns| + 2 && |d.rows| == |t.rows|
    requires forall j | 0 <= j < |t.columns| :: d.columns[j + 1] == t.columns[j]
    requires forall i', j | 0 <= i' < |t.rows| && 0 <= j < |t.columns| :: d.rows[i'][j + 1] == t.rows[i'][j]
    requires OnlyMatch(t, IndexOf(t.columns, "county_name"), county, i)
    ensures var p := CountyPivot(d, county);
      && p.Success?
      && |p.value| == |t.columns| + 1
      && (forall k | 0 <= k < |t.columns| :: p.value[k] == CandidateVotes(t.columns[k], t.rows[i][k]))
      && p.value[|t.columns|] == CandidateVotes(d.columns[|t.columns| + 1], d.rows[i][|t.columns| + 1])
  {
    var c := IndexOf(t.columns, "county_name");
    assert d.columns[c + 1] == "county_name";
    IndexOfDistinct(d.columns, c + 1);
    assert OnlyMatch(d, c + 1, county, i) by {
      forall i' | 0 <= i' < |t.rows| ensures d.rows[i'][c + 1] == t.rows[i'][c] {
      }
    }
    var p := CountyPivot(d, county);
    forall k | 0 <= k < |t.columns| ensures p.value[k] == CandidateVotes(t.columns[k], t.rows[i][k]) {
      assert p.value[k] == CandidateVotes(d.columns[k + 1], d.rows[i][k + 1]);
    }
  }

  /** After module load the pivot drops `FIPS`, not `county_name`: a county that matches one
      row charts every fetched column, `county_name` included, then its winner. */
  lemma PivotAfterDerivation(t: Table, fipsTable: Table, county: Value, i: nat)
    requires WellFormed(t) && WellFormed(fipsTable) && "county_name" in t.columns && "winner" !in t.columns
    requires Derivation(t, fipsTable).Success?
    requires OnlyMatch(t, IndexOf(t.columns, "county_name"), county, i)
    ensures var p := CountyPivot(Derivation(t, fipsTable).value, county);
      && p.Success?
      && |p.value| == |t.columns| + 1
      && (forall k | 0 <= k < |t.columns| :: p.value[k] == CandidateVotes(t.columns[k], t.rows[i][k]))
      && p.value[|t.columns|] == CandidateVotes("winner", IdxMax(t, Candidates).value[i])
  {
    DerivationCells(t, fipsTable);
    PivotOfWidened(t, Derivation(t, fipsTable).value, county, i);
  }

  /** One dropdown entry. */
  datatype DropdownOption = DropdownOption(text: Value, value: Value)

  /** The county dropdown: its options and its initial value. */
  datatype Dropdown = Dropdown(options: seq<DropdownOption>, value: Value)

  /** One option per county, in row order, whose text is its own value; the initial value
      `counties[0]` raises KeyError(0) when there are no counties. */
  function CountySelector(counties: seq<Value>): (r: Result<Dropdown>)
    ensures r.Success? <==> |counties| > 0
    ensures r.Failure? ==> r.error == KeyError(Int(0))
    ensures r.Success? ==> |r.value.options| == |counties| && r.value.value == counties[0]
    ensures r.Success? ==> forall i | 0 <= i < |counties| ::
      r.value.options[i].text == counties[i] && r.value.options[i].value == counties[i]
  {
    if |counties| == 0 then Failure(KeyError(Int(0)))
    else Success(Dropdown(seq(|counties|, i requires 0 <= i < |counties| => DropdownOption(counties[i], counties[i])),
                          counties[0]))
  }

  /** County names are present, textual and unique. */
  predicate DistinctCounties(counties: seq<Value>)
  {
    && (forall i | 0 <= i < |counties| :: counties[i].Str?)
    && (forall i, i' | 0 <= i < i' < |counties| :: counties[i] != counties[i'])
  }

  /** With unique county names, selecting any of them finds exactly its own row. */
  lemma PivotOfDistinctCounty(t: Table, k: nat)
    requires WellFormed(t) && "county_name" in t.columns
    requires DistinctCounties(GetColumn(t, "county_name").value) && k < |t.rows|
    ensures CountyPivot(t, GetColumn(t, "county_name").value[k]).Success?
  {
    var j := IndexOf(t.columns, "county_name");
    var counties := GetColumn(t, "county_name").value;
    assert forall i | 0 <= i < |t.rows| :: t.rows[i][j] == counties[i];
    assert OnlyMatch(t, j, counties[k], k);
  }

  /** When county names are unique, choosing any dropdown option (the initial one included)
      charts that county: the pivot of the derived table succeeds. */
  lemma SelectingAnOptionSucceeds(t: Table, fipsTable: Table, k: nat)
    requires WellFormed(t) && WellFormed(fipsTable) && "county_name" in t.columns
    requires Derivation(t, fipsTable).Success? && DistinctCounties(GetColumn(t, "county_name").value)
    requires k < |t.rows|
    ensures var selector := CountySelector(GetColumn(t, "county_name").value);
      && selector.Success?
      && CountyPivot(Derivation(t, fipsTable).value, selector.value.options[k].value).Success?
      && CountyPivot(Derivation(t, fipsTable).value, selector.value.value).Success?
  {
    var d := Derivation(t, fipsTable).value;
    DerivationKeepsColumn(t, fipsTable, "county_name");
    PivotOfDistinctCounty(d, k);
    PivotOfDistinctCounty(d, 0);
  }

  /** The module's globals once lines 26-46 have run. */
  datatype AppState = AppState(
    results: DataFrame,
    countyResults: DataFrame,
    counties: seq<Value>,
    fips: seq<Value>,
    values: seq<Value>,
    columnList: seq<string>,
    stateWide: seq<CandidateTotal>)

  /** Module load: `results` is the table fetched by `api.get_results_by_county()` and
      `fipsDf` the FIPS CSV. `countyResults` is the same object as `results`, so the winner
      and FIPS columns land in `results`, and the statewide totals are taken over the
      derived table. */
  method LoadModule(results: DataFrame, fipsDf: DataFrame) returns (r: Result<AppState>)
    requires results.Valid() && fipsDf.Valid() && results != fipsDf
    modifies results
    ensures results.Valid()
    ensures r.Success? <==>
      "county_name" in old(results.columns) && Derivation(old(results.View()), fipsDf.View()).Success?
    ensures r.Failure? ==>
      r.error == (if "county_name" !in old(results.columns) then KeyError(Str("county_name"))
                  else Derivation(old(results.View()), fipsDf.View()).error)
    ensures results.View() ==
      if "county_name" in old(results.columns) then Attempt(old(results.View()), fipsDf.View())
      else old(results.View())
    ensures r.Success? ==>
      var d := results.View();
      && r.value.results == results && r.value.countyResults == results
      && r.value.counties == GetColumn(old(results.View()), "county_name").value
      && r.value.fips == GetColumn(d, "FIPS").value
      && r.value.values == GetColumn(d, "winner").value
      && "county_name" in d.columns
      && r.value.columnList == Remove(d.columns, "county_name").value
      && HasColumns(d, r.value.columnList)
      && r.value.stateWide == StateWide(d, r.value.columnList)
  {
    ghost var t := results.View();
    var counties := GetColumn(results.View(), "county_name");
    if counties.Failure? {
      return Failure(counties.error);
    }
    var countyResults := results;
    var derived := Derive(countyResults, fipsDf);
    if derived.Fail? {
      return Failure(derived.error);
    }
    FipsIsPositional(t, fipsDf.View());
    WinnerIsFirstMaximum(t, fipsDf.View());
    DerivationKeepsColumn(t, fipsDf.View(), "county_name");
    var fips := GetColumn(countyResults.View(), "FIPS");
    var values := GetColumn(countyResults.View(), "winner");
    var columnList := Remove(results.columns, "county_name");
    StateWideRows(results.View());
    var stateWide := StateWide(results.View(), columnList.value);
    r := Success(AppState(results, countyResults, counties.value, fips.value, values.value, columnList.value, stateWide));
  }

  /** What the county-select callback charts: the county's (Candidate, Votes) table and the
      three distribution requests it issues. */
  datatype Charts = Charts(
    countyResults: seq<CandidateVotes>,
    ageData: ApiCalls.Request,
    genderData: ApiCalls.Request,
    raceData: ApiCalls.Request)

  /** The data part of `update_charts`: the pivot raises before any request is made. */
  method UpdateCharts(results: DataFrame, dropdownValue: Value) returns (r: Result<Charts>)
    requires results.Valid()
    ensures r.Success? <==> CountyPivot(results.View(), dropdownValue).Success?
    ensures r.Failure? ==> r.error == CountyPivot(results.View(), dropdownValue).error
    ensures r.Success? ==> r.value.countyResults == CountyPivot(results.View(), dropdownValue).value
    ensures r.Success? ==>
      && r.value.ageData == ApiCalls.GetDistribution(dropdownValue, Int(2016), Int(11), Str("age_grp"), Str("voted"))
      && r.value.genderData == ApiCalls.GetDistribution(dropdownValue, Int(2016), Int(11), Str("gender"), Str("voted"))
      && r.value.raceData == ApiCalls.GetDistribution(dropdownValue, Int(2016), Int(11), Str("race"), Str("voted"))
  {
    var countyResults := CountyPivot(results.View(), dropdownValue);
    if countyResults.Failure? {
      return Failure(countyResults.error);
    }
    var ageData := ApiCalls.GetDistribution(dropdownValue, Int(2016), Int(11), Str("age_grp"), Str("voted"));
    var genderData := ApiCalls.GetDistribution(dropdownValue, Int(2016), Int(11), Str("gender"), Str("voted"));
    var raceData := ApiCalls.GetDistribution(dropdownValue, Int(2016), Int(11), Str("race"), Str("voted"));
    r := Success(Charts(countyResults.value, ageData, genderData, raceData));
  }
}
