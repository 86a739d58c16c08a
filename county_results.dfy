/** The choropleth data both modules derive from the fetched results table: a `winner` column
    naming the leading presidential candidate of each county, then a `FIPS` column placed in
    front, aligned with the FIPS table row by row. */
module CountyResults {
  import opened Values
  import opened Frame

  /** The candidate columns compared for the winner, in tie-break order. */
  const Candidates: seq<string> := ["DONALD J. TRUMP", "GARY JOHNSON", "HILLARY CLINTON"]

  /** `countyResults['winner'] = countyResults[Candidates].idxmax(axis=1)`. */
  function AfterWinner(t: Table): (r: Result<Table>)
    requires WellFormed(t)
    ensures r.Success? <==> HasColumns(t, Candidates) && NumericColumns(t, Candidates)
    ensures r.Success? ==> WellFormed(r.value)
  {
    var w :- IdxMax(t, Candidates);
    Success(WithColumn(t, "winner", w))
  }

  /** The winner assignment followed by `countyResults.insert(0, "FIPS", FIPS_df["FIPS"])`. */
  function Derivation(t: Table, fipsTable: Table): (r: Result<Table>)
    requires WellFormed(t) && WellFormed(fipsTable)
    ensures r.Success? <==>
      && AfterWinner(t).Success?
      && "FIPS" in fipsTable.columns
      && "FIPS" !in AfterWinner(t).value.columns
    ensures r.Success? ==> WellFormed(r.value)
  {
    var t1 :- AfterWinner(t);
    var fips :- GetColumn(fipsTable, "FIPS");
    InsertAt(t1, 0, "FIPS", fips)
  }

  /** The table as the two statements leave it: fully derived, or with only the winner
      column when the FIPS step raises, or untouched when the winner step raises. */
  function Attempt(t: Table, fipsTable: Table): (r: Table)
    requires WellFormed(t) && WellFormed(fipsTable)
    ensures WellFormed(r)
  {
    if Derivation(t, fipsTable).Success? then Derivation(t, fipsTable).value
    else if AfterWinner(t).Success? then AfterWinner(t).value
    else t
  }

  /** The two in-place statements, applied to the shared frame object. */
  method Derive(countyResults: DataFrame, fipsDf: DataFrame) returns (outcome: Outcome)
    requires countyResults.Valid() && fipsDf.Valid() && countyResults != fipsDf
    modifies countyResults
    ensures countyResults.Valid()
    ensures outcome.Pass? <==> Derivation(old(countyResults.View()), fipsDf.View()).Success?
    ensures outcome.Fail? ==> outcome.error == Derivation(old(countyResults.View()), fipsDf.View()).error
    ensures countyResults.View() == Attempt(old(countyResults.View()), fipsDf.View())
  {
    var winner := IdxMax(countyResults.View(), Candidates);
    if winner.Failure? {
      return Fail(winner.error);
    }
    countyResults.SetColumn("winner", winner.value);
    var fips := GetColumn(fipsDf.View(), "FIPS");
    if fips.Failure? {
      return Fail(fips.error);
    }
    outcome := countyResults.Insert(0, "FIPS", fips.value);
  }

  /** Without a `winner` column beforehand, the derived table is `FIPS`, the original
      columns in their order, then `winner`; row i is row i's FIPS, its original cells,
      then its winner. */
  lemma DerivationShape(t: Table, fipsTable: Table)
    requires WellFormed(t) && WellFormed(fipsTable)
    requires "winner" !in t.columns && Derivation(t, fipsTable).Success?
    ensures var d := Derivation(t, fipsTable).value;
      var fips := Aligned(GetColumn(fipsTable, "FIPS").value, |t.rows|);
      var winner := IdxMax(t, Candidates).value;
      && d.columns == ["FIPS"] + t.columns + ["winner"]
      && |d.rows| == |t.rows|
      && forall i | 0 <= i < |t.rows| :: d.rows[i] == [fips[i]] + t.rows[i] + [winner[i]]
  {
    var w := IdxMax(t, Candidates).value;
    var t1 := WithColumn(t, "winner", w);
    WithColumnAppends(t, "winner", w);
    InsertAtShifts(t1, 0, "FIPS", GetColumn(fipsTable, "FIPS").value);
    var d := Derivation(t, fipsTable).value;
    assert t1.columns[..0] == [] && t1.columns[0..] == t1.columns;
    forall i | 0 <= i < |t.rows|
      ensures d.rows[i] == [Aligned(GetColumn(fipsTable, "FIPS").value, |t.rows|)[i]] + t.rows[i] + [w[i]]
    {
      assert t1.rows[i][..0] == [] && t1.rows[i][0..] == t1.rows[i];
    }
  }

  /** The same shape cell by cell: original column j and its cells sit at position j + 1,
      and `winner` is the last column. */
  lemma DerivationCells(t: Table, fipsTable: Table)
    requires WellFormed(t) && WellFormed(fipsTable)
    requires "winner" !in t.columns && Derivation(t, fipsTable).Success?
    ensures var d := Derivation(t, fipsTable).value;
      && |d.columns| == |t.columns| + 2 && |d.rows| == |t.rows|
      && d.columns[0] == "FIPS" && d.columns[|t.columns| + 1] == "winner"
      && (forall j | 0 <= j < |t.columns| :: d.columns[j + 1] == t.columns[j])
      && (forall i, j | 0 <= i < |t.rows| && 0 <= j < |t.columns| :: d.rows[i][j + 1] == t.rows[i][j])
      && (forall i | 0 <= i < |t.rows| :: d.rows[i][|t.columns| + 1] == IdxMax(t, Candidates).value[i])
  {
    DerivationShape(t, fipsTable);
    CellsOfWidened(t, Derivation(t, fipsTable).value,
                   Aligned(GetColumn(fipsTable, "FIPS").value, |t.rows|), IdxMax(t, Candidates).value);
  }

  lemma CellsOfWidened(t: Table, d: Table, fips: seq<Value>, winner: seq<Value>)
    requires |fips| == |t.rows| == |winner|
    requires d.columns == ["FIPS"] + t.columns + ["winner"] && |d.rows| == |t.rows|
    requires forall i | 0 <= i < |t.rows| :: d.rows[i] == [fips[i]] + t.rows[i] + [winner[i]]
    requires forall i | 0 <= i < |t.rows| :: |t.rows[i]| == |t.columns|
    ensures (forall j | 0 <= j < |t.columns| :: d.columns[j + 1] == t.columns[j])
    ensures forall i, j | 0 <= i < |t.rows| && 0 <= j < |t.columns| :: d.rows[i][j + 1] == t.rows[i][j]
    ensures forall i | 0 <= i < |t.rows| :: d.rows[i][|t.columns| + 1] == winner[i]
  {
    forall i, j | 0 <= i < |t.rows| && 0 <= j < |t.columns| ensures d.rows[i][j + 1] == t.rows[i][j] {
      assert d.rows[i] == [fips[i]] + t.rows[i] + [winner[i]];
    }
  }

  /** Every row's winner names one of the three candidates whose vote count is at least
      each of the others', the earliest of them in `Candidates` on a tie. */
  lemma WinnerIsFirstMaximum(t: Table, fipsTable: Table)
    requires WellFormed(t) && WellFormed(fipsTable) && Derivation(t, fipsTable).Success?
    ensures var winner := GetColumn(Derivation(t, fipsTable).value, "winner");
      && winner.Success? && |winner.value| == |t.rows|
      && forall i | 0 <= i < |t.rows| :: NamesFirstMax(t, Candidates, i, winner.value[i])
  {
    var w := IdxMax(t, Candidates).value;
    var t1 := WithColumn(t, "winner", w);
    GetColumnWithColumn(t, "winner", w, "FIPS");
    GetColumnInsertAt(t1, 0, "FIPS", GetColumn(fipsTable, "FIPS").value, "winner");
  }

  /** Every column other than `FIPS` and `winner` reads the same after the derivation. */
  lemma DerivationKeepsColumn(t: Table, fipsTable: Table, c: string)
    requires WellFormed(t) && WellFormed(fipsTable) && Derivation(t, fipsTable).Success?
    requires c != "FIPS" && c != "winner"
    ensures GetColumn(Derivation(t, fipsTable).value, c) == GetColumn(t, c)
  {
    var w := IdxMax(t, Candidates).value;
    var t1 := WithColumn(t, "winner", w);
    GetColumnWithColumn(t, "winner", w, c);
    GetColumnInsertAt(t1, 0, "FIPS", GetColumn(fipsTable, "FIPS").value, c);
  }

  /** The FIPS column holds FIPS_df's codes by position: row i gets code i, and NaN where
      the FIPS table is shorter than the results. */
  lemma FipsIsPositional(t: Table, fipsTable: Table)
    requires WellFormed(t) && WellFormed(fipsTable) && Derivation(t, fipsTable).Success?
    ensures var d := Derivation(t, fipsTable).value;
      var codes := GetColumn(fipsTable, "FIPS").value;
      && d.columns[0] == "FIPS"
      && GetColumn(d, "FIPS") == Success(Aligned(codes, |t.rows|))
      && forall i | 0 <= i < |t.rows| :: d.rows[i][0] == if i < |codes| then codes[i] else NaN
  {
    var w := IdxMax(t, Candidates).value;
    var t1 := WithColumn(t, "winner", w);
    var codes := GetColumn(fipsTable, "FIPS").value;
    InsertAtShifts(t1, 0, "FIPS", codes);
    GetColumnInsertAt(t1, 0, "FIPS", codes, "winner");
  }
}
