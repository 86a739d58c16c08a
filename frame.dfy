/** The part of pandas' DataFrame that the dashboard relies on: a table as an ordered list of
    column names over a sequence of rows, column lookup, column assignment, positional insert,
    row-wise `idxmax`, column sums and boolean row selection. Every row index is the default
    0..n-1 range index, so aligning two columns by index is aligning them by position. */
module Frame {
  import opened Values

  datatype Table = Table(columns: seq<string>, rows: seq<seq<Value>>)

  predicate Distinct(s: seq<string>)
  {
    forall i, j | 0 <= i < j < |s| :: s[i] != s[j]
  }

  /** Column names are unique and every row holds one cell per column. */
  predicate WellFormed(t: Table)
  {
    && Distinct(t.columns)
    && forall i | 0 <= i < |t.rows| :: |t.rows[i]| == |t.columns|
  }

  /** The position of the first occurrence of `x` in `s`. */
  function IndexOf(s: seq<string>, x: string): (k: nat)
    requires x in s
    ensures k < |s| && s[k] == x
    ensures forall j | 0 <= j < k :: s[j] != x
  {
    if s[0] == x then 0 else 1 + IndexOf(s[1..], x)
  }

  lemma IndexOfDistinct(s: seq<string>, k: nat)
    requires Distinct(s) && k < |s|
    ensures IndexOf(s, s[k]) == k
  {
  }

  function ColumnAt(t: Table, j: nat): (cells: seq<Value>)
    requires WellFormed(t) && j < |t.columns|
    ensures |cells| == |t.rows|
    ensures forall i | 0 <= i < |t.rows| :: cells[i] == t.rows[i][j]
  {
    seq(|t.rows|, i requires 0 <= i < |t.rows| => t.rows[i][j])
  }

  /** `df[name]`: the cells of column `name`, top to bottom, or a KeyError. */
  function GetColumn(t: Table, name: string): (r: Result<seq<Value>>)
    requires WellFormed(t)
    ensures r.Success? <==> name in t.columns
    ensures r.Failure? ==> r.error == KeyError(Str(name))
    ensures r.Success? ==> |r.value| == |t.rows|
    ensures r.Success? ==> forall i | 0 <= i < |t.rows| :: r.value[i] == t.rows[i][IndexOf(t.columns, name)]
  {
    if name in t.columns then Success(ColumnAt(t, IndexOf(t.columns, name))) else Failure(KeyError(Str(name)))
  }

  /** A Series re-indexed onto the range index 0..n-1: the cell at each position it has,
      NaN past its end, and nothing of what lies beyond n. */
  function Aligned(values: seq<Value>, n: nat): (r: seq<Value>)
    ensures |r| == n
    ensures forall i | 0 <= i < n :: r[i] == if i < |values| then values[i] else NaN
  {
    seq(n, i requires 0 <= i < n => if i < |values| then values[i] else NaN)
  }

  /** Aligning a Series that is exactly as long as the frame changes nothing. */
  lemma AlignedSameLength(values: seq<Value>)
    ensures Aligned(values, |values|) == values
  {
  }

  /** `df[name] = values` for a Series on the frame's own index: an existing column is
      overwritten where it stands, a new one is appended at the right. */
  function WithColumn(t: Table, name: string, values: seq<Value>): (r: Table)
    requires WellFormed(t) && |values| == |t.rows|
    ensures WellFormed(r)
  {
    if name in t.columns then
      var j := IndexOf(t.columns, name);
      Table(t.columns, seq(|t.rows|, i requires 0 <= i < |t.rows| => t.rows[i][j := values[i]]))
    else
      Table(t.columns + [name], seq(|t.rows|, i requires 0 <= i < |t.rows| => t.rows[i] + [values[i]]))
  }

  /** A new column goes at the end; the row count and every existing cell stay as they were. */
  lemma WithColumnAppends(t: Table, name: string, values: seq<Value>)
    requires WellFormed(t) && |values| == |t.rows| && name !in t.columns
    ensures WithColumn(t, name, values).columns == t.columns + [name]
    ensures |WithColumn(t, name, values).rows| == |t.rows|
    ensures forall i | 0 <= i < |t.rows| :: WithColumn(t, name, values).rows[i] == t.rows[i] + [values[i]]
  {
  }

  /** An existing column keeps its place; only its cells change. */
  lemma WithColumnReplaces(t: Table, name: string, values: seq<Value>)
    requires WellFormed(t) && |values| == |t.rows| && name in t.columns
    ensures WithColumn(t, name, values).columns == t.columns
    ensures |WithColumn(t, name, values).rows| == |t.rows|
    ensures forall i, j | 0 <= i < |t.rows| && 0 <= j < |t.columns| ::
      WithColumn(t, name, values).rows[i][j] == if t.columns[j] == name then values[i] else t.rows[i][j]
  {
    forall i, j | 0 <= i < |t.rows| && 0 <= j < |t.columns|
      ensures WithColumn(t, name, values).rows[i][j] == if t.columns[j] == name then values[i] else t.rows[i][j]
    {
      if t.columns[j] == name {
        IndexOfDistinct(t.columns, j);
      }
    }
  }

  /** Reading back a column just assigned gives the assigned values; every other column is untouched. */
  lemma GetColumnWithColumn(t: Table, name: string, values: seq<Value>, other: string)
    requires WellFormed(t) && |values| == |t.rows| && other != name
    ensures GetColumn(WithColumn(t, name, values), name) == Success(values)
    ensures GetColumn(WithColumn(t, name, values), other) == GetColumn(t, other)
  {
    var w := WithColumn(t, name, values);
    if name in t.columns {
      WithColumnReplaces(t, name, values);
    } else {
      WithColumnAppends(t, name, values);
      IndexOfDistinct(w.columns, |t.columns|);
      if other in t.columns {
        var j := IndexOf(t.columns, other);
        IndexOfDistinct(w.columns, j);
      }
    }
    assert GetColumn(w, name).value == values;
    if other in t.columns {
      assert GetColumn(w, other).value == GetColumn(t, other).value;
    }
  }

  /** `df.insert(loc, name, values)`: refuses a name already present, then a position past
      the last column; otherwise puts the column, aligned by index, at position `loc`. */
  function InsertAt(t: Table, loc: nat, name: string, values: seq<Value>): (r: Result<Table>)
    requires WellFormed(t)
    ensures r.Success? <==> name !in t.columns && loc <= |t.columns|
    ensures name in t.columns ==> r == Failure(AlreadyExists(name))
    ensures name !in t.columns && loc > |t.columns| ==> r == Failure(LocOutOfBounds(loc))
    ensures r.Success? ==> WellFormed(r.value)
  {
    if name in t.columns then Failure(AlreadyExists(name))
    else if loc > |t.columns| then Failure(LocOutOfBounds(loc))
    else
      var cells := Aligned(values, |t.rows|);
      var cols := t.columns[..loc] + [name] + t.columns[loc..];
      assert Distinct(cols) by {
        forall i, j | 0 <= i < j < |cols| ensures cols[i] != cols[j] {
          assert cols[i] == name || cols[i] in t.columns;
          assert i != loc && j != loc ==> cols[i] == t.columns[if i < loc then i else i - 1];
          assert i != loc && j != loc ==> cols[j] == t.columns[if j < loc then j else j - 1];
        }
      }
      Success(Table(cols, seq(|t.rows|, i requires 0 <= i < |t.rows| => t.rows[i][..loc] + [cells[i]] + t.rows[i][loc..])))
  }

  /** After an insert the new column sits at `loc`, holding row i's aligned value, and the
      columns and cells from `loc` on have moved one place to the right. */
  lemma InsertAtShifts(t: Table, loc: nat, name: string, values: seq<Value>)
    requires WellFormed(t) && InsertAt(t, loc, name, values).Success?
    ensures var r := InsertAt(t, loc, name, values).value;
      && r.columns == t.columns[..loc] + [name] + t.columns[loc..]
      && |r.rows| == |t.rows|
      && forall i | 0 <= i < |t.rows| ::
           r.rows[i] == t.rows[i][..loc] + [Aligned(values, |t.rows|)[i]] + t.rows[i][loc..]
  {
  }

  /** Reading back an inserted column gives the aligned values; every other column is untouched. */
  lemma GetColumnInsertAt(t: Table, loc: nat, name: string, values: seq<Value>, other: string)
    requires WellFormed(t) && InsertAt(t, loc, name, values).Success? && other != name
    ensures GetColumn(InsertAt(t, loc, name, values).value, name) == Success(Aligned(values, |t.rows|))
    ensures GetColumn(InsertAt(t, loc, name, values).value, other) == GetColumn(t, other)
  {
    var r := InsertAt(t, loc, name, values).value;
    InsertAtShifts(t, loc, name, values);
    IndexOfDistinct(r.columns, loc);
    assert GetColumn(r, name).value == Aligned(values, |t.rows|);
    if other in t.columns {
      var j := IndexOf(t.columns, other);
      var j' := if j < loc then j else j + 1;
      assert r.columns[j'] == other;
      IndexOfDistinct(r.columns, j');
      forall i | 0 <= i < |t.rows| ensures r.rows[i][j'] == t.rows[i][j] {
      }
      assert GetColumn(r, other).value == GetColumn(t, other).value;
    }
  }

  /** Every name is a column of the table. */
  predicate HasColumns(t: Table, names: seq<string>)
  {
    forall k | 0 <= k < |names| :: names[k] in t.columns
  }

  /** The names that are not columns of the table. */
  function Absent(names: seq<string>, columns: seq<string>): (r: seq<string>)
    ensures forall k | 0 <= k < |r| :: r[k] in names && r[k] !in columns
    ensures forall k | 0 <= k < |names| && names[k] !in columns :: names[k] in r
  {
    if |names| == 0 then []
    else if names[0] in columns then Absent(names[1..], columns)
    else [names[0]] + Absent(names[1..], columns)
  }

  /** Every cell of the named columns is an integer. */
  predicate NumericColumns(t: Table, names: seq<string>)
    requires WellFormed(t) && HasColumns(t, names)
  {
    forall i, k | 0 <= i < |t.rows| && 0 <= k < |names| :: t.rows[i][IndexOf(t.columns, names[k])].Int?
  }

  /** Row i's integers in the named columns, in the order of `names`. */
  function RowValues(t: Table, i: nat, names: seq<string>): (vals: seq<int>)
    requires WellFormed(t) && HasColumns(t, names) && NumericColumns(t, names) && i < |t.rows|
    ensures |vals| == |names|
    ensures forall k | 0 <= k < |names| :: Int(vals[k]) == t.rows[i][IndexOf(t.columns, names[k])]
  {
    seq(|names|, k requires 0 <= k < |names| => t.rows[i][IndexOf(t.columns, names[k])].i)
  }

  /** `k` holds a maximum of `vals` and every earlier position holds less. */
  predicate IsFirstMax(vals: seq<int>, k: int)
  {
    && 0 <= k < |vals|
    && (forall m | 0 <= m < |vals| :: vals[m] <= vals[k])
    && (forall m | 0 <= m < k :: vals[m] < vals[k])
  }

  /** There is exactly one first maximum. */
  lemma FirstMaxUnique(vals: seq<int>, k1: int, k2: int)
    requires IsFirstMax(vals, k1) && IsFirstMax(vals, k2)
    ensures k1 == k2
  {
    assert vals[k1] <= vals[k2] && vals[k2] <= vals[k1];
  }

  function FirstMax(vals: seq<int>): (k: nat)
    requires |vals| > 0
    ensures IsFirstMax(vals, k)
  {
    if |vals| == 1 then 0
    else
      var n := |vals| - 1;
      var k := FirstMax(vals[..n]);
      if vals[n] > vals[k] then n else k
  }

  /** `df[names].idxmax(axis=1)`: for each row, the name of the column holding the row's
      largest value, the earliest of `names` on a tie. */
  function IdxMax(t: Table, names: seq<string>): (r: Result<seq<Value>>)
    requires WellFormed(t) && |names| > 0
    ensures r.Success? <==> HasColumns(t, names) && NumericColumns(t, names)
    ensures !HasColumns(t, names) ==> r == Failure(MissingColumns(Absent(names, t.columns)))
    ensures HasColumns(t, names) && !NumericColumns(t, names) ==> r == Failure(NotNumeric)
    ensures r.Success? ==> |r.value| == |t.rows|
    ensures r.Success? ==> forall i | 0 <= i < |t.rows| :: NamesFirstMax(t, names, i, r.value[i])
  {
    if !HasColumns(t, names) then Failure(MissingColumns(Absent(names, t.columns)))
    else if !NumericColumns(t, names) then Failure(NotNumeric)
    else
      var w := seq(|t.rows|, i requires 0 <= i < |t.rows| =>
        var k := FirstMax(RowValues(t, i, names));
        assert NamesFirstMax(t, names, i, Str(names[k]));
        Str(names[k]));
      Success(w)
  }

  /** `winner` names one of `names` whose column holds a first maximum of row i. */
  predicate NamesFirstMax(t: Table, names: seq<string>, i: nat, winner: Value)
    requires WellFormed(t) && HasColumns(t, names) && NumericColumns(t, names) && i < |t.rows|
  {
    exists k | 0 <= k < |names| :: winner == Str(names[k]) && IsFirstMax(RowValues(t, i, names), k)
  }

  /** The result of a column sum: an integer, or a value of a column that holds text. */
  datatype Total = Count(n: int) | NonNumeric

  function CellTotal(v: Value): Total
  {
    match v
    case Int(i) => Count(i)
    case Str(_) => NonNumeric
    case _ => Count(0)
  }

  function Plus(a: Total, b: Total): Total
  {
    if a.Count? && b.Count? then Count(a.n + b.n) else NonNumeric
  }

  /** `column.sum()`: missing values are skipped; a column with text has no numeric total. */
  function ColumnTotal(cells: seq<Value>): (r: Total)
    ensures r.Count? <==> forall i | 0 <= i < |cells| :: !cells[i].Str?
    decreases |cells|
  {
    if |cells| == 0 then Count(0)
    else Plus(ColumnTotal(cells[..|cells| - 1]), CellTotal(cells[|cells| - 1]))
  }

  /** Totals are conserved: summing two blocks of rows and adding gives the total of all rows. */
  lemma {:induction false} ColumnTotalAppend(a: seq<Value>, b: seq<Value>)
    ensures ColumnTotal(a + b) == Plus(ColumnTotal(a), ColumnTotal(b))
    decreases |b|
  {
    if |b| > 0 {
      var n := |b| - 1;
      assert (a + b)[..|a + b| - 1] == a + b[..n];
      ColumnTotalAppend(a, b[..n]);
    } else {
      assert a + b == a;
    }
  }

  /** A single cell totals to its own value: an integer to itself, a missing value to 0,
      text to no numeric total. */
  lemma ColumnTotalSingle(v: Value)
    ensures ColumnTotal([v]) == CellTotal(v)
    ensures v.Int? ==> ColumnTotal([v]) == Count(v.i)
    ensures (v.None? || v.NaN?) ==> ColumnTotal([v]) == Count(0)
  {
    SingleCell(v);
    CellCases(v);
  }

  lemma SingleCell(v: Value)
    ensures ColumnTotal([v]) == CellTotal(v)
  {
    assert [v][..0] == [];
  }

  lemma CellCases(v: Value)
    ensures v.Int? ==> CellTotal(v) == Count(v.i)
    ensures (v.None? || v.NaN?) ==> CellTotal(v) == Count(0)
  {
  }

  /** The positions of the rows whose cell in column j equals v (`df[df[c] == v]`), top to bottom. */
  function MatchingRows(rows: seq<seq<Value>>, j: nat, v: Value): (r: seq<nat>)
    requires forall i | 0 <= i < |rows| :: j < |rows[i]|
    ensures forall k | 0 <= k < |r| :: r[k] < |rows| && PyEq(rows[r[k]][j], v)
    ensures forall i | 0 <= i < |rows| && PyEq(rows[i][j], v) :: i in r
    ensures forall k, l | 0 <= k < l < |r| :: r[k] < r[l]
    decreases |rows|
  {
    if |rows| == 0 then []
    else
      var n := |rows| - 1;
      var prefix := MatchingRows(rows[..n], j, v);
      if PyEq(rows[n][j], v) then prefix + [n] else prefix
  }

  /** Row i is the one and only row whose cell in column j equals v. */
  predicate OnlyMatch(t: Table, j: nat, v: Value, i: nat)
    requires WellFormed(t) && j < |t.columns|
  {
    && i < |t.rows|
    && PyEq(t.rows[i][j], v)
    && forall i' | 0 <= i' < |t.rows| && i' != i :: !PyEq(t.rows[i'][j], v)
  }

  /** The selection keeps exactly one row precisely when one row alone matches, and then it
      keeps that row. */
  lemma MatchingRowsSingle(t: Table, j: nat, v: Value)
    requires WellFormed(t) && j < |t.columns|
    ensures |MatchingRows(t.rows, j, v)| == 1 <==> exists i: nat :: OnlyMatch(t, j, v, i)
    ensures forall i: nat | OnlyMatch(t, j, v, i) :: MatchingRows(t.rows, j, v) == [i]
  {
    var m := MatchingRows(t.rows, j, v);
    if |m| == 1 {
      assert OnlyMatch(t, j, v, m[0]);
    }
    forall i: nat | OnlyMatch(t, j, v, i) ensures m == [i] {
      assert i in m;
      assert forall k | 0 <= k < |m| :: m[k] == i;
      var first, last := m[0], m[|m| - 1];
      assert first == i && last == i;
      assert |m| == 1;
    }
  }

  /** A pandas DataFrame whose contents the program updates in place. */
  class DataFrame {
    var columns: seq<string>
    var rows: seq<seq<Value>>

    function View(): Table
      reads this
    {
      Table(columns, rows)
    }

    ghost predicate Valid()
      reads this
    {
      WellFormed(View())
    }

    constructor (t: Table)
      requires WellFormed(t)
      ensures Valid() && View() == t
    {
      columns, rows := t.columns, t.rows;
    }

    /** `df[name] = values`, where `values` is a Series on the frame's own index. */
    method SetColumn(name: string, values: seq<Value>)
      requires Valid() && |values| == |rows|
      modifies this
      ensures Valid()
      ensures View() == WithColumn(old(View()), name, values)
    {
      var t := WithColumn(View(), name, values);
      columns, rows := t.columns, t.rows;
    }

    /** `df.insert(loc, name, values)`: raises, leaving the frame as it was, or inserts. */
    method Insert(loc: nat, name: string, values: seq<Value>) returns (outcome: Outcome)
      requires Valid()
      modifies this
      ensures Valid()
      ensures outcome.Pass? <==> InsertAt(old(View()), loc, name, values).Success?
      ensures outcome.Fail? ==> outcome.error == InsertAt(old(View()), loc, name, values).error
      ensures View() == if outcome.Pass? then InsertAt(old(View()), loc, name, values).value else old(View())
    {
      var r := InsertAt(View(), loc, name, values);
      if r.Failure? {
        return Fail(r.error);
      }
      columns, rows := r.value.columns, r.value.rows;
      outcome := Pass;
    }
  }
}
