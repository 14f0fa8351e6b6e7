/** The part of a pandas DataFrame the two cleaning and distance scripts use:
    named columns, rows keyed by an index label, cells that may be missing (NaN),
    and the vectorised operations (boolean selection, column assignment,
    `.loc` cell writes, `drop`, `dropna`, `to_numeric`) they are built from. */
module Frames {
  import opened Wrappers
  import opened Sequences

  /** A cell: missing (NaN/None), a string, a number, or a boolean. Numbers are
      only copied and compared, never computed with. */
  datatype Cell = NA | Str(s: string) | Num(x: real) | Bool(b: bool)

  type Row = map<string, Cell>

  /** One row together with its index label. */
  datatype Entry = Entry(index: int, row: Row)

  datatype Frame = Frame(columns: seq<string>, entries: seq<Entry>)

  /** A number parser standing for pandas' string-to-number conversion. */
  type Parser = string -> Option<real>

  /** Why a pipeline run stops: a column it reads is absent (pandas' KeyError on a
      column), an index label it looks up is absent (KeyError on a label), or a
      string that must be a number is not (ValueError from `pd.to_numeric`). */
  datatype Error = MissingColumn(name: string) | MissingLabel(key: int) | NotNumeric(text: string)

  function ColumnSet(columns: seq<string>): set<string> {
    set c | c in columns
  }

  /** Every row has exactly the frame's columns, and no column name is repeated. */
  ghost predicate WellFormed(f: Frame) {
    && NoDuplicates(f.columns)
    && forall e | e in f.entries :: e.row.Keys == ColumnSet(f.columns)
  }

  predicate DistinctLabels(f: Frame) {
    forall i, j | 0 <= i < j < |f.entries| :: f.entries[i].index != f.entries[j].index
  }

  /** The default index 0, 1, ..., n-1 that a freshly built frame carries. */
  predicate RangeIndexed(f: Frame) {
    forall i | 0 <= i < |f.entries| :: f.entries[i].index == i
  }

  function Get(r: Row, c: string): Cell {
    if c in r then r[c] else NA
  }

  function LabelOf(e: Entry): int { e.index }

  function Labels(f: Frame): seq<int> {
    Map(f.entries, LabelOf)
  }

  /** The column `c` as a sequence of cells, in row order (`df[c]`). */
  function Values(f: Frame, c: string): (vs: seq<Cell>)
    ensures |vs| == |f.entries|
    ensures forall i | 0 <= i < |f.entries| :: vs[i] == Get(f.entries[i].row, c)
  {
    seq(|f.entries|, i requires 0 <= i < |f.entries| => Get(f.entries[i].row, c))
  }

  /** A frame that keeps rows of a frame with distinct labels has distinct labels. */
  lemma RetainsDistinct(g: Frame, f: Frame)
    requires Retains(g, f) && DistinctLabels(f)
    ensures DistinctLabels(g)
  {
    assert NoDuplicates(Labels(f));
    SubsequenceNoDuplicates(Labels(g), Labels(f));
    forall i, j | 0 <= i < j < |g.entries|
      ensures g.entries[i].index != g.entries[j].index
    {
      assert Labels(g)[i] == g.entries[i].index && Labels(g)[j] == g.entries[j].index;
    }
  }

  /** No row is added and the order of rows is kept: the labels of `g` are a
      subsequence of the labels of `f`. */
  ghost predicate Retains(g: Frame, f: Frame) {
    Subsequence(Labels(g), Labels(f))
  }

  lemma RetainsRefl(f: Frame)
    ensures Retains(f, f)
  {
    SubsequenceRefl(Labels(f));
  }

  lemma RetainsTrans(h: Frame, g: Frame, f: Frame)
    requires Retains(h, g) && Retains(g, f)
    ensures Retains(h, f)
  {
    SubsequenceTrans(Labels(h), Labels(g), Labels(f));
  }

  /** Every row of `g` stems from a row of `f` with the same label, and agrees
      with it on every column outside `changed`. */
  ghost predicate Derives(g: Frame, f: Frame, changed: set<string>) {
    forall e' | e' in g.entries ::
      exists e | e in f.entries :: e.index == e'.index && Agree(e'.row, e.row, changed)
  }

  ghost predicate Agree(r1: Row, r2: Row, changed: set<string>) {
    forall c | c !in changed :: Get(r1, c) == Get(r2, c)
  }

  lemma AgreeTrans(r3: Row, r2: Row, r1: Row, c1: set<string>, c2: set<string>)
    requires Agree(r3, r2, c1) && Agree(r2, r1, c2)
    ensures Agree(r3, r1, c1 + c2)
  {
  }

  lemma Carry(r2: Row, r1: Row, changed: set<string>, c: string)
    requires Agree(r2, r1, changed) && c !in changed
    ensures Get(r2, c) == Get(r1, c)
  {
  }

  lemma DerivesRefl(f: Frame)
    ensures Derives(f, f, {})
  {
    forall e' | e' in f.entries
      ensures exists e | e in f.entries :: e.index == e'.index && Agree(e'.row, e.row, {})
    {
      assert Agree(e'.row, e'.row, {});
    }
  }

  lemma DerivesTrans(h: Frame, g: Frame, f: Frame, c1: set<string>, c2: set<string>)
    requires Derives(h, g, c1) && Derives(g, f, c2)
    ensures Derives(h, f, c1 + c2)
  {
    forall e'' | e'' in h.entries
      ensures exists e | e in f.entries :: e.index == e''.index && Agree(e''.row, e.row, c1 + c2)
    {
      var e' :| e' in g.entries && e'.index == e''.index && Agree(e''.row, e'.row, c1);
      var e :| e in f.entries && e.index == e'.index && Agree(e'.row, e.row, c2);
      assert Agree(e''.row, e.row, c1 + c2);
    }
  }

  /** A row-wise property of the columns outside `changed` carries over from `f` to `g`. */
  lemma DerivesKeeps(g: Frame, f: Frame, changed: set<string>, c: string, ok: Cell -> bool)
    requires Derives(g, f, changed) && c !in changed
    requires forall e | e in f.entries :: ok(Get(e.row, c))
    ensures forall e | e in g.entries :: ok(Get(e.row, c))
  {
    forall e' | e' in g.entries
      ensures ok(Get(e'.row, c))
    {
      var e :| e in f.entries && e.index == e'.index && Agree(e'.row, e.row, changed);
      assert Get(e'.row, c) == Get(e.row, c);
    }
  }

  /** Boolean selection `df[mask]`: the rows whose entry satisfies `keep`, in order. */
  function Where(f: Frame, keep: Entry -> bool): (g: Frame)
    ensures g.columns == f.columns
    ensures forall e | e in g.entries :: e in f.entries && keep(e)
    ensures forall e | e in f.entries && keep(e) :: e in g.entries
    ensures Subsequence(g.entries, f.entries)
    ensures Retains(g, f) && Derives(g, f, {})
    ensures WellFormed(f) ==> WellFormed(g)
  {
    var g := Frame(f.columns, Filter(f.entries, keep));
    SubsequenceMap(g.entries, f.entries, LabelOf);
    forall e' | e' in g.entries
      ensures exists e | e in f.entries :: e.index == e'.index && Agree(e'.row, e.row, {})
    {
      assert Agree(e'.row, e'.row, {});
    }
    g
  }

  /** `df.dropna(subset=[c])`. */
  function DropNA(f: Frame, c: string): (g: Frame)
    ensures g.columns == f.columns
    ensures forall e | e in g.entries :: e in f.entries && Get(e.row, c) != NA
    ensures forall e | e in f.entries && Get(e.row, c) != NA :: e in g.entries
    ensures Retains(g, f) && Derives(g, f, {})
    ensures WellFormed(f) ==> WellFormed(g)
  {
    Where(f, (e: Entry) => Get(e.row, c) != NA)
  }

  /** Dropping the NaN rows of a frame whose first row alone is NaN removes that row. */
  lemma DropNADropsHead(f: Frame, c: string)
    requires |f.entries| >= 1 && Get(f.entries[0].row, c) == NA
    requires forall i | 1 <= i < |f.entries| :: Get(f.entries[i].row, c) != NA
    ensures DropNA(f, c).entries == f.entries[1..]
  {
    var keep := (e: Entry) => Get(e.row, c) != NA;
    forall x | x in f.entries[1..]
      ensures keep(x)
    {
      var i :| 0 <= i < |f.entries[1..]| && f.entries[1..][i] == x;
      assert f.entries[i + 1] == x;
    }
    FilterAll(f.entries[1..], keep);
  }

  function AddColumn(columns: seq<string>, c: string): (r: seq<string>)
    ensures ColumnSet(r) == ColumnSet(columns) + {c}
    ensures c in r && forall x | x in columns :: x in r
    ensures NoDuplicates(columns) ==> NoDuplicates(r)
    ensures c in columns ==> r == columns
  {
    if c in columns then columns else columns + [c]
  }

  /** Column assignment `df[c] = ...`: every row's cell `c` becomes `h` of the row.
      A new column is appended at the end; an existing one keeps its place. */
  function Assign(f: Frame, c: string, h: Row -> Cell): (g: Frame)
    ensures g.columns == AddColumn(f.columns, c)
    ensures |g.entries| == |f.entries|
    ensures forall i | 0 <= i < |f.entries| ::
      g.entries[i] == Entry(f.entries[i].index, f.entries[i].row[c := h(f.entries[i].row)])
    ensures Labels(g) == Labels(f) && Retains(g, f) && Derives(g, f, {c})
    ensures WellFormed(f) ==> WellFormed(g)
  {
    var g := Frame(AddColumn(f.columns, c),
      seq(|f.entries|, i requires 0 <= i < |f.entries| =>
        Entry(f.entries[i].index, f.entries[i].row[c := h(f.entries[i].row)])));
    AssignFacts(f, c, g);
    g
  }

  /** Assignment of a whole column computed from the frame itself (`df[c] = series`,
      aligned on the same index, so row by row). */
  function AssignValues(f: Frame, c: string, vs: seq<Cell>): (g: Frame)
    requires |vs| == |f.entries|
    ensures g.columns == AddColumn(f.columns, c)
    ensures |g.entries| == |f.entries|
    ensures forall i | 0 <= i < |f.entries| ::
      g.entries[i] == Entry(f.entries[i].index, f.entries[i].row[c := vs[i]])
    ensures Labels(g) == Labels(f) && Retains(g, f) && Derives(g, f, {c})
    ensures WellFormed(f) ==> WellFormed(g)
  {
    var g := Frame(AddColumn(f.columns, c),
      seq(|f.entries|, i requires 0 <= i < |f.entries| =>
        Entry(f.entries[i].index, f.entries[i].row[c := vs[i]])));
    AssignFacts(f, c, g);
    g
  }

  /** A frame whose rows are those of `f`, position by position, with the same
      labels and changes only in the columns `changed`, keeps every row of `f`. */
  lemma RowwiseFacts(f: Frame, g: Frame, changed: set<string>)
    requires |g.entries| == |f.entries|
    requires forall i | 0 <= i < |f.entries| ::
      g.entries[i].index == f.entries[i].index && Agree(g.entries[i].row, f.entries[i].row, changed)
    ensures Labels(g) == Labels(f) && Retains(g, f) && Derives(g, f, changed)
  {
    assert Labels(g) == Labels(f);
    SubsequenceRefl(Labels(f));
    forall e' | e' in g.entries
      ensures exists e | e in f.entries :: e.index == e'.index && Agree(e'.row, e.row, changed)
    {
      var i :| 0 <= i < |g.entries| && g.entries[i] == e';
      assert f.entries[i] in f.entries;
    }
  }

  lemma AssignFacts(f: Frame, c: string, g: Frame)
    requires g.columns == AddColumn(f.columns, c) && |g.entries| == |f.entries|
    requires forall i | 0 <= i < |f.entries| ::
      g.entries[i].index == f.entries[i].index && g.entries[i].row.Keys == f.entries[i].row.Keys + {c}
      && Agree(g.entries[i].row, f.entries[i].row, {c})
    ensures Labels(g) == Labels(f) && Retains(g, f) && Derives(g, f, {c})
    ensures WellFormed(f) ==> WellFormed(g)
  {
    RowwiseFacts(f, g, {c});
    if WellFormed(f) {
      forall e' | e' in g.entries
        ensures e'.row.Keys == ColumnSet(g.columns)
      {
        var i :| 0 <= i < |g.entries| && g.entries[i] == e';
        assert f.entries[i] in f.entries;
      }
    }
  }

  /** A column rewritten cell by cell (`df[c] = g(df[c])`). */
  function MapColumn(f: Frame, c: string, g: Cell -> Cell): (r: Frame)
    ensures r.columns == AddColumn(f.columns, c)
    ensures |r.entries| == |f.entries|
    ensures forall i | 0 <= i < |f.entries| ::
      r.entries[i] == Entry(f.entries[i].index, f.entries[i].row[c := g(Get(f.entries[i].row, c))])
    ensures Labels(r) == Labels(f) && Retains(r, f) && Derives(r, f, {c})
    ensures WellFormed(f) ==> WellFormed(r)
  {
    Assign(f, c, row => g(Get(row, c)))
  }

  lemma RowTwice(row: Row, c: string, x: Cell, y: Cell)
    ensures Get(row[c := x], c) == x
    ensures row[c := x][c := y] == row[c := y]
  {
  }

  /** Writing a cell back with its own value changes nothing. */
  lemma RowSame(row: Row, c: string)
    requires c in row
    ensures row[c := Get(row, c)] == row
  {
  }

  /** Writing cells one after the other is overriding with a map of all of them. */
  lemma UpdatesAsUnion(row: Row, a: string, x: Cell, b: string, y: Cell, c: string, z: Cell)
    ensures row[a := x][b := y][c := z] == row + map[a := x, b := y, c := z]
  {
  }

  lemma UpdatesAsUnion4(row: Row, a: string, x: Cell, b: string, y: Cell, c: string, z: Cell, d: string, w: Cell)
    ensures row[a := x][b := y][c := z][d := w] == row + map[a := x, b := y, c := z, d := w]
  {
  }

  /** Setting one column leaves every other column's cell as it was. */
  lemma GetOther(row: Row, c: string, v: Cell, k: string)
    requires k != c
    ensures Get(row[c := v], k) == Get(row, k)
  { }

  /** Overriding with cells for other columns leaves a column's cell as it was. */
  lemma GetOutside(row: Row, m: Row, c: string)
    requires c !in m.Keys
    ensures Get(row + m, c) == Get(row, c)
  {
  }

  /** Overriding twice, the second time on every key of the first, is overriding once. */
  lemma OverrideTwice(row: Row, m1: Row, m2: Row)
    requires m1.Keys <= m2.Keys
    ensures (row + m1) + m2 == row + m2
  {
  }

  /** Rewriting a column twice rewrites it with the composition. */
  lemma MapColumnTwice(f: Frame, c: string, g1: Cell -> Cell, g2: Cell -> Cell)
    ensures var r := MapColumn(MapColumn(f, c, g1), c, g2);
      && r.columns == AddColumn(f.columns, c) && |r.entries| == |f.entries|
      && forall i | 0 <= i < |f.entries| ::
           r.entries[i] == Entry(f.entries[i].index, f.entries[i].row[c := g2(g1(Get(f.entries[i].row, c)))])
  {
    var first := MapColumn(f, c, g1);
    forall i | 0 <= i < |f.entries|
      ensures MapColumn(first, c, g2).entries[i]
        == Entry(f.entries[i].index, f.entries[i].row[c := g2(g1(Get(f.entries[i].row, c)))])
    {
      RowTwice(f.entries[i].row, c, g1(Get(f.entries[i].row, c)), g2(g1(Get(f.entries[i].row, c))));
    }
  }

  /** `df.loc[i, c] = v` on the row at position `i`, for a column that exists. */
  function SetCell(f: Frame, i: nat, c: string, v: Cell): (g: Frame)
    requires i < |f.entries|
    ensures g.columns == f.columns && |g.entries| == |f.entries|
    ensures g.entries[i] == Entry(f.entries[i].index, f.entries[i].row[c := v])
    ensures forall k | 0 <= k < |f.entries| && k != i :: g.entries[k] == f.entries[k]
  {
    Frame(f.columns, f.entries[i := Entry(f.entries[i].index, f.entries[i].row[c := v])])
  }

  /** `df.drop(index=labels)`: removes every row whose label is in `labels`. The
      labels always come from the frame itself (`df[cond].index`); pandas would
      raise a KeyError for a label not in the index, which is not modelled. */
  function DropLabels(f: Frame, labels: set<int>): (g: Frame)
    ensures g.columns == f.columns
    ensures forall e | e in g.entries :: e in f.entries && e.index !in labels
    ensures forall e | e in f.entries && e.index !in labels :: e in g.entries
    ensures Retains(g, f) && Derives(g, f, {})
    ensures WellFormed(f) ==> WellFormed(g)
  {
    Where(f, (e: Entry) => e.index !in labels)
  }

  /** The index labels of the rows satisfying `cond` (`df[cond].index`). */
  function LabelsWhere(f: Frame, cond: Row -> bool): (ls: set<int>)
    ensures forall e | e in f.entries && cond(e.row) :: e.index in ls
  {
    set e | e in f.entries && cond(e.row) :: e.index
  }

  /** `df.drop(df[cond].index)`. Every row satisfying `cond` is gone; when the
      labels are distinct, every other row is kept. */
  function DropWhere(f: Frame, cond: Row -> bool): (g: Frame)
    ensures g.columns == f.columns
    ensures forall e | e in g.entries :: e in f.entries && !cond(e.row)
    ensures DistinctLabels(f) ==> forall e | e in f.entries && !cond(e.row) :: e in g.entries
    ensures Retains(g, f) && Derives(g, f, {})
    ensures WellFormed(f) ==> WellFormed(g)
  {
    var ls := LabelsWhere(f, cond);
    if DistinctLabels(f) then
      forall e | e in f.entries && !cond(e.row)
        ensures e.index !in ls
      {
        forall d | d in f.entries && cond(d.row)
          ensures d.index != e.index
        {
          var i :| 0 <= i < |f.entries| && f.entries[i] == e;
          var j :| 0 <= j < |f.entries| && f.entries[j] == d;
          assert i != j;
        }
      }
      DropLabels(f, ls)
    else
      DropLabels(f, ls)
  }

  /** `pd.to_numeric(cell, errors="coerce")`: text the parser rejects becomes NaN. */
  function ToNumeric(c: Cell, parse: Parser): (r: Cell)
    ensures r.NA? || r.Num?
    ensures c.Num? ==> r == c
    ensures c.NA? ==> r.NA?
    ensures c.Str? ==> (r.Num? <==> parse(c.s).Some?)
    ensures c.Str? && parse(c.s).Some? ==> r == Num(parse(c.s).value)
    ensures c.Bool? ==> r == Num(if c.b then 1.0 else 0.0)
  {
    match c
    case NA => NA
    case Num(_) => c
    case Bool(b) => Num(if b then 1.0 else 0.0)
    case Str(s) => if parse(s).Some? then Num(parse(s).value) else NA
  }

  /** A frame with the single column `c` holding `values`, indexed 0..n-1
      (`pd.DataFrame({c: values})`). */
  function FromColumn(c: string, values: seq<Cell>): (f: Frame)
    ensures f.columns == [c] && |f.entries| == |values|
    ensures RangeIndexed(f) && WellFormed(f)
    ensures Values(f, c) == values
  {
    var f := Frame([c], seq(|values|, i requires 0 <= i < |values| => Entry(i, map[c := values[i]])));
    assert ColumnSet([c]) == {c};
    f
  }
}
