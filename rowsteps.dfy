/** A reference reading of the row filters and column rewrites pandas performs:
    each row, on its own, is either dropped or rewritten, and the survivors keep
    their labels and their order. The frame operations of `Frames` are proved to
    be such steps, and steps done one after the other to be one step. */
module RowSteps {
  import opened Wrappers
  import opened Sequences
  import opened Frames

  /** What a step does to one row: drop it (`None`) or replace it. */
  type Step = Row -> Option<Row>

  /** The entries that survive `step`, rewritten, with their labels, in order. */
  function RowsOf(s: seq<Entry>, step: Step): (r: seq<Entry>)
    ensures |r| <= |s|
    decreases |s|
  {
    if |s| == 0 then []
    else if step(s[0].row).None? then RowsOf(s[1..], step)
    else [Entry(s[0].index, step(s[0].row).value)] + RowsOf(s[1..], step)
  }

  /** Two steps one after the other. */
  function Then(first: Step, second: Step, row: Row): Option<Row> {
    match first(row)
    case None => None
    case Some(r) => second(r)
  }

  /** The survivors are exactly the rows the step keeps, each under its own label. */
  lemma {:induction false} RowsOfMembers(s: seq<Entry>, step: Step)
    ensures forall e | e in RowsOf(s, step) :: exists d | d in s :: d.index == e.index && step(d.row) == Some(e.row)
    ensures forall d | d in s && step(d.row).Some? :: Entry(d.index, step(d.row).value) in RowsOf(s, step)
    decreases |s|
  {
    if |s| > 0 {
      RowsOfMembers(s[1..], step);
      assert forall d | d in s[1..] :: d in s;
      assert forall d | d in s :: d == s[0] || d in s[1..];
    }
  }

  /** No row is added and the order of the labels is kept. */
  lemma {:induction false} RowsOfLabels(s: seq<Entry>, step: Step)
    ensures Subsequence(Map(RowsOf(s, step), LabelOf), Map(s, LabelOf))
    decreases |s|
  {
    if |s| == 0 {
      SubsequenceRefl(Map(s, LabelOf));
    } else {
      RowsOfLabels(s[1..], step);
      var rest := Map(RowsOf(s[1..], step), LabelOf);
      var all := Map(s, LabelOf);
      assert all[0] == s[0].index && all[1..] == Map(s[1..], LabelOf);
      match step(s[0].row)
      case None =>
        assert Subsequence(rest, all[1..]);
      case Some(row) =>
        var kept := Map(RowsOf(s, step), LabelOf);
        assert RowsOf(s, step) == [Entry(s[0].index, row)] + RowsOf(s[1..], step);
        assert kept[0] == all[0] && kept[1..] == rest;
    }
  }

  /** A frame whose entries are the survivors of a step keeps the rows of its source. */
  lemma RowsOfRetains(g: Frame, f: Frame, step: Step)
    requires g.entries == RowsOf(f.entries, step)
    ensures Retains(g, f)
  {
    RowsOfLabels(f.entries, step);
  }

  /** Boolean selection is the step that keeps the selected rows as they are. */
  lemma {:induction false} FilterAsRows(s: seq<Entry>, keep: Entry -> bool, step: Step)
    requires forall e | e in s :: step(e.row) == (if keep(e) then Some(e.row) else None)
    ensures Filter(s, keep) == RowsOf(s, step)
    decreases |s|
  {
    if |s| > 0 {
      assert s[0] in s;
      assert forall e | e in s[1..] :: e in s;
      FilterAsRows(s[1..], keep, step);
    }
  }

  /** A row-by-row rewrite is the step that keeps every row. */
  lemma {:induction false} PointwiseAsRows(s: seq<Entry>, t: seq<Entry>, step: Step)
    requires |t| == |s|
    requires forall i | 0 <= i < |s| :: t[i].index == s[i].index && step(s[i].row) == Some(t[i].row)
    ensures t == RowsOf(s, step)
    decreases |s|
  {
    if |s| > 0 {
      PointwiseAsRows(s[1..], t[1..], step);
      assert t == [Entry(s[0].index, t[0].row)] + t[1..];
    }
  }

  /** Two steps one after the other are the step `Then` of both. */
  lemma {:induction false} RowsOfThen(s: seq<Entry>, first: Step, second: Step, both: Step)
    requires forall e | e in s :: both(e.row) == Then(first, second, e.row)
    ensures RowsOf(RowsOf(s, first), second) == RowsOf(s, both)
    decreases |s|
  {
    if |s| > 0 {
      assert s[0] in s;
      assert forall e | e in s[1..] :: e in s;
      RowsOfThen(s[1..], first, second, both);
      var rest := RowsOf(s[1..], first);
      match first(s[0].row)
      case None =>
      case Some(row) =>
        var once := [Entry(s[0].index, row)] + rest;
        assert once[0] == Entry(s[0].index, row) && once[1..] == rest;
    }
  }

  /** `df[mask]` as a step. */
  lemma WhereAsRows(f: Frame, keep: Entry -> bool, step: Step)
    requires forall e | e in f.entries :: step(e.row) == (if keep(e) then Some(e.row) else None)
    ensures Where(f, keep).entries == RowsOf(f.entries, step)
  {
    FilterAsRows(f.entries, keep, step);
  }

  /** `df.dropna(subset=[c])` as a step. */
  lemma DropNAAsRows(f: Frame, c: string, step: Step)
    requires forall e | e in f.entries :: step(e.row) == (if Get(e.row, c) != NA then Some(e.row) else None)
    ensures DropNA(f, c).entries == RowsOf(f.entries, step)
  {
    WhereAsRows(f, (e: Entry) => Get(e.row, c) != NA, step);
  }

  /** `df.drop(df[cond].index)` as a step, when no two rows share a label. */
  lemma DropWhereAsRows(f: Frame, cond: Row -> bool, step: Step)
    requires DistinctLabels(f)
    requires forall e | e in f.entries :: step(e.row) == (if cond(e.row) then None else Some(e.row))
    ensures DropWhere(f, cond).entries == RowsOf(f.entries, step)
  {
    var ls := LabelsWhere(f, cond);
    forall e | e in f.entries
      ensures e.index in ls <==> cond(e.row)
    {
      if e.index in ls {
        var d :| d in f.entries && cond(d.row) && d.index == e.index;
        var i :| 0 <= i < |f.entries| && f.entries[i] == e;
        var j :| 0 <= j < |f.entries| && f.entries[j] == d;
        assert i == j;
      }
    }
    FilterAsRows(f.entries, (e: Entry) => e.index !in ls, step);
  }

  /** Rewriting a column as a step. */
  lemma MapColumnAsRows(f: Frame, c: string, h: Cell -> Cell, step: Step)
    requires forall e | e in f.entries :: step(e.row) == Some(e.row[c := h(Get(e.row, c))])
    ensures MapColumn(f, c, h).entries == RowsOf(f.entries, step)
  {
    var g := MapColumn(f, c, h);
    forall i | 0 <= i < |f.entries|
      ensures g.entries[i].index == f.entries[i].index && step(f.entries[i].row) == Some(g.entries[i].row)
    {
      assert f.entries[i] in f.entries;
    }
    PointwiseAsRows(f.entries, g.entries, step);
  }

  /** Assigning a column computed from each row as a step. */
  lemma AssignAsRows(f: Frame, c: string, h: Row -> Cell, step: Step)
    requires forall e | e in f.entries :: step(e.row) == Some(e.row[c := h(e.row)])
    ensures Assign(f, c, h).entries == RowsOf(f.entries, step)
  {
    var g := Assign(f, c, h);
    forall i | 0 <= i < |f.entries|
      ensures g.entries[i].index == f.entries[i].index && step(f.entries[i].row) == Some(g.entries[i].row)
    {
      assert f.entries[i] in f.entries;
    }
    PointwiseAsRows(f.entries, g.entries, step);
  }

  /** Three and four steps one after the other. */
  function Then3(s1: Step, s2: Step, s3: Step, row: Row): Option<Row> {
    match s1(row)
    case None => None
    case Some(r) => Then(s2, s3, r)
  }

  function Then4(s1: Step, s2: Step, s3: Step, s4: Step, row: Row): Option<Row> {
    match s1(row)
    case None => None
    case Some(r) => Then3(s2, s3, s4, r)
  }

  lemma Chain2(s: seq<Entry>, s1: Step, s2: Step, all: Step)
    requires forall r: Row :: all(r) == Then(s1, s2, r)
    ensures RowsOf(RowsOf(s, s1), s2) == RowsOf(s, all)
  {
    RowsOfThen(s, s1, s2, all);
  }

  /** Two steps that agree on every row treat every frame alike. */
  lemma {:induction false} RowsOfSame(s: seq<Entry>, a: Step, b: Step)
    requires forall r: Row :: a(r) == b(r)
    ensures RowsOf(s, a) == RowsOf(s, b)
    decreases |s|
  {
    if |s| > 0 {
      RowsOfSame(s[1..], a, b);
    }
  }

  lemma Chain3(s: seq<Entry>, s1: Step, s2: Step, s3: Step, all: Step)
    requires forall r: Row :: all(r) == Then3(s1, s2, s3, r)
    ensures RowsOf(RowsOf(RowsOf(s, s1), s2), s3) == RowsOf(s, all)
  {
    var tail := (r: Row) => Then(s2, s3, r);
    RowsOfThen(RowsOf(s, s1), s2, s3, tail);
    RowsOfThen(s, s1, tail, all);
  }

  lemma Chain4(s: seq<Entry>, s1: Step, s2: Step, s3: Step, s4: Step, all: Step)
    requires forall r: Row :: all(r) == Then4(s1, s2, s3, s4, r)
    ensures RowsOf(RowsOf(RowsOf(RowsOf(s, s1), s2), s3), s4) == RowsOf(s, all)
  {
    var tail := (r: Row) => Then3(s2, s3, s4, r);
    Chain3(RowsOf(s, s1), s2, s3, s4, tail);
    RowsOfThen(s, s1, tail, all);
  }

  /** The steps in `steps`, in order, on one row. */
  function Pipeline(steps: seq<Step>, row: Row): Option<Row>
    decreases |steps|
  {
    if |steps| == 0 then Some(row)
    else match steps[0](row)
      case None => None
      case Some(r) => Pipeline(steps[1..], r)
  }

  function PipelineStep(steps: seq<Step>): Step {
    (r: Row) => Pipeline(steps, r)
  }

  lemma {:induction false} PipelineSnoc(steps: seq<Step>, last: Step, row: Row)
    ensures Pipeline(steps + [last], row) == Then(PipelineStep(steps), last, row)
    decreases |steps|
  {
    if |steps| > 0 {
      assert (steps + [last])[1..] == steps[1..] + [last];
      match steps[0](row)
      case None =>
      case Some(r) => PipelineSnoc(steps[1..], last, r);
    }
  }

  /** Running one more step on the survivors of a pipeline is running the longer pipeline. */
  lemma RowsOfPipelineSnoc(s: seq<Entry>, steps: seq<Step>, last: Step)
    ensures RowsOf(RowsOf(s, PipelineStep(steps)), last) == RowsOf(s, PipelineStep(steps + [last]))
  {
    forall e | e in s
      ensures PipelineStep(steps + [last])(e.row) == Then(PipelineStep(steps), last, e.row)
    {
      PipelineSnoc(steps, last, e.row);
    }
    RowsOfThen(s, PipelineStep(steps), last, PipelineStep(steps + [last]));
  }

  /** The empty pipeline keeps every row as it is. */
  lemma {:induction false} RowsOfEmptyPipeline(s: seq<Entry>)
    ensures RowsOf(s, PipelineStep([])) == s
    decreases |s|
  {
    if |s| > 0 {
      RowsOfEmptyPipeline(s[1..]);
    }
  }

  // The steps of the individual frame operations.

  function MapStep(c: string, h: Cell -> Cell): Step {
    (r: Row) => Some(r[c := h(Get(r, c))])
  }

  function AssignStep(c: string, h: Row -> Cell): Step {
    (r: Row) => Some(r[c := h(r)])
  }

  function KeepStep(p: Row -> bool): Step {
    (r: Row) => if p(r) then Some(r) else None
  }

  function NotNA(c: string): Row -> bool {
    (r: Row) => Get(r, c) != NA
  }

  /** `df[cond]` for a condition on the row alone. */
  function Select(f: Frame, p: Row -> bool): (g: Frame)
    ensures g.columns == f.columns
    ensures g.entries == RowsOf(f.entries, KeepStep(p))
    ensures Retains(g, f)
  {
    var g := Where(f, (e: Entry) => p(e.row));
    WhereAsRows(f, (e: Entry) => p(e.row), KeepStep(p));
    g
  }

  lemma MapColumnRows(f: Frame, c: string, h: Cell -> Cell)
    ensures MapColumn(f, c, h).entries == RowsOf(f.entries, MapStep(c, h))
  {
    MapColumnAsRows(f, c, h, MapStep(c, h));
  }

  lemma AssignRows(f: Frame, c: string, h: Row -> Cell)
    ensures Assign(f, c, h).entries == RowsOf(f.entries, AssignStep(c, h))
  {
    AssignAsRows(f, c, h, AssignStep(c, h));
  }

  lemma DropNARows(f: Frame, c: string)
    ensures DropNA(f, c).entries == RowsOf(f.entries, KeepStep(NotNA(c)))
  {
    DropNAAsRows(f, c, KeepStep(NotNA(c)));
  }

  lemma DropWhereRows(f: Frame, cond: Row -> bool, p: Row -> bool)
    requires DistinctLabels(f)
    requires forall r: Row :: p(r) == !cond(r)
    ensures DropWhere(f, cond).entries == RowsOf(f.entries, KeepStep(p))
  {
    DropWhereAsRows(f, cond, KeepStep(p));
  }

  /** Running `first` and then `second` on a row is running their concatenation. */
  lemma {:induction false} PipelineAppend(first: seq<Step>, second: seq<Step>, row: Row)
    ensures Pipeline(first + second, row) == Then(PipelineStep(first), PipelineStep(second), row)
    decreases |first|
  {
    if |first| == 0 {
      assert first + second == second;
    } else {
      assert (first + second)[1..] == first[1..] + second;
      match first[0](row)
      case None =>
      case Some(r) => PipelineAppend(first[1..], second, r);
    }
  }

  lemma RowsOfPipelineAppend(s: seq<Entry>, first: seq<Step>, second: seq<Step>)
    ensures RowsOf(RowsOf(s, PipelineStep(first)), PipelineStep(second)) == RowsOf(s, PipelineStep(first + second))
  {
    forall e | e in s
      ensures PipelineStep(first + second)(e.row) == Then(PipelineStep(first), PipelineStep(second), e.row)
    {
      PipelineAppend(first, second, e.row);
    }
    RowsOfThen(s, PipelineStep(first), PipelineStep(second), PipelineStep(first + second));
  }

  /** Five frame steps one after the other are the pipeline of the five. */
  lemma RowsOfPipeline5(s: seq<Entry>, t1: seq<Entry>, t2: seq<Entry>, t3: seq<Entry>, t4: seq<Entry>, t5: seq<Entry>,
                        a: Step, b: Step, c: Step, d: Step, e: Step)
    requires t1 == RowsOf(s, a) && t2 == RowsOf(t1, b) && t3 == RowsOf(t2, c)
    requires t4 == RowsOf(t3, d) && t5 == RowsOf(t4, e)
    ensures t5 == RowsOf(s, PipelineStep([a, b, c, d, e]))
  {
    RowsOfEmptyPipeline(s);
    RowsOfPipelineSnoc(s, [], a);
    assert [] + [a] == [a];
    RowsOfPipelineSnoc(s, [a], b);
    assert [a] + [b] == [a, b];
    RowsOfPipelineSnoc(s, [a, b], c);
    assert [a, b] + [c] == [a, b, c];
    RowsOfPipelineSnoc(s, [a, b, c], d);
    assert [a, b, c] + [d] == [a, b, c, d];
    RowsOfPipelineSnoc(s, [a, b, c, d], e);
    assert [a, b, c, d] + [e] == [a, b, c, d, e];
  }

  /** A row that comes out of five steps passed through each of them: the rows it
      was in between. */
  lemma Pipeline5Survivor(a: Step, b: Step, c: Step, d: Step, e: Step, row: Row)
    returns (r1: Row, r2: Row, r3: Row, r4: Row)
    requires Pipeline([a, b, c, d, e], row).Some?
    ensures a(row) == Some(r1) && b(r1) == Some(r2) && c(r2) == Some(r3) && d(r3) == Some(r4)
    ensures e(r4) == Pipeline([a, b, c, d, e], row)
  {
    assert [a, b, c, d, e][1..] == [b, c, d, e];
    assert [b, c, d, e][1..] == [c, d, e];
    assert [c, d, e][1..] == [d, e];
    assert [d, e][1..] == [e];
    assert [e][1..] == [];
    r1 := a(row).value;
    assert Pipeline([a, b, c, d, e], row) == Pipeline([b, c, d, e], r1);
    r2 := b(r1).value;
    assert Pipeline([b, c, d, e], r1) == Pipeline([c, d, e], r2);
    r3 := c(r2).value;
    assert Pipeline([c, d, e], r2) == Pipeline([d, e], r3);
    r4 := d(r3).value;
    assert Pipeline([d, e], r3) == Pipeline([e], r4);
  }

  /** Five steps that each keep labels in order keep them together. */
  lemma Retains5(f0: Frame, f1: Frame, f2: Frame, f3: Frame, f4: Frame, f5: Frame)
    requires Retains(f1, f0) && Retains(f2, f1) && Retains(f3, f2) && Retains(f4, f3) && Retains(f5, f4)
    ensures Retains(f5, f0)
  {
    RetainsTrans(f2, f1, f0);
    RetainsTrans(f3, f2, f0);
    RetainsTrans(f4, f3, f0);
    RetainsTrans(f5, f4, f0);
  }
}
