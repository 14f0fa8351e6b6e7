/** The fuzzy best-match search of functions_distance.py: for one query, scan the
    gazetteer names in order, keep a running maximum of the similarity score and
    where it was reached, and replace it only on a strictly greater score. */
module Matching {
  import opened Wrappers
  import opened Frames

  /** `fuzz.ratio` from the fuzzywuzzy library, applied to the two cells (after
      Python's `str()` where the source writes it). Its body is not part of this model. */
  type Scorer = (Cell, Cell) -> int

  /** The library's promise that a ratio lies between 0 and 100. */
  ghost predicate InRange(ratio: Scorer) {
    forall a, b :: 0 <= ratio(a, b) <= 100
  }

  /** The loop's two variables: the index of the best candidate so far (-1 for
      none) and the highest score so far (starting at 0). */
  datatype Best = Best(index: int, score: int)

  /** The state of the scan after it has looked at all of `candidates`. */
  function Scan(query: Cell, candidates: seq<Cell>, ratio: Scorer): (b: Best)
    ensures -1 <= b.index < |candidates|
    decreases |candidates|
  {
    if |candidates| == 0 then Best(-1, 0)
    else
      var n := |candidates| - 1;
      var b := Scan(query, candidates[..n], ratio);
      var r := ratio(query, candidates[n]);
      if r > b.score then Best(n, r) else b
  }

  /** `k` is the first position where the ratio reaches its maximum over all candidates. */
  ghost predicate IsFirstMax(query: Cell, candidates: seq<Cell>, ratio: Scorer, k: int) {
    && 0 <= k < |candidates|
    && (forall j | 0 <= j < |candidates| :: ratio(query, candidates[j]) <= ratio(query, candidates[k]))
    && (forall j | 0 <= j < k :: ratio(query, candidates[j]) < ratio(query, candidates[k]))
  }

  /** The scan finds nothing exactly when no candidate scores above 0; otherwise it
      finds the first candidate with the maximum score, and reports that score. */
  lemma {:induction false} ScanFindsFirstMax(query: Cell, candidates: seq<Cell>, ratio: Scorer)
    ensures var b := Scan(query, candidates, ratio);
      && (b.index == -1 <==> forall j | 0 <= j < |candidates| :: ratio(query, candidates[j]) <= 0)
      && (b.index == -1 ==> b.score == 0)
      && (b.index != -1 ==>
            IsFirstMax(query, candidates, ratio, b.index)
            && b.score == ratio(query, candidates[b.index]) && b.score > 0)
    decreases |candidates|
  {
    if |candidates| > 0 {
      var n := |candidates| - 1;
      var init := candidates[..n];
      ScanFindsFirstMax(query, init, ratio);
      assert forall j | 0 <= j < n :: init[j] == candidates[j];
    }
  }

  /** The inner loop of `__find_gps_coordinates` and `__find_best_match`. */
  method BestCandidate(query: Cell, candidates: seq<Cell>, ratio: Scorer) returns (index: int, score: int)
    ensures Best(index, score) == Scan(query, candidates, ratio)
    ensures index == -1 <==> forall j | 0 <= j < |candidates| :: ratio(query, candidates[j]) <= 0
    ensures index == -1 ==> score == 0
    ensures index != -1 ==> IsFirstMax(query, candidates, ratio, index) && score == ratio(query, candidates[index])
  {
    index, score := -1, 0;
    for j := 0 to |candidates|
      invariant Best(index, score) == Scan(query, candidates[..j], ratio)
    {
      assert candidates[..j + 1][..j] == candidates[..j];
      var r := ratio(query, candidates[j]);
      if r > score {
        score := r;
        index := j;
      }
    }
    assert candidates[..|candidates|] == candidates;
    ScanFindsFirstMax(query, candidates, ratio);
  }

  /** A candidate that repeats an earlier one is never chosen: the earlier copy
      already reached the same score. */
  lemma LaterDuplicateNeverChosen(query: Cell, candidates: seq<Cell>, ratio: Scorer, i: nat, j: nat)
    requires i < j < |candidates| && candidates[i] == candidates[j]
    ensures Scan(query, candidates, ratio).index != j
  {
    ScanFindsFirstMax(query, candidates, ratio);
  }

  /** The best match of `__find_best_match`: None when every candidate scores 0 or
      less, otherwise the candidate the scan stopped at. */
  function BestMatchOf(query: Cell, candidates: seq<Cell>, ratio: Scorer): Option<Cell> {
    var b := Scan(query, candidates, ratio);
    if b.index == -1 then None else Some(candidates[b.index])
  }

  /** `__find_best_match(df1, df2, col1, col2)`: a KeyError when `df1` has no
      column `col1`, or when it has rows and `df2` has no column `col2` (that
      column is first read inside the loop); otherwise one entry per distinct
      value of `df1[col1]`, mapped to its best match among the values of `df2[col2]`. */
  method FindBestMatch(df1: Frame, df2: Frame, col1: string, col2: string, ratio: Scorer)
    returns (best: Result<map<Cell, Option<Cell>>, Error>)
    ensures best.Err? <==> col1 !in df1.columns || (|df1.entries| > 0 && col2 !in df2.columns)
    ensures best.Err? ==> best.error == MissingColumn(if col1 !in df1.columns then col1 else col2)
    ensures best.Ok? ==> best.value.Keys == set i | 0 <= i < |df1.entries| :: Get(df1.entries[i].row, col1)
    ensures best.Ok? ==> forall q | q in best.value :: best.value[q] == BestMatchOf(q, Values(df2, col2), ratio)
  {
    if col1 !in df1.columns {
      return Err(MissingColumn(col1));
    }
    var matches := map[];
    var elements := Values(df1, col1);
    for i := 0 to |elements|
      invariant i > 0 ==> col2 in df2.columns
      invariant matches.Keys == set k | 0 <= k < i :: elements[k]
      invariant forall q | q in matches :: matches[q] == BestMatchOf(q, Values(df2, col2), ratio)
    {
      if col2 !in df2.columns {
        return Err(MissingColumn(col2));
      }
      var candidates := Values(df2, col2);
      var element := elements[i];
      var index, _ := BestCandidate(element, candidates, ratio);
      var bestMatch := if index == -1 then None else Some(candidates[index]);
      matches := matches[element := bestMatch];
    }
    return Ok(matches);
  }

  /** The value `__find_best_match` stores for a query is None exactly when no
      candidate scores above 0, and otherwise the first candidate whose score is
      the maximum. */
  lemma BestMatchIsFirstMax(query: Cell, candidates: seq<Cell>, ratio: Scorer)
    ensures BestMatchOf(query, candidates, ratio).None?
      <==> forall j | 0 <= j < |candidates| :: ratio(query, candidates[j]) <= 0
    ensures BestMatchOf(query, candidates, ratio).Some? ==>
      exists k | IsFirstMax(query, candidates, ratio, k) ::
        BestMatchOf(query, candidates, ratio).value == candidates[k]
  {
    ScanFindsFirstMax(query, candidates, ratio);
  }
}
