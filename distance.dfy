/** `create_distance_measures` of functions_distance.py and the helpers it calls:
    harmonise the organisation location names, drop names seen only once, look each
    distinct name up in the gazetteer of German cities by fuzzy matching, copy the
    coordinates back onto the job ads, keep the confident matches, split the job
    coordinates and keep only the whitelisted columns. */
module Distance {
  import opened Wrappers
  import opened Sequences
  import opened Frames
  import opened Strings
  import opened Matching

  const OrgName := "organization_location_name"
  const JobCoordinates := "location_coordinates"
  const CityName := "Stadt"
  const Latitude := "Breitengrad"
  const Longitude := "L\U{E4}ngengrad"
  const OrgLatitude := "Latitudal_coordinates_organization"
  const OrgLongitude := "Longitudinal_coordinates_organization"
  const BestMatchName := "best_match_name"
  const MatchRating := "fuzzy_rating"
  const FuzzyRating := "Fuzzy_Rating"
  const JobLatitude := "latitudal_coordinates_job"
  const JobLongitude := "longitudinal_coordinates_job"
  const DistanceColumn := "distance_between_job_and_organization"

  /** A match is trusted from this fuzzy score on. */
  const ConfidenceThreshold := 85

  // ---------------------------------------------------------------------------
  // __harmonize_strings

  /** `Series.str.strip()`: a string loses its surrounding whitespace, anything else becomes NaN. */
  function StripCell(c: Cell): Cell {
    if c.Str? then Str(Strip(c.s)) else NA
  }

  /** `Series.str.lower()`: a string is lower-cased, anything else becomes NaN. */
  function LowerCell(c: Cell): Cell {
    if c.Str? then Str(Lower(c.s)) else NA
  }

  /** `Series.replace(word, replacement)`: only a cell equal to `word` as a whole is replaced. */
  function ReplaceCell(c: Cell, word: string, replacement: string): Cell {
    if c == Str(word) then Str(replacement) else c
  }

  /** The replacement table, in the order the loop visits it. */
  const Umlauts: seq<(string, string)> := [
    ("\U{C4}", "Ae"), ("\U{E4}", "ae"), ("\U{D6}", "Oe"), ("\U{F6}", "oe"),
    ("\U{DC}", "ue"), ("\U{FC}", "ue"), ("\U{DF}", "ss")]

  /** The cell after the replacements of `table`, applied one after the other. */
  function ReplaceAll(c: Cell, table: seq<(string, string)>): Cell
    decreases |table|
  {
    if |table| == 0 then c
    else
      var n := |table| - 1;
      ReplaceCell(ReplaceAll(c, table[..n]), table[n].0, table[n].1)
  }

  /** No word occurs twice in the table and no replacement is itself a word. */
  predicate Unchained(table: seq<(string, string)>) {
    && (forall k, l | 0 <= k < l < |table| :: table[k].0 != table[l].0)
    && (forall k, l | 0 <= k < |table| && 0 <= l < |table| :: table[k].1 != table[l].0)
  }

  /** In an unchained table, a cell equal to a word becomes that word's replacement
      and any other cell is left alone. */
  lemma {:induction false} ReplaceAllFacts(c: Cell, table: seq<(string, string)>)
    requires Unchained(table)
    ensures (forall k | 0 <= k < |table| :: c != Str(table[k].0)) ==> ReplaceAll(c, table) == c
    ensures forall k | 0 <= k < |table| && c == Str(table[k].0) :: ReplaceAll(c, table) == Str(table[k].1)
    decreases |table|
  {
    if |table| > 0 {
      var n := |table| - 1;
      var init := table[..n];
      assert Unchained(init);
      ReplaceAllFacts(c, init);
      forall k | 0 <= k < n && c == Str(table[k].0)
        ensures ReplaceAll(c, table) == Str(table[k].1)
      {
        assert init[k] == table[k];
        assert table[k].1 != table[n].0;
      }
      if forall k | 0 <= k < |table| :: c != Str(table[k].0) {
        assert forall k | 0 <= k < n :: init[k] == table[k];
      }
      if c == Str(table[n].0) {
        assert forall k | 0 <= k < n :: init[k] == table[k] && table[k].0 != table[n].0;
      }
    }
  }

  lemma UmlautShapes()
    ensures forall k | 0 <= k < |Umlauts| :: |Umlauts[k].0| == 1 && |Umlauts[k].1| == 2
  {
  }

  /** Every word of the table is one character and every replacement two, with no
      whitespace; a lower-case word has a lower-case replacement. */
  lemma UmlautTableFacts()
    ensures Unchained(Umlauts)
    ensures forall k | 0 <= k < |Umlauts| ::
      && |Umlauts[k].0| == 1 && |Umlauts[k].1| == 2 && Stripped(Umlauts[k].1)
      && (IsLowerCase(Umlauts[k].0) ==> IsLowerCase(Umlauts[k].1))
  {
    UmlautShapes();
    var words := ['\U{C4}', '\U{E4}', '\U{D6}', '\U{F6}', '\U{DC}', '\U{FC}', '\U{DF}'];
    assert forall k | 0 <= k < |Umlauts| :: Umlauts[k].0 == [words[k]];
    forall k, l | 0 <= k < l < |Umlauts|
      ensures Umlauts[k].0 != Umlauts[l].0
    {
      assert Umlauts[k].0[0] == words[k] && Umlauts[l].0[0] == words[l];
    }
    forall k | 0 <= k < |Umlauts|
      ensures Stripped(Umlauts[k].1)
      ensures IsLowerCase(Umlauts[k].0) ==> IsLowerCase(Umlauts[k].1)
    {
      var (word, replacement) := Umlauts[k];
      if k % 2 == 0 && k < 6 {
        assert LowerChar(word[0]) != word[0];
      } else {
        assert replacement in {"ae", "oe", "ue", "ss"};
      }
    }
  }

  /** `__harmonize_strings` on one cell. */
  function HarmonizeCell(c: Cell): Cell {
    ReplaceAll(LowerCell(StripCell(c)), Umlauts)
  }

  /** A harmonised name: no surrounding whitespace, lower case, and not one of the
      words of the replacement table. */
  predicate Harmonized(s: string) {
    && Stripped(s) && IsLowerCase(s)
    && forall k | 0 <= k < |Umlauts| :: s != Umlauts[k].0
  }

  /** A harmonised name is left as it is. */
  lemma HarmonizedFixed(s: string)
    requires Harmonized(s)
    ensures HarmonizeCell(Str(s)) == Str(s)
  {
    StripStripped(s);
    LowerFacts(s);
    UmlautTableFacts();
    ReplaceAllFacts(Str(s), Umlauts);
  }

  /** A string is harmonised into a harmonised name. */
  lemma HarmonizedResult(s: string)
    ensures HarmonizeCell(Str(s)).Str? && Harmonized(HarmonizeCell(Str(s)).s)
  {
    var l := Lower(Strip(s));
    LowerFacts(Strip(s));
    UmlautTableFacts();
    ReplaceAllFacts(Str(l), Umlauts);
    if k :| 0 <= k < |Umlauts| && l == Umlauts[k].0 {
      assert IsLowerCase(Umlauts[k].0);
      var r := Umlauts[k].1;
      assert HarmonizeCell(Str(s)) == Str(r);
      assert forall m | 0 <= m < |Umlauts| :: r != Umlauts[m].0 by {
        forall m | 0 <= m < |Umlauts|
          ensures r != Umlauts[m].0
        {
          assert |r| != |Umlauts[m].0|;
        }
      }
    } else {
      assert HarmonizeCell(Str(s)) == Str(l);
    }
  }

  /** Harmonising gives NaN exactly for a cell that is not a string, and otherwise a
      harmonised name; harmonised names are exactly the strings it leaves as they
      are, so harmonising twice is harmonising once. */
  lemma HarmonizeCellFacts(c: Cell)
    ensures HarmonizeCell(c).NA? <==> !c.Str?
    ensures HarmonizeCell(c).NA? || (HarmonizeCell(c).Str? && Harmonized(HarmonizeCell(c).s))
    ensures c.Str? && Harmonized(c.s) ==> HarmonizeCell(c) == c
    ensures HarmonizeCell(HarmonizeCell(c)) == HarmonizeCell(c)
  {
    UmlautTableFacts();
    ReplaceAllFacts(LowerCell(StripCell(c)), Umlauts);
    if c.Str? {
      HarmonizedResult(c.s);
      HarmonizedFixed(HarmonizeCell(c).s);
      if Harmonized(c.s) {
        HarmonizedFixed(c.s);
      }
    }
  }

  /** Rewriting a column with `h` and then dropping the rows left with NaN, where `h`
      gives NaN exactly on the cells that are not strings and a cell satisfying
      `ok` on all others. */
  lemma MapThenDropNA(f: Frame, col: string, h: Cell -> Cell, ok: Cell -> bool)
    requires forall c: Cell :: h(c).NA? <==> !c.Str?
    requires forall c: Cell | c.Str? :: ok(h(c))
    ensures var g := DropNA(MapColumn(f, col, h), col);
      && (forall e | e in g.entries :: ok(Get(e.row, col)))
      && (forall e | e in f.entries && Get(e.row, col).Str? ::
            Entry(e.index, e.row[col := h(Get(e.row, col))]) in g.entries)
      && (forall e | e in g.entries :: exists d | d in f.entries ::
            Get(d.row, col).Str? && e == Entry(d.index, d.row[col := h(Get(d.row, col))]))
      && Retains(g, f) && Derives(g, f, {col})
  {
    var mapped := MapColumn(f, col, h);
    var g := DropNA(mapped, col);
    MapDropSurvivors(f, col, h, ok);
    MapDropKeeps(f, col, h);
    RetainsTrans(g, mapped, f);
    DerivesTrans(g, mapped, f, {}, {col});
    assert {} + {col} == {col};
  }

  lemma MapDropSurvivors(f: Frame, col: string, h: Cell -> Cell, ok: Cell -> bool)
    requires forall c: Cell :: h(c).NA? <==> !c.Str?
    requires forall c: Cell | c.Str? :: ok(h(c))
    ensures var g := DropNA(MapColumn(f, col, h), col);
      forall e | e in g.entries :: ok(Get(e.row, col)) && exists d | d in f.entries ::
        Get(d.row, col).Str? && e == Entry(d.index, d.row[col := h(Get(d.row, col))])
  {
    var mapped := MapColumn(f, col, h);
    var g := DropNA(mapped, col);
    forall e | e in g.entries
      ensures ok(Get(e.row, col))
      ensures exists d | d in f.entries :: Get(d.row, col).Str? && e == Entry(d.index, d.row[col := h(Get(d.row, col))])
    {
      var i :| 0 <= i < |mapped.entries| && mapped.entries[i] == e;
      assert f.entries[i] in f.entries;
      RowTwice(f.entries[i].row, col, h(Get(f.entries[i].row, col)), h(Get(f.entries[i].row, col)));
    }
  }

  lemma MapDropKeeps(f: Frame, col: string, h: Cell -> Cell)
    requires forall c: Cell :: h(c).NA? <==> !c.Str?
    ensures var g := DropNA(MapColumn(f, col, h), col);
      forall e | e in f.entries && Get(e.row, col).Str? ::
        Entry(e.index, e.row[col := h(Get(e.row, col))]) in g.entries
  {
    var mapped := MapColumn(f, col, h);
    forall e | e in f.entries && Get(e.row, col).Str?
      ensures Entry(e.index, e.row[col := h(Get(e.row, col))]) in DropNA(mapped, col).entries
    {
      var i :| 0 <= i < |f.entries| && f.entries[i] == e;
      assert mapped.entries[i] in mapped.entries;
      RowTwice(e.row, col, h(Get(e.row, col)), h(Get(e.row, col)));
    }
  }

  /** The frame `__harmonize_strings` returns: the column harmonised cell by cell,
      then every row whose cell became NaN removed. */
  function HarmonizedFrame(f: Frame, col: string): (g: Frame)
    ensures g.columns == AddColumn(f.columns, col)
    ensures forall e | e in g.entries :: Get(e.row, col).Str? && Harmonized(Get(e.row, col).s)
    ensures forall e | e in f.entries && Get(e.row, col).Str? ::
      Entry(e.index, e.row[col := HarmonizeCell(Get(e.row, col))]) in g.entries
    ensures forall e | e in g.entries :: exists d | d in f.entries ::
      Get(d.row, col).Str? && e == Entry(d.index, d.row[col := HarmonizeCell(Get(d.row, col))])
    ensures Retains(g, f) && Derives(g, f, {col})
    ensures WellFormed(f) ==> WellFormed(g)
  {
    var ok := (c: Cell) => c.Str? && Harmonized(c.s);
    forall c
      ensures HarmonizeCell(c).NA? <==> !c.Str?
      ensures c.Str? ==> ok(HarmonizeCell(c))
    {
      HarmonizeCellFacts(c);
    }
    MapThenDropNA(f, col, HarmonizeCell, ok);
    DropNA(MapColumn(f, col, HarmonizeCell), col)
  }

  /** Rewriting a column with a function that fixes each of its cells leaves the rows as they are. */
  lemma MapColumnFixed(g: Frame, col: string, h: Cell -> Cell)
    requires forall e | e in g.entries :: col in e.row && h(Get(e.row, col)) == Get(e.row, col)
    ensures MapColumn(g, col, h).entries == g.entries
  {
    var mapped := MapColumn(g, col, h);
    forall i | 0 <= i < |g.entries|
      ensures mapped.entries[i] == g.entries[i]
    {
      assert g.entries[i] in g.entries;
      RowSame(g.entries[i].row, col);
    }
  }

  /** Rewriting a column with a function that fixes each of its cells, none of them
      NaN, and dropping the NaN rows gives the frame back. */
  lemma MapDropFixed(g: Frame, col: string, h: Cell -> Cell)
    requires col in g.columns
    requires forall e | e in g.entries :: Get(e.row, col) != NA && h(Get(e.row, col)) == Get(e.row, col)
    ensures DropNA(MapColumn(g, col, h), col) == g
  {
    MapColumnFixed(g, col, h);
    assert ColumnSet(g.columns) == ColumnSet(g.columns) + {col};
    FilterAll(g.entries, (e: Entry) => Get(e.row, col) != NA);
  }

  /** Harmonising a column twice gives the same frame as harmonising it once. */
  lemma HarmonizeIdempotent(f: Frame, col: string)
    ensures HarmonizedFrame(HarmonizedFrame(f, col), col) == HarmonizedFrame(f, col)
  {
    var g := HarmonizedFrame(f, col);
    assert col in ColumnSet(g.columns);
    forall e | e in g.entries
      ensures HarmonizeCell(Get(e.row, col)) == Get(e.row, col)
    {
      HarmonizedFixed(Get(e.row, col).s);
    }
    MapDropFixed(g, col, HarmonizeCell);
  }

  /** One more step of the replacement loop. */
  lemma ReplaceAllStep(c: Cell, k: nat)
    requires k < |Umlauts|
    ensures ReplaceAll(c, Umlauts[..k + 1]) == ReplaceCell(ReplaceAll(c, Umlauts[..k]), Umlauts[k].0, Umlauts[k].1)
  {
    assert Umlauts[..k + 1][..k] == Umlauts[..k];
  }

  /** `df[col] = df[col].replace(word, replacement)`. */
  function ReplaceColumn(f: Frame, col: string, word: string, replacement: string): (g: Frame)
    ensures g.columns == AddColumn(f.columns, col) && |g.entries| == |f.entries|
    ensures forall i | 0 <= i < |f.entries| ::
      g.entries[i] == Entry(f.entries[i].index, f.entries[i].row[col := ReplaceCell(Get(f.entries[i].row, col), word, replacement)])
  {
    MapColumn(f, col, (c: Cell) => ReplaceCell(c, word, replacement))
  }

  /** The state of `__harmonize_strings` after `k` rounds of the replacement loop
      over `table`: every cell of `col` stripped, lower-cased and run through the
      first `k` pairs. */
  ghost predicate ReplacedUpTo(df: Frame, f: Frame, col: string, table: seq<(string, string)>, k: nat)
    requires k <= |table|
  {
    && df.columns == AddColumn(f.columns, col) && |df.entries| == |f.entries|
    && forall i | 0 <= i < |f.entries| ::
         df.entries[i] == Entry(f.entries[i].index,
           f.entries[i].row[col := ReplaceAll(LowerCell(StripCell(Get(f.entries[i].row, col))), table[..k])])
  }

  lemma ReplacedStart(f: Frame, col: string, df: Frame, table: seq<(string, string)>)
    requires df.columns == AddColumn(f.columns, col) && |df.entries| == |f.entries|
    requires forall i | 0 <= i < |f.entries| ::
      df.entries[i] == Entry(f.entries[i].index, f.entries[i].row[col := LowerCell(StripCell(Get(f.entries[i].row, col)))])
    ensures ReplacedUpTo(df, f, col, table, 0)
  {
    assert table[..0] == [];
  }

  lemma ReplacedNext(f: Frame, col: string, df: Frame, table: seq<(string, string)>, k: nat)
    requires k < |table| && ReplacedUpTo(df, f, col, table, k)
    ensures ReplacedUpTo(ReplaceColumn(df, col, table[k].0, table[k].1), f, col, table, k + 1)
  {
    var next := ReplaceColumn(df, col, table[k].0, table[k].1);
    assert table[..k + 1][..k] == table[..k];
    forall i | 0 <= i < |f.entries|
      ensures next.entries[i] == Entry(f.entries[i].index,
        f.entries[i].row[col := ReplaceAll(LowerCell(StripCell(Get(f.entries[i].row, col))), table[..k + 1])])
    {
      var row := f.entries[i].row;
      var before := ReplaceAll(LowerCell(StripCell(Get(row, col))), table[..k]);
      var after := ReplaceCell(before, table[k].0, table[k].1);
      RowTwice(row, col, before, after);
    }
  }

  lemma ReplacedAll(f: Frame, col: string, df: Frame)
    requires ReplacedUpTo(df, f, col, Umlauts, |Umlauts|)
    ensures DropNA(df, col) == HarmonizedFrame(f, col)
  {
    assert Umlauts[..|Umlauts|] == Umlauts;
    assert df.entries == MapColumn(f, col, HarmonizeCell).entries;
  }

  /** `__harmonize_strings(df, col)`: strip, lower-case, replace the umlaut words one
      after the other, then drop the rows left without a string. */
  method HarmonizeStrings(f: Frame, col: string) returns (g: Frame)
    requires col in f.columns
    ensures g == HarmonizedFrame(f, col)
  {
    var df := MapColumn(f, col, StripCell);
    df := MapColumn(df, col, LowerCell);
    MapColumnTwice(f, col, StripCell, LowerCell);
    ReplacedStart(f, col, df, Umlauts);
    for k := 0 to |Umlauts|
      invariant ReplacedUpTo(df, f, col, Umlauts, k)
    {
      var (word, replacement) := Umlauts[k];
      ReplacedNext(f, col, df, Umlauts, k);
      df := ReplaceColumn(df, col, word, replacement);
    }
    ReplacedAll(f, col, df);
    g := DropNA(df, col);
  }

  // ---------------------------------------------------------------------------
  // __delete_rows_with_unique_values

  /** How often `v` occurs in the column `col`. */
  function Count(f: Frame, col: string, v: Cell): nat {
    multiset(Values(f, col))[v]
  }

  /** `__delete_rows_with_unique_values(df, col)`: a KeyError when the column is
      absent; otherwise keeps, in order, exactly the rows whose value in `col` is
      not NaN and occurs at least twice in the column. */
  function DeleteRowsWithUniqueValues(f: Frame, col: string): (r: Result<Frame, Error>)
    ensures r.Err? <==> col !in f.columns
    ensures r.Err? ==> r.error == MissingColumn(col)
    ensures r.Ok? ==> r.value.columns == f.columns
    ensures r.Ok? ==> forall e | e in r.value.entries ::
      e in f.entries && Get(e.row, col) != NA && Count(f, col, Get(e.row, col)) >= 2
    ensures r.Ok? ==> forall e | e in f.entries && Get(e.row, col) != NA && Count(f, col, Get(e.row, col)) >= 2 ::
      e in r.value.entries
    ensures r.Ok? ==> Subsequence(r.value.entries, f.entries) && Retains(r.value, f) && Derives(r.value, f, {})
    ensures r.Ok? && WellFormed(f) ==> WellFormed(r.value)
  {
    if col !in f.columns then Err(MissingColumn(col))
    else
      var counts := multiset(Values(f, col));
      // the index of value_counts() (which leaves NaN out) where the count is not 1
      var repeated := set v | v in counts && v != NA && counts[v] != 1;
      Ok(Where(f, (e: Entry) => Get(e.row, col) in repeated))
  }

  /** Two rows sharing a value both survive; a row whose value occurs once does not. */
  lemma DeleteRowsBoundary(f: Frame, col: string, i: nat, j: nat)
    requires i < |f.entries| && j < |f.entries|
    ensures var r := DeleteRowsWithUniqueValues(f, col);
      r.Ok? && i != j && Get(f.entries[i].row, col) == Get(f.entries[j].row, col) != NA ==>
        f.entries[i] in r.value.entries && f.entries[j] in r.value.entries
    ensures var r := DeleteRowsWithUniqueValues(f, col);
      r.Ok? && Count(f, col, Get(f.entries[i].row, col)) == 1 ==> f.entries[i] !in r.value.entries
  {
    var vs := Values(f, col);
    assert f.entries[i] in f.entries && f.entries[j] in f.entries;
    if i != j && vs[i] == vs[j] {
      if i < j {
        TwoOccurrences(vs, i, j);
      } else {
        TwoOccurrences(vs, j, i);
      }
    }
  }

  // ---------------------------------------------------------------------------
  // __find_gps_coordinates

  /** The four cells `__find_gps_coordinates` presets on every row. */
  function Unmatched(): Row {
    map[OrgLatitude := Num(-1.0), OrgLongitude := Num(-1.0),
        BestMatchName := Str("Nothing"), MatchRating := Num(0.0)]
  }

  /** The four cells taken from a gazetteer row matched with `score`. */
  function Matched(gpsRow: Row, colGps: string, score: int): Row {
    map[OrgLatitude := Get(gpsRow, Latitude), OrgLongitude := Get(gpsRow, Longitude),
        BestMatchName := Get(gpsRow, colGps), MatchRating := Num(score as real)]
  }

  /** The four cells a query ends up with: the preset ones when the scan finds
      nothing, otherwise those of the gazetteer row at the position it stopped at. */
  function MatchFields(query: Cell, gps: Frame, colGps: string, ratio: Scorer): (m: Row)
    ensures m.Keys == Unmatched().Keys
  {
    var b := Scan(query, Values(gps, colGps), ratio);
    if b.index == -1 then Unmatched() else Matched(gps.entries[b.index].row, colGps, b.score)
  }

  /** A query keeps the preset cells exactly when no gazetteer name scores above 0
      (an empty gazetteer included); otherwise it receives the coordinates and name
      of the first gazetteer row with the maximum score, and that score. When the
      scorer keeps its range, a matched score lies in 1..100, so the rating, the
      preset 0 included, lies in 0..100. */
  lemma MatchFieldsSpec(query: Cell, gps: Frame, colGps: string, ratio: Scorer)
    ensures var names := Values(gps, colGps);
      (MatchFields(query, gps, colGps, ratio) == Unmatched() <==>
         forall j | 0 <= j < |names| :: ratio(query, names[j]) <= 0)
    ensures var names := Values(gps, colGps);
      (exists j | 0 <= j < |names| :: ratio(query, names[j]) > 0) ==>
        exists k | IsFirstMax(query, names, ratio, k) ::
          && ratio(query, names[k]) > 0
          && MatchFields(query, gps, colGps, ratio) == Matched(gps.entries[k].row, colGps, ratio(query, names[k]))
    ensures InRange(ratio) ==>
      var rating := MatchFields(query, gps, colGps, ratio)[MatchRating];
      rating.Num? && 0.0 <= rating.x <= 100.0
    ensures var names := Values(gps, colGps);
      InRange(ratio) && (exists j | 0 <= j < |names| :: ratio(query, names[j]) > 0) ==>
        var rating := MatchFields(query, gps, colGps, ratio)[MatchRating];
        rating.Num? && 1.0 <= rating.x <= 100.0
  {
    var names := Values(gps, colGps);
    ScanFindsFirstMax(query, names, ratio);
    var b := Scan(query, names, ratio);
    if b.index != -1 {
      assert Matched(gps.entries[b.index].row, colGps, b.score)[MatchRating] != Unmatched()[MatchRating];
    }
  }

  /** The columns after the four presets. */
  function GpsColumns(columns: seq<string>): seq<string> {
    AddColumn(AddColumn(AddColumn(AddColumn(columns, OrgLatitude), OrgLongitude), BestMatchName), MatchRating)
  }

  /** `df[c] = v`: the column `c` holds `v` on every row. */
  function PresetColumn(f: Frame, c: string, v: Cell): (g: Frame)
    ensures g.columns == AddColumn(f.columns, c) && |g.entries| == |f.entries|
    ensures forall i | 0 <= i < |f.entries| :: g.entries[i] == Entry(f.entries[i].index, f.entries[i].row[c := v])
  {
    Assign(f, c, _ => v)
  }

  /** After the four presets every row carries the cells of `Unmatched`. */
  lemma GpsPresets(df: Frame)
    ensures var out := PresetColumn(PresetColumn(PresetColumn(PresetColumn(df,
        OrgLatitude, Num(-1.0)), OrgLongitude, Num(-1.0)), BestMatchName, Str("Nothing")), MatchRating, Num(0.0));
      && out.columns == GpsColumns(df.columns) && |out.entries| == |df.entries|
      && forall i | 0 <= i < |df.entries| ::
           out.entries[i] == Entry(df.entries[i].index, df.entries[i].row + Unmatched())
  {
    forall i | 0 <= i < |df.entries|
      ensures df.entries[i].row[OrgLatitude := Num(-1.0)][OrgLongitude := Num(-1.0)]
          [BestMatchName := Str("Nothing")][MatchRating := Num(0.0)]
        == df.entries[i].row + Unmatched()
    {
      UpdatesAsUnion4(df.entries[i].row, OrgLatitude, Num(-1.0), OrgLongitude, Num(-1.0),
        BestMatchName, Str("Nothing"), MatchRating, Num(0.0));
    }
  }

  /** Lines 112-115: the four columns preset to -1, -1, "Nothing" and 0 on every row. */
  function PresetMatches(df: Frame): (out: Frame)
    ensures out.columns == GpsColumns(df.columns) && |out.entries| == |df.entries|
    ensures forall i | 0 <= i < |df.entries| ::
      out.entries[i] == Entry(df.entries[i].index, df.entries[i].row + Unmatched())
  {
    GpsPresets(df);
    var out := PresetColumn(df, OrgLatitude, Num(-1.0));
    var out := PresetColumn(out, OrgLongitude, Num(-1.0));
    var out := PresetColumn(out, BestMatchName, Str("Nothing"));
    PresetColumn(out, MatchRating, Num(0.0))
  }

  /** The four `df.loc[i, ...] = ...` writes of a match on the row at position `i`. */
  function WriteMatch(out: Frame, i: nat, hit: Row, colGps: string, score: int): (o: Frame)
    requires i < |out.entries|
    ensures o.columns == out.columns && |o.entries| == |out.entries|
    ensures o.entries[i] == Entry(out.entries[i].index, out.entries[i].row + Matched(hit, colGps, score))
    ensures forall k | 0 <= k < |out.entries| && k != i :: o.entries[k] == out.entries[k]
  {
    UpdatesAsUnion4(out.entries[i].row, OrgLatitude, Get(hit, Latitude), OrgLongitude, Get(hit, Longitude),
      BestMatchName, Get(hit, colGps), MatchRating, Num(score as real));
    var o := SetCell(out, i, OrgLatitude, Get(hit, Latitude));
    var o := SetCell(o, i, OrgLongitude, Get(hit, Longitude));
    var o := SetCell(o, i, BestMatchName, Get(hit, colGps));
    SetCell(o, i, MatchRating, Num(score as real))
  }

  /** The state of `__find_gps_coordinates` when the outer loop reaches query `i`:
      the rows before it carry their match, the others still their presets. */
  ghost predicate GpsLoop(out: Frame, df: Frame, queries: seq<Cell>, gps: Frame, colGps: string, ratio: Scorer, i: nat)
    requires |queries| == |df.entries| && i <= |df.entries|
  {
    && out.columns == GpsColumns(df.columns) && |out.entries| == |df.entries|
    && (forall k | 0 <= k < i ::
          out.entries[k] == Entry(k, df.entries[k].row + MatchFields(queries[k], gps, colGps, ratio)))
    && (forall k | i <= k < |df.entries| :: out.entries[k] == Entry(k, df.entries[k].row + Unmatched()))
  }

  lemma GpsLoopStep(before: Frame, after: Frame, df: Frame, queries: seq<Cell>, gps: Frame, colGps: string, ratio: Scorer, i: nat)
    requires |queries| == |df.entries| && i < |df.entries|
    requires GpsLoop(before, df, queries, gps, colGps, ratio, i)
    requires after.columns == before.columns && |after.entries| == |before.entries|
    requires after.entries[i] == Entry(i, df.entries[i].row + MatchFields(queries[i], gps, colGps, ratio))
    requires forall k | 0 <= k < |before.entries| && k != i :: after.entries[k] == before.entries[k]
    ensures GpsLoop(after, df, queries, gps, colGps, ratio, i + 1)
  {
  }

  /** The name the query at position `i` searches for: its cell in `colDf` once
      the four presets are in place. */
  function Query(df: Frame, colDf: string, i: nat): Cell
    requires i < |df.entries|
  {
    Get(df.entries[i].row + Unmatched(), colDf)
  }

  /** Some query scores above 0 against some gazetteer name, so that the
      coordinate columns of the gazetteer are read. */
  predicate AnyMatch(df: Frame, gps: Frame, colDf: string, colGps: string, ratio: Scorer) {
    exists i | 0 <= i < |df.entries| :: Scan(Query(df, colDf, i), Values(gps, colGps), ratio).index != -1
  }

  /** The KeyError `__find_gps_coordinates` stops with, if any: the query column is
      read after the presets, the gazetteer column once there is a query, and the
      two coordinate columns once a query matches. */
  function GpsError(df: Frame, gps: Frame, colDf: string, colGps: string, ratio: Scorer): Option<Error> {
    if colDf !in GpsColumns(df.columns) then Some(MissingColumn(colDf))
    else if |df.entries| > 0 && colGps !in gps.columns then Some(MissingColumn(colGps))
    else if AnyMatch(df, gps, colDf, colGps, ratio) && Latitude !in gps.columns then Some(MissingColumn(Latitude))
    else if AnyMatch(df, gps, colDf, colGps, ratio) && Longitude !in gps.columns then Some(MissingColumn(Longitude))
    else None
  }

  /** The frame `__find_gps_coordinates` returns when it does not fail: every row
      with the four cells of its own query. */
  function GpsTable(df: Frame, gps: Frame, colDf: string, colGps: string, ratio: Scorer): Frame {
    Frame(GpsColumns(df.columns), seq(|df.entries|, i requires 0 <= i < |df.entries| =>
      Entry(i, df.entries[i].row + MatchFields(Query(df, colDf, i), gps, colGps, ratio))))
  }

  /** With the query column present, the gazetteer column present once there is a
      query, and both coordinate columns present whenever a query matches, the
      search does not fail. */
  lemma GpsNoError(df: Frame, gps: Frame, colDf: string, colGps: string, ratio: Scorer, queries: seq<Cell>)
    requires colDf in GpsColumns(df.columns)
    requires |queries| == |df.entries| && forall k | 0 <= k < |queries| :: queries[k] == Query(df, colDf, k)
    requires |df.entries| > 0 ==> colGps in gps.columns
    requires forall k | 0 <= k < |queries| && Scan(queries[k], Values(gps, colGps), ratio).index != -1 ::
      Latitude in gps.columns && Longitude in gps.columns
    ensures GpsError(df, gps, colDf, colGps, ratio).None?
  {
    if AnyMatch(df, gps, colDf, colGps, ratio) {
      var i :| 0 <= i < |df.entries| && Scan(Query(df, colDf, i), Values(gps, colGps), ratio).index != -1;
      assert queries[i] == Query(df, colDf, i);
    }
  }

  /** A matching query makes a missing coordinate column the error. */
  lemma GpsMatchError(df: Frame, gps: Frame, colDf: string, colGps: string, ratio: Scorer, i: nat)
    requires colDf in GpsColumns(df.columns) && colGps in gps.columns && i < |df.entries|
    requires Scan(Query(df, colDf, i), Values(gps, colGps), ratio).index != -1
    ensures Latitude !in gps.columns ==> GpsError(df, gps, colDf, colGps, ratio) == Some(MissingColumn(Latitude))
    ensures Latitude in gps.columns && Longitude !in gps.columns ==>
      GpsError(df, gps, colDf, colGps, ratio) == Some(MissingColumn(Longitude))
  {
    assert AnyMatch(df, gps, colDf, colGps, ratio);
  }

  /** When the loop has visited every query, the frame is the table of matches. */
  lemma GpsLoopDone(out: Frame, df: Frame, queries: seq<Cell>, gps: Frame, colDf: string, colGps: string, ratio: Scorer)
    requires |queries| == |df.entries| && forall k | 0 <= k < |queries| :: queries[k] == Query(df, colDf, k)
    requires GpsLoop(out, df, queries, gps, colGps, ratio, |df.entries|)
    ensures out == GpsTable(df, gps, colDf, colGps, ratio)
  {
  }

  /** The writes of the outer loop of `__find_gps_coordinates` for the query at
      position `i`, once the scan has stopped at `index` with `score`: the four
      cells of the match when a name scored above 0, nothing otherwise. */
  method MatchQuery(out: Frame, i: nat, row: Row, query: Cell, index: int, score: int,
                    gps: Frame, colGps: string, ratio: Scorer)
    returns (o: Frame)
    requires i < |out.entries| && out.entries[i].row == row + Unmatched()
    requires Best(index, score) == Scan(query, Values(gps, colGps), ratio)
    ensures o.columns == out.columns && |o.entries| == |out.entries|
    ensures o.entries[i] == Entry(out.entries[i].index, row + MatchFields(query, gps, colGps, ratio))
    ensures forall k | 0 <= k < |out.entries| && k != i :: o.entries[k] == out.entries[k]
  {
    o := out;
    if index != -1 {
      var hit := gps.entries[index].row;
      OverrideTwice(row, Unmatched(), Matched(hit, colGps, score));
      o := WriteMatch(out, i, hit, colGps, score);
    }
  }

  /** `__find_gps_coordinates(df, gps_df, col_df, col_gps)` on a frame indexed
      0..n-1: a KeyError exactly as `GpsError` says, otherwise every row gets the
      four cells of its own query and nothing else changes. The gazetteer row is
      taken by position (see `MatchFieldsAsWritten` for the lookup by label the
      source performs). */
  method FindGpsCoordinates(df: Frame, gps: Frame, colDf: string, colGps: string, ratio: Scorer)
    returns (r: Result<Frame, Error>)
    requires RangeIndexed(df)
    ensures r.Err? <==> GpsError(df, gps, colDf, colGps, ratio).Some?
    ensures r.Err? ==> r.error == GpsError(df, gps, colDf, colGps, ratio).value
    ensures r.Ok? ==> r.value == GpsTable(df, gps, colDf, colGps, ratio)
    ensures r.Ok? ==> r.value.columns == GpsColumns(df.columns) && |r.value.entries| == |df.entries|
    ensures r.Ok? ==> forall i | 0 <= i < |df.entries| ::
      r.value.entries[i] == Entry(i, df.entries[i].row + MatchFields(Query(df, colDf, i), gps, colGps, ratio))
  {
    var out := PresetMatches(df);
    if colDf !in out.columns {
      return Err(MissingColumn(colDf));
    }
    var queries := Values(out, colDf);
    assert forall k | 0 <= k < |queries| :: queries[k] == Query(df, colDf, k);
    for i := 0 to |queries|
      invariant GpsLoop(out, df, queries, gps, colGps, ratio, i)
      invariant i > 0 ==> colGps in gps.columns
      invariant forall k | 0 <= k < i && Scan(queries[k], Values(gps, colGps), ratio).index != -1 ::
        Latitude in gps.columns && Longitude in gps.columns
    {
      if colGps !in gps.columns {
        return Err(MissingColumn(colGps));
      }
      var index, score := BestCandidate(queries[i], Values(gps, colGps), ratio);
      if index != -1 {
        GpsMatchError(df, gps, colDf, colGps, ratio, i);
        if Latitude !in gps.columns {
          return Err(MissingColumn(Latitude));
        }
        if Longitude !in gps.columns {
          return Err(MissingColumn(Longitude));
        }
      }
      ghost var before := out;
      out := MatchQuery(out, i, df.entries[i].row, queries[i], index, score, gps, colGps, ratio);
      GpsLoopStep(before, out, df, queries, gps, colGps, ratio, i);
    }
    GpsNoError(df, gps, colDf, colGps, ratio, queries);
    GpsLoopDone(out, df, queries, gps, colDf, colGps, ratio);
    return Ok(out);
  }

  /** The first position whose entry carries the label `j` (`.loc[j]`), if any. */
  function PositionOfLabel(entries: seq<Entry>, j: int): (k: Option<nat>)
    ensures k.None? <==> forall m | 0 <= m < |entries| :: entries[m].index != j
    ensures k.Some? ==>
      && k.value < |entries| && entries[k.value].index == j
      && forall m | 0 <= m < k.value :: entries[m].index != j
    decreases |entries|
  {
    if |entries| == 0 then None
    else if entries[0].index == j then Some(0)
    else match PositionOfLabel(entries[1..], j)
      case None => None
      case Some(k) => Some(k + 1)
  }

  /** The four cells as the source computes them: the scan yields a POSITION in the
      gazetteer column, which `gps_df.loc[...]` then uses as an index LABEL; a label
      that does not exist raises a KeyError. */
  function MatchFieldsAsWritten(query: Cell, gps: Frame, colGps: string, ratio: Scorer): Result<Row, Error> {
    var b := Scan(query, Values(gps, colGps), ratio);
    if b.index == -1 then Ok(Unmatched())
    else match PositionOfLabel(gps.entries, b.index)
      case None => Err(MissingLabel(b.index))
      case Some(k) => Ok(Matched(gps.entries[k].row, colGps, b.score))
  }

  /** On a gazetteer still indexed 0..n-1, looking up by label and by position agree. */
  lemma AsWrittenAgreesOnRangeIndex(query: Cell, gps: Frame, colGps: string, ratio: Scorer)
    requires RangeIndexed(gps)
    ensures MatchFieldsAsWritten(query, gps, colGps, ratio) == Ok(MatchFields(query, gps, colGps, ratio))
  {
    var b := Scan(query, Values(gps, colGps), ratio);
    if b.index != -1 {
      assert gps.entries[b.index].index == b.index;
    }
  }

  /** A gazetteer whose first row has no city name. */
  function SampleGazetteer(): Frame {
    Frame([CityName, Latitude, Longitude], [
      Entry(0, map[CityName := NA, Latitude := Num(54.0), Longitude := Num(9.0)]),
      Entry(1, map[CityName := Str("berlin"), Latitude := Num(52.5), Longitude := Num(13.4)]),
      Entry(2, map[CityName := Str("bonn"), Latitude := Num(50.7), Longitude := Num(7.1)])])
  }

  /** A scorer that gives 100 to equal names and 0 otherwise. */
  function ExactScorer(a: Cell, b: Cell): int {
    if a == b then 100 else 0
  }

  /** Rewriting a column with a function that keeps NaN and fixes every other row's
      cell, then dropping the NaN rows, removes exactly a first row without a value. */
  lemma {:induction false} MapDropUnnamedHead(f: Frame, col: string, h: Cell -> Cell)
    requires |f.entries| >= 1 && Get(f.entries[0].row, col) == NA && h(NA) == NA
    requires forall i | 1 <= i < |f.entries| ::
      col in f.entries[i].row && Get(f.entries[i].row, col) != NA
      && h(Get(f.entries[i].row, col)) == Get(f.entries[i].row, col)
    ensures DropNA(MapColumn(f, col, h), col).entries == f.entries[1..]
  {
    var mapped := MapColumn(f, col, h);
    MapFixesTail(f, col, h);
    forall i | 1 <= i < |mapped.entries|
      ensures Get(mapped.entries[i].row, col) != NA
    {
      assert mapped.entries[i] == mapped.entries[1..][i - 1];
    }
    DropNADropsHead(mapped, col);
  }

  lemma MapFixesTail(f: Frame, col: string, h: Cell -> Cell)
    requires |f.entries| >= 1 && Get(f.entries[0].row, col) == NA && h(NA) == NA
    requires forall i | 1 <= i < |f.entries| ::
      col in f.entries[i].row && h(Get(f.entries[i].row, col)) == Get(f.entries[i].row, col)
    ensures Get(MapColumn(f, col, h).entries[0].row, col) == NA
    ensures MapColumn(f, col, h).entries[1..] == f.entries[1..]
  {
    var mapped := MapColumn(f, col, h);
    forall i | 1 <= i < |f.entries|
      ensures mapped.entries[i] == f.entries[i]
    {
      RowSame(f.entries[i].row, col);
    }
  }

  /** Harmonising a column whose first row has no name and whose other rows already
      hold harmonised names drops the first row and keeps the others, labels included. */
  lemma HarmonizeDropsUnnamedHead(f: Frame, col: string)
    requires |f.entries| >= 1 && Get(f.entries[0].row, col) == NA
    requires forall i | 1 <= i < |f.entries| ::
      col in f.entries[i].row && Get(f.entries[i].row, col).Str? && Harmonized(Get(f.entries[i].row, col).s)
    ensures HarmonizedFrame(f, col).entries == f.entries[1..]
  {
    HarmonizeCellFacts(NA);
    forall i | 1 <= i < |f.entries|
      ensures HarmonizeCell(Get(f.entries[i].row, col)) == Get(f.entries[i].row, col)
    {
      HarmonizedFixed(Get(f.entries[i].row, col).s);
    }
    MapDropUnnamedHead(f, col, HarmonizeCell);
  }

  lemma SampleNameHarmonized(s: string)
    requires 1 < |s| && s[0] != ' ' && s[|s| - 1] != ' '
    requires forall i | 0 <= i < |s| :: 'a' <= s[i] <= 'z'
    ensures Harmonized(s)
  {
    UmlautShapes();
  }

  /** Harmonising the sample gazetteer drops its first row and leaves the other two
      as they are, still labelled 1 and 2. */
  lemma SampleHarmonized()
    ensures HarmonizedFrame(SampleGazetteer(), CityName).entries == SampleGazetteer().entries[1..]
  {
    SampleNameHarmonized("berlin");
    SampleNameHarmonized("bonn");
    HarmonizeDropsUnnamedHead(SampleGazetteer(), CityName);
  }

  /** On the two named rows of the sample, labelled 1 and 2 at positions 0 and 1,
      the exact scorer finds "berlin" at position 0 and "bonn" at position 1. */
  lemma SampleScans(gps: Frame)
    requires gps.entries == SampleGazetteer().entries[1..]
    ensures Scan(Str("berlin"), Values(gps, CityName), ExactScorer) == Best(0, 100)
    ensures Scan(Str("bonn"), Values(gps, CityName), ExactScorer) == Best(1, 100)
    ensures gps.entries[0].index == 1 && gps.entries[1].index == 2
  {
    var names := Values(gps, CityName);
    assert names == [Str("berlin"), Str("bonn")];
    assert names[..1] == [Str("berlin")];
    assert names[..1][..0] == [];
    assert ExactScorer(Str("berlin"), Str("berlin")) == 100 && ExactScorer(Str("berlin"), Str("bonn")) == 0;
    assert ExactScorer(Str("bonn"), Str("berlin")) == 0 && ExactScorer(Str("bonn"), Str("bonn")) == 100;
    assert Scan(Str("berlin"), names[..1], ExactScorer) == Best(0, 100);
    assert Scan(Str("bonn"), names[..1], ExactScorer) == Best(-1, 0);
  }

  /** Once harmonising has dropped the unnamed row, the remaining rows carry the
      labels 1 and 2 at positions 0 and 1: the source answers the query "bonn"
      with Berlin's coordinates and name, and the query "berlin" with a KeyError,
      while the lookup by position answers "bonn" with Bonn's row. */
  lemma AsWrittenReadsWrongRow()
    ensures var gps := HarmonizedFrame(SampleGazetteer(), CityName);
      && MatchFields(Str("bonn"), gps, CityName, ExactScorer)
           == Matched(SampleGazetteer().entries[2].row, CityName, 100)
      && MatchFieldsAsWritten(Str("bonn"), gps, CityName, ExactScorer)
           == Ok(Matched(SampleGazetteer().entries[1].row, CityName, 100))
      && MatchFieldsAsWritten(Str("berlin"), gps, CityName, ExactScorer) == Err(MissingLabel(0))
  {
    SampleHarmonized();
    SampleLookups(HarmonizedFrame(SampleGazetteer(), CityName));
  }

  lemma SampleLookups(gps: Frame)
    requires gps.entries == SampleGazetteer().entries[1..]
    ensures MatchFields(Str("bonn"), gps, CityName, ExactScorer)
      == Matched(SampleGazetteer().entries[2].row, CityName, 100)
    ensures MatchFieldsAsWritten(Str("bonn"), gps, CityName, ExactScorer)
      == Ok(Matched(SampleGazetteer().entries[1].row, CityName, 100))
    ensures MatchFieldsAsWritten(Str("berlin"), gps, CityName, ExactScorer) == Err(MissingLabel(0))
  {
    SampleScans(gps);
    assert PositionOfLabel(gps.entries, 1) == Some(0);
    assert PositionOfLabel(gps.entries, 0) == None;
  }

  // ---------------------------------------------------------------------------
  // __fill_in_gps_coordinates

  /** pandas' `==` between two cells: NaN equals nothing. */
  predicate SameValue(a: Cell, b: Cell) {
    a != NA && a == b
  }

  /** The first position in `values` holding `v`, if any (`df2[df2[c] == v].iloc[0]`). */
  function FirstMatch(values: seq<Cell>, v: Cell): (k: Option<nat>)
    ensures k.None? <==> forall j | 0 <= j < |values| :: !SameValue(values[j], v)
    ensures k.Some? ==>
      && k.value < |values| && SameValue(values[k.value], v)
      && forall j | 0 <= j < k.value :: !SameValue(values[j], v)
    decreases |values|
  {
    if |values| == 0 then None
    else if SameValue(values[0], v) then Some(0)
    else match FirstMatch(values[1..], v)
      case None => None
      case Some(k) => Some(k + 1)
  }

  /** The three cells `__fill_in_gps_coordinates` presets on every row. */
  function Unresolved(): Row {
    map[OrgLatitude := Num(-1.0), OrgLongitude := Num(-1.0), FuzzyRating := Num(-1.0)]
  }

  /** The three cells a record with name `value` ends up with: the presets when no
      row of the match table carries that name, otherwise the coordinates and
      rating of the first row that does. */
  function JoinFields(value: Cell, table: Frame, col: string): (m: Row)
    ensures m.Keys == Unresolved().Keys
    ensures (forall j | 0 <= j < |table.entries| :: !SameValue(Get(table.entries[j].row, col), value))
      ==> m == Unresolved()
    ensures forall k | 0 <= k < |table.entries| && SameValue(Get(table.entries[k].row, col), value)
        && (forall j | 0 <= j < k :: !SameValue(Get(table.entries[j].row, col), value)) ::
      m == map[OrgLatitude := Get(table.entries[k].row, OrgLatitude),
               OrgLongitude := Get(table.entries[k].row, OrgLongitude),
               FuzzyRating := Get(table.entries[k].row, MatchRating)]
  {
    var values := Values(table, col);
    match FirstMatch(values, value)
    case None => Unresolved()
    case Some(k) =>
      var r := table.entries[k].row;
      map[OrgLatitude := Get(r, OrgLatitude), OrgLongitude := Get(r, OrgLongitude), FuzzyRating := Get(r, MatchRating)]
  }

  /** The columns after the three presets. */
  function FillColumns(columns: seq<string>): seq<string> {
    AddColumn(AddColumn(AddColumn(columns, OrgLatitude), OrgLongitude), FuzzyRating)
  }

  /** After the three presets every record carries the cells of `Unresolved`. */
  lemma FillPresets(df: Frame)
    ensures var out := PresetColumn(PresetColumn(PresetColumn(df,
        OrgLatitude, Num(-1.0)), OrgLongitude, Num(-1.0)), FuzzyRating, Num(-1.0));
      && out.columns == FillColumns(df.columns) && |out.entries| == |df.entries|
      && forall i | 0 <= i < |df.entries| ::
           out.entries[i] == Entry(df.entries[i].index, df.entries[i].row + Unresolved())
  {
    forall i | 0 <= i < |df.entries|
      ensures df.entries[i].row[OrgLatitude := Num(-1.0)][OrgLongitude := Num(-1.0)][FuzzyRating := Num(-1.0)]
        == df.entries[i].row + Unresolved()
    {
      UpdatesAsUnion(df.entries[i].row, OrgLatitude, Num(-1.0), OrgLongitude, Num(-1.0), FuzzyRating, Num(-1.0));
    }
  }

  /** The three `df1.at[index, ...] = ...` writes for a record whose name was found. */
  function WriteJoin(out: Frame, i: nat, r: Row): (o: Frame)
    requires i < |out.entries|
    ensures o.columns == out.columns && |o.entries| == |out.entries|
    ensures o.entries[i] == Entry(out.entries[i].index, out.entries[i].row
      + map[OrgLatitude := Get(r, OrgLatitude), OrgLongitude := Get(r, OrgLongitude), FuzzyRating := Get(r, MatchRating)])
    ensures forall k | 0 <= k < |out.entries| && k != i :: o.entries[k] == out.entries[k]
  {
    UpdatesAsUnion(out.entries[i].row, OrgLatitude, Get(r, OrgLatitude), OrgLongitude, Get(r, OrgLongitude),
      FuzzyRating, Get(r, MatchRating));
    var o := SetCell(out, i, OrgLatitude, Get(r, OrgLatitude));
    var o := SetCell(o, i, OrgLongitude, Get(r, OrgLongitude));
    SetCell(o, i, FuzzyRating, Get(r, MatchRating))
  }

  /** The writes of the loop of `__fill_in_gps_coordinates` for the record at
      position `i`, once the search for its name has given `first`. */
  method JoinRecord(out: Frame, i: nat, row: Row, value: Cell, first: Option<nat>, df2: Frame, col2: string)
    returns (o: Frame)
    requires i < |out.entries| && out.entries[i].row == row + Unresolved()
    requires first == FirstMatch(Values(df2, col2), value)
    ensures o.columns == out.columns && |o.entries| == |out.entries|
    ensures o.entries[i] == Entry(out.entries[i].index, row + JoinFields(value, df2, col2))
    ensures forall k | 0 <= k < |out.entries| && k != i :: o.entries[k] == out.entries[k]
  {
    o := out;
    if first.Some? {
      var r := df2.entries[first.value].row;
      OverrideTwice(row, Unresolved(), JoinFields(value, df2, col2));
      o := WriteJoin(out, i, r);
    }
  }

  /** The state of `__fill_in_gps_coordinates` when the loop reaches record `i`. */
  ghost predicate FillLoop(out: Frame, df1: Frame, values: seq<Cell>, df2: Frame, col2: string, i: nat)
    requires |values| == |df1.entries| && i <= |df1.entries|
  {
    && out.columns == FillColumns(df1.columns) && |out.entries| == |df1.entries|
    && (forall k | 0 <= k < i ::
          out.entries[k] == Entry(df1.entries[k].index, df1.entries[k].row + JoinFields(values[k], df2, col2)))
    && (forall k | i <= k < |df1.entries| ::
          out.entries[k] == Entry(df1.entries[k].index, df1.entries[k].row + Unresolved()))
  }

  lemma FillLoopStep(before: Frame, after: Frame, df1: Frame, values: seq<Cell>, df2: Frame, col2: string, i: nat)
    requires |values| == |df1.entries| && i < |df1.entries|
    requires FillLoop(before, df1, values, df2, col2, i)
    requires after.columns == before.columns && |after.entries| == |before.entries|
    requires after.entries[i] == Entry(df1.entries[i].index, df1.entries[i].row + JoinFields(values[i], df2, col2))
    requires forall k | 0 <= k < |before.entries| && k != i :: after.entries[k] == before.entries[k]
    ensures FillLoop(after, df1, values, df2, col2, i + 1)
  {
  }

  /** The records keep their labels and change only in the three written columns. */
  lemma FillKeeps(out: Frame, df1: Frame, df2: Frame, col1: string, col2: string)
    requires |out.entries| == |df1.entries|
    requires forall i | 0 <= i < |df1.entries| ::
      out.entries[i] == Entry(df1.entries[i].index,
        df1.entries[i].row + JoinFields(Lookup(df1, col1, i), df2, col2))
    ensures Labels(out) == Labels(df1) && Retains(out, df1)
    ensures Derives(out, df1, {OrgLatitude, OrgLongitude, FuzzyRating})
  {
    forall i | 0 <= i < |df1.entries|
      ensures Agree(out.entries[i].row, df1.entries[i].row, {OrgLatitude, OrgLongitude, FuzzyRating})
    {
      var m := JoinFields(Lookup(df1, col1, i), df2, col2);
      assert m.Keys == {OrgLatitude, OrgLongitude, FuzzyRating};
    }
    RowwiseFacts(df1, out, {OrgLatitude, OrgLongitude, FuzzyRating});
  }

  /** The name the record at position `i` is looked up by: its cell in `col1` once
      the three presets are in place. */
  function Lookup(df1: Frame, col1: string, i: nat): Cell
    requires i < |df1.entries|
  {
    Get(df1.entries[i].row + Unresolved(), col1)
  }

  /** Some record's name is found in the match table, so that the table's
      coordinate and rating columns are read. */
  predicate AnyJoin(df1: Frame, col1: string, df2: Frame, col2: string) {
    exists i | 0 <= i < |df1.entries| :: FirstMatch(Values(df2, col2), Lookup(df1, col1, i)).Some?
  }

  /** The KeyError `__fill_in_gps_coordinates` stops with, if any: with at least one
      record, the name column of the records and that of the table are read, and
      once a name is found, the table's two coordinate columns and its rating. */
  function FillError(df1: Frame, col1: string, df2: Frame, col2: string): Option<Error> {
    if |df1.entries| == 0 then None
    else if col1 !in FillColumns(df1.columns) then Some(MissingColumn(col1))
    else if col2 !in df2.columns then Some(MissingColumn(col2))
    else if !AnyJoin(df1, col1, df2, col2) then None
    else if OrgLatitude !in df2.columns then Some(MissingColumn(OrgLatitude))
    else if OrgLongitude !in df2.columns then Some(MissingColumn(OrgLongitude))
    else if MatchRating !in df2.columns then Some(MissingColumn(MatchRating))
    else None
  }

  /** The frame `__fill_in_gps_coordinates` returns when it does not fail: every
      record, under its own label, with the three cells of its own name. */
  function Filled(df1: Frame, col1: string, df2: Frame, col2: string): Frame {
    Frame(FillColumns(df1.columns), seq(|df1.entries|, i requires 0 <= i < |df1.entries| =>
      Entry(df1.entries[i].index, df1.entries[i].row + JoinFields(Lookup(df1, col1, i), df2, col2))))
  }

  /** `__fill_in_gps_coordinates(df1, col1, df2, col2)`: a KeyError exactly as
      `FillError` says; otherwise every record is kept, in place, and gets the
      three cells of its own name, and nothing else changes. The records' labels
      are distinct, so the write by label lands on the record the loop is visiting. */
  method FillInGpsCoordinates(df1: Frame, col1: string, df2: Frame, col2: string) returns (r: Result<Frame, Error>)
    requires DistinctLabels(df1)
    ensures r.Err? <==> FillError(df1, col1, df2, col2).Some?
    ensures r.Err? ==> r.error == FillError(df1, col1, df2, col2).value
    ensures r.Ok? ==> r.value == Filled(df1, col1, df2, col2)
    ensures r.Ok? ==> r.value.columns == FillColumns(df1.columns) && |r.value.entries| == |df1.entries|
    ensures r.Ok? ==> forall i | 0 <= i < |df1.entries| ::
      r.value.entries[i] == Entry(df1.entries[i].index, df1.entries[i].row + JoinFields(Lookup(df1, col1, i), df2, col2))
    ensures r.Ok? ==> Labels(r.value) == Labels(df1) && Retains(r.value, df1)
    ensures r.Ok? ==> Derives(r.value, df1, {OrgLatitude, OrgLongitude, FuzzyRating})
  {
    var out := PresetColumn(df1, OrgLatitude, Num(-1.0));
    out := PresetColumn(out, OrgLongitude, Num(-1.0));
    out := PresetColumn(out, FuzzyRating, Num(-1.0));
    FillPresets(df1);
    ghost var values := seq(|df1.entries|, k requires 0 <= k < |df1.entries| => Lookup(df1, col1, k));
    for i := 0 to |df1.entries|
      invariant FillLoop(out, df1, values, df2, col2, i)
      invariant i > 0 ==> col1 in out.columns && col2 in df2.columns
      invariant forall k | 0 <= k < i && FirstMatch(Values(df2, col2), values[k]).Some? ::
        OrgLatitude in df2.columns && OrgLongitude in df2.columns && MatchRating in df2.columns
    {
      if col1 !in out.columns {
        return Err(MissingColumn(col1));
      }
      var value := Get(out.entries[i].row, col1);
      assert value == values[i];
      if col2 !in df2.columns {
        return Err(MissingColumn(col2));
      }
      var first := FirstMatch(Values(df2, col2), value);
      if first.Some? {
        assert AnyJoin(df1, col1, df2, col2);
        if OrgLatitude !in df2.columns {
          return Err(MissingColumn(OrgLatitude));
        }
        if OrgLongitude !in df2.columns {
          return Err(MissingColumn(OrgLongitude));
        }
        if MatchRating !in df2.columns {
          return Err(MissingColumn(MatchRating));
        }
      }
      ghost var before := out;
      out := JoinRecord(out, i, df1.entries[i].row, value, first, df2, col2);
      FillLoopStep(before, out, df1, values, df2, col2, i);
    }
    FillKeeps(out, df1, df2, col1, col2);
    assert out == Filled(df1, col1, df2, col2);
    return Ok(out);
  }

  // ---------------------------------------------------------------------------
  // The confidence filter, the coordinate split and the column whitelist

  predicate Confident(c: Cell) {
    c.Num? && c.x >= ConfidenceThreshold as real
  }

  /** A record whose rating is confident. */
  predicate ConfidentEntry(e: Entry) {
    Confident(Get(e.row, FuzzyRating))
  }

  /** `data[data["Fuzzy_Rating"] >= 85]`: a rating of 85 is kept, 84 is not. */
  function KeepConfident(f: Frame): (g: Frame)
    ensures g.columns == f.columns
    ensures forall e | e in g.entries :: e in f.entries && Confident(Get(e.row, FuzzyRating))
    ensures forall e | e in f.entries && Confident(Get(e.row, FuzzyRating)) :: e in g.entries
    ensures Subsequence(g.entries, f.entries) && Retains(g, f) && Derives(g, f, {})
    ensures WellFormed(f) ==> WellFormed(g)
  {
    Where(f, ConfidentEntry)
  }

  /** The pieces of a cell split at commas (`str.split(",")`); a non-string cell has none. */
  function Pieces(c: Cell): seq<string> {
    if c.Str? then Split(c.s, ',') else []
  }

  /** Column `k` of `str.split(",", expand=True)` exists: some cell has more than `k` pieces. */
  predicate HasPiece(cells: seq<Cell>, k: nat) {
    exists i | 0 <= i < |cells| :: |Pieces(cells[i])| > k
  }

  /** Piece `k` of every cell parses (cells with fewer pieces have None there). */
  predicate PiecesParse(cells: seq<Cell>, k: nat, parse: Parser) {
    forall i | 0 <= i < |cells| && |Pieces(cells[i])| > k :: parse(Pieces(cells[i])[k]).Some?
  }

  /** The number piece `k` of a cell stands for, NaN when there is no such piece. */
  function PieceValue(c: Cell, k: nat, parse: Parser): Cell {
    var p := Pieces(c);
    if |p| > k && parse(p[k]).Some? then Num(parse(p[k]).value) else NA
  }

  /** `pd.to_numeric(...split(",", expand=True)[k])`: the numbers of piece `k`, or
      a ValueError naming the first piece that does not parse. */
  function ParsePiece(cells: seq<Cell>, k: nat, parse: Parser): (r: Result<seq<Cell>, Error>)
    ensures r.Ok? <==> PiecesParse(cells, k, parse)
    ensures r.Ok? ==>
      && |r.value| == |cells|
      && forall i | 0 <= i < |cells| :: r.value[i] == PieceValue(cells[i], k, parse)
    ensures r.Err? ==> exists i | 0 <= i < |cells| && |Pieces(cells[i])| > k ::
      parse(Pieces(cells[i])[k]).None? && r.error == NotNumeric(Pieces(cells[i])[k])
    decreases |cells|
  {
    if |cells| == 0 then Ok([])
    else
      var p := Pieces(cells[0]);
      if |p| > k && parse(p[k]).None? then Err(NotNumeric(p[k]))
      else
        var rest := ParsePiece(cells[1..], k, parse);
        assert forall i | 1 <= i < |cells| :: cells[1..][i - 1] == cells[i];
        if rest.Err? then
          var i :| 0 <= i < |cells[1..]| && |Pieces(cells[1..][i])| > k
            && parse(Pieces(cells[1..][i])[k]).None? && rest.error == NotNumeric(Pieces(cells[1..][i])[k]);
          assert cells[1..][i] == cells[i + 1];
          Err(rest.error)
        else
          Ok([PieceValue(cells[0], k, parse)] + rest.value)
  }

  /** A coordinate text "lat,lon" whose two parts parse yields exactly those two numbers. */
  lemma CoordinatesRoundTrip(lat: string, lon: string, parse: Parser)
    requires ',' !in lat && ',' !in lon
    requires parse(lat).Some? && parse(lon).Some?
    ensures PieceValue(Str(lat + [','] + lon), 0, parse) == Num(parse(lat).value)
    ensures PieceValue(Str(lat + [','] + lon), 1, parse) == Num(parse(lon).value)
  {
    var parts := [lat, lon];
    assert parts[1..] == [lon];
    assert Join(parts, ',') == lat + [','] + lon;
    SplitJoin(parts, ',');
  }

  /** The two job-coordinate columns, as the source adds them. */
  function SplitColumns(columns: seq<string>): seq<string> {
    AddColumn(AddColumn(columns, JobLatitude), JobLongitude)
  }

  /** The frame with the two job-coordinate columns assigned. */
  function WithJobCoordinates(f: Frame, lats: seq<Cell>, lons: seq<Cell>): (g: Frame)
    requires |lats| == |f.entries| && |lons| == |f.entries|
    ensures g.columns == SplitColumns(f.columns) && |g.entries| == |f.entries|
    ensures forall i | 0 <= i < |f.entries| ::
      g.entries[i] == Entry(f.entries[i].index, f.entries[i].row[JobLatitude := lats[i]][JobLongitude := lons[i]])
    ensures Retains(g, f) && Derives(g, f, {JobLatitude, JobLongitude})
    ensures WellFormed(f) ==> WellFormed(g)
  {
    var f1 := AssignValues(f, JobLatitude, lats);
    var f2 := AssignValues(f1, JobLongitude, lons);
    RetainsTrans(f2, f1, f);
    DerivesTrans(f2, f1, f, {JobLongitude}, {JobLatitude});
    assert {JobLongitude} + {JobLatitude} == {JobLatitude, JobLongitude};
    f2
  }

  /** Lines 216-221 of `create_distance_measures`: split the job coordinates at the
      comma and store piece 0 and piece 1 as numbers. It fails with a KeyError when
      no row has a piece 0 (resp. 1), and with a ValueError when a piece does not
      parse; the second split reads the same column as the first, which the first
      assignment leaves alone. */
  function SplitCoordinates(f: Frame, parse: Parser): (r: Result<Frame, Error>)
    ensures var cells := Values(f, JobCoordinates);
      r.Ok? <==> HasPiece(cells, 0) && PiecesParse(cells, 0, parse) && HasPiece(cells, 1) && PiecesParse(cells, 1, parse)
    ensures !HasPiece(Values(f, JobCoordinates), 0) ==> r == Err(MissingLabel(0))
    ensures r.Err? ==> r.error.MissingLabel? || r.error.NotNumeric?
    ensures r.Ok? ==> r.value == WithJobCoordinates(f,
      Map(Values(f, JobCoordinates), (c: Cell) => PieceValue(c, 0, parse)),
      Map(Values(f, JobCoordinates), (c: Cell) => PieceValue(c, 1, parse)))
  {
    var cells := Values(f, JobCoordinates);
    if !HasPiece(cells, 0) then Err(MissingLabel(0))
    else match ParsePiece(cells, 0, parse)
      case Err(e) => Err(e)
      case Ok(lats) =>
        if !HasPiece(cells, 1) then Err(MissingLabel(1))
        else match ParsePiece(cells, 1, parse)
          case Err(e) => Err(e)
          case Ok(lons) =>
            assert lats == Map(cells, (c: Cell) => PieceValue(c, 0, parse));
            assert lons == Map(cells, (c: Cell) => PieceValue(c, 1, parse));
            Ok(WithJobCoordinates(f, lats, lons))
  }

  /** `__drop_not_used_columns(data, used)`: the columns of `used` stay, in their
      original order, with their values; every other column disappears. */
  function DropNotUsedColumns(f: Frame, used: seq<string>): (g: Frame)
    ensures Subsequence(g.columns, f.columns)
    ensures forall c | c in g.columns :: c in used
    ensures forall c | c in f.columns && c in used :: c in g.columns
    ensures |g.entries| == |f.entries| && Labels(g) == Labels(f)
    ensures forall i, c | 0 <= i < |f.entries| && c in used :: Get(g.entries[i].row, c) == Get(f.entries[i].row, c)
    ensures forall i, c | 0 <= i < |f.entries| && c in f.columns && c !in used :: c !in g.entries[i].row
    ensures Retains(g, f) && Derives(g, f, ColumnSet(f.columns) - ColumnSet(used))
    ensures WellFormed(f) ==> WellFormed(g)
  {
    var delta := ColumnSet(Filter(f.columns, (c: string) => c !in used));
    var g := Frame(Filter(f.columns, (c: string) => c in used),
      seq(|f.entries|, i requires 0 <= i < |f.entries| => Entry(f.entries[i].index, f.entries[i].row - delta)));
    RowwiseFacts(f, g, ColumnSet(f.columns) - ColumnSet(used));
    DropColumnsWellFormed(f, g, delta);
    g
  }

  lemma DropColumnsWellFormed(f: Frame, g: Frame, delta: set<string>)
    requires Subsequence(g.columns, f.columns)
    requires ColumnSet(g.columns) == ColumnSet(f.columns) - delta
    requires |g.entries| == |f.entries|
    requires forall i | 0 <= i < |f.entries| :: g.entries[i].row == f.entries[i].row - delta
    ensures WellFormed(f) ==> WellFormed(g)
  {
    if WellFormed(f) {
      SubsequenceNoDuplicates(g.columns, f.columns);
      forall e | e in g.entries
        ensures e.row.Keys == ColumnSet(g.columns)
      {
        var i :| 0 <= i < |g.entries| && g.entries[i] == e;
        assert f.entries[i] in f.entries;
      }
    }
  }
}
