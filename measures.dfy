/** `create_distance_measures` of functions_distance.py: the chain of the helpers
    of `Distance`, specified step by step by `DistanceMeasures`, and what the chain
    delivers: which job ads survive, with which cells, and the table of cities. */
module Measures {
  import opened Wrappers
  import opened Sequences
  import opened Frames
  import opened Matching
  import opened Distance

  // ---------------------------------------------------------------------------
  // The stages of the pipeline

  /** The ads after lines 183-192: organisation name harmonised, the name shared
      with at least one other ad, job coordinates present. */
  function Located(data: Frame): Frame {
    var named := HarmonizedFrame(data, OrgName);
    DropNA(DeleteRowsWithUniqueValues(named, OrgName).value, JobCoordinates)
  }

  /** Lines 186-188: the gazetteer with harmonised city names. */
  function Gazetteer(gazetteer: Frame): Frame {
    HarmonizedFrame(gazetteer, CityName)
  }

  /** Line 195: the distinct names of the located ads, in order of first appearance. */
  function NamesOf(located: Frame): seq<Cell> {
    Unique(Values(located, OrgName))
  }

  /** Lines 194-203 when the search does not fail: the table of distinct names with
      their gazetteer matches. */
  function CityTable(located: Frame, gps: Frame, ratio: Scorer): Frame {
    GpsTable(FromColumn(OrgName, NamesOf(located)), gps, OrgName, CityName, ratio)
  }

  /** Lines 207-212 when the join does not fail: the located ads with the
      coordinates and rating of their name in the city table. */
  function JoinedAds(located: Frame, gps: Frame, ratio: Scorer): Frame {
    Filled(located, OrgName, CityTable(located, gps, ratio), OrgName)
  }

  /** `create_distance_measures(data, city_gps_match_data, used_columns)`, step by
      step, up to the distance loop: the first KeyError or ValueError a step raises,
      or the ads that remain and the city table. */
  function DistanceMeasures(data: Frame, gazetteer: Frame, used: seq<string>, ratio: Scorer, parse: Parser)
    : Result<(Frame, Frame), Error>
  {
    if OrgName !in data.columns then Err(MissingColumn(OrgName))
    else if CityName !in gazetteer.columns then Err(MissingColumn(CityName))
    else if JobCoordinates !in data.columns then Err(MissingColumn(JobCoordinates))
    else MeasuresFrom(Located(data), Gazetteer(gazetteer), used, ratio, parse)
  }

  /** Lines 194-222 from the located ads and the harmonised gazetteer on: the
      search over the distinct names, the join back, the confidence filter, the
      split, the distance preset and the projection. */
  function MeasuresFrom(located: Frame, gps: Frame, used: seq<string>, ratio: Scorer, parse: Parser)
    : Result<(Frame, Frame), Error>
  {
    var cities := CityTable(located, gps, ratio);
    match GpsError(FromColumn(OrgName, NamesOf(located)), gps, OrgName, CityName, ratio)
    case Some(e) => Err(e)
    case None =>
      match FillError(located, OrgName, cities, OrgName)
      case Some(e) => Err(e)
      case None =>
        match SplitCoordinates(KeepConfident(JoinedAds(located, gps, ratio)), parse)
        case Err(e) => Err(e)
        case Ok(split) => Ok((DropNotUsedColumns(PresetColumn(split, DistanceColumn, Num(-1.0)), used), cities))
  }

  /** `create_distance_measures`: harmonise both name columns, drop the names seen
      once and the ads without coordinates, look each distinct name up in the
      gazetteer, join the matches back, keep the confident ones, split the job
      coordinates, preset the distance and keep the whitelisted columns. */
  method CreateDistanceMeasures(data: Frame, gazetteer: Frame, used: seq<string>, ratio: Scorer, parse: Parser)
    returns (result: Result<(Frame, Frame), Error>)
    requires DistinctLabels(data)
    ensures result == DistanceMeasures(data, gazetteer, used, ratio, parse)
  {
    if OrgName !in data.columns {
      return Err(MissingColumn(OrgName));
    }
    var named := HarmonizeStrings(data, OrgName);
    if CityName !in gazetteer.columns {
      return Err(MissingColumn(CityName));
    }
    var gps := HarmonizeStrings(gazetteer, CityName);
    var repeated := DeleteRowsWithUniqueValues(named, OrgName).value;
    if JobCoordinates !in repeated.columns {
      return Err(MissingColumn(JobCoordinates));
    }
    var located := DropNA(repeated, JobCoordinates);
    var table := FromColumn(OrgName, Unique(Values(located, OrgName)));
    var cities := FindGpsCoordinates(table, gps, OrgName, CityName, ratio);
    if cities.Err? {
      return Err(cities.error);
    }
    RetainsTrans(located, repeated, named);
    RetainsTrans(located, named, data);
    RetainsDistinct(located, data);
    var filled := FillInGpsCoordinates(located, OrgName, cities.value, OrgName);
    if filled.Err? {
      return Err(filled.error);
    }
    var confident := KeepConfident(filled.value);
    var split := SplitCoordinates(confident, parse);
    if split.Err? {
      return Err(split.error);
    }
    var measured := PresetColumn(split.value, DistanceColumn, Num(-1.0));
    return Ok((DropNotUsedColumns(measured, used), cities.value));
  }

  // ---------------------------------------------------------------------------
  // Which ads are located

  /** The ad `d` with its organisation name harmonised. */
  function Renamed(d: Entry): Entry {
    Entry(d.index, d.row[OrgName := HarmonizeCell(Get(d.row, OrgName))])
  }

  /** `e` is the ad `d` with its name harmonised, that name held by at least two
      harmonised ads, and `d` has job coordinates. */
  ghost predicate LocatedFrom(data: Frame, d: Entry, e: Entry) {
    Qualifies(HarmonizedFrame(data, OrgName), d, e)
  }

  /** `e` is the ad `d` renamed, its name held at least twice in `named`, and `d`
      has job coordinates. */
  ghost predicate Qualifies(named: Frame, d: Entry, e: Entry) {
    && Get(d.row, OrgName).Str? && e == Renamed(d)
    && Count(named, OrgName, Get(e.row, OrgName)) >= 2
    && Get(d.row, JobCoordinates) != NA
  }

  /** The located ads are exactly the ads with a string name, whose harmonised name
      at least two ads share and whose job coordinates are present, renamed. */
  lemma LocatedAds(data: Frame)
    ensures NamedAds(Located(data)) && Retains(Located(data), data)
    ensures forall e | e in Located(data).entries :: exists d | d in data.entries :: LocatedFrom(data, d, e)
    ensures forall d | d in data.entries && Get(d.row, OrgName).Str? && Get(d.row, JobCoordinates) != NA
        && Count(HarmonizedFrame(data, OrgName), OrgName, HarmonizeCell(Get(d.row, OrgName))) >= 2 ::
      Renamed(d) in Located(data).entries
  {
    LocatedNamed(data);
    LocatedOrigins(data);
    LocatedComplete(data);
  }

  /** Every located ad carries a harmonised name and keeps its own label. */
  lemma LocatedNamed(data: Frame)
    ensures NamedAds(Located(data)) && Retains(Located(data), data)
  {
    var named := HarmonizedFrame(data, OrgName);
    var repeated := DeleteRowsWithUniqueValues(named, OrgName).value;
    RetainsTrans(Located(data), repeated, named);
    RetainsTrans(Located(data), named, data);
  }

  /** Every located ad comes from an ad that qualifies. */
  lemma LocatedOrigins(data: Frame)
    ensures forall e | e in Located(data).entries :: exists d | d in data.entries :: LocatedFrom(data, d, e)
  {
    var named := HarmonizedFrame(data, OrgName);
    var repeated := DeleteRowsWithUniqueValues(named, OrgName).value;
    OriginsThrough(data, named, repeated, Located(data));
  }

  /** The origin of a located ad, through the three stages that produce it. */
  lemma OriginsThrough(data: Frame, named: Frame, repeated: Frame, located: Frame)
    requires forall e | e in located.entries :: e in repeated.entries && Get(e.row, JobCoordinates) != NA
    requires forall e | e in repeated.entries ::
      e in named.entries && Get(e.row, OrgName) != NA && Count(named, OrgName, Get(e.row, OrgName)) >= 2
    requires forall e | e in named.entries :: exists d | d in data.entries ::
      Get(d.row, OrgName).Str? && e == Entry(d.index, d.row[OrgName := HarmonizeCell(Get(d.row, OrgName))])
    ensures forall e | e in located.entries :: exists d | d in data.entries :: Qualifies(named, d, e)
  {
    forall e | e in located.entries
      ensures exists d | d in data.entries :: Qualifies(named, d, e)
    {
      var d :| d in data.entries && Get(d.row, OrgName).Str?
        && e == Entry(d.index, d.row[OrgName := HarmonizeCell(Get(d.row, OrgName))]);
      assert JobCoordinates != OrgName by { assert |JobCoordinates| != |OrgName|; }
      GetOther(d.row, OrgName, HarmonizeCell(Get(d.row, OrgName)), JobCoordinates);
      assert Qualifies(named, d, e);
    }
  }

  /** Every ad that qualifies is located. */
  lemma LocatedComplete(data: Frame)
    ensures forall d | d in data.entries && Get(d.row, OrgName).Str? && Get(d.row, JobCoordinates) != NA
        && Count(HarmonizedFrame(data, OrgName), OrgName, HarmonizeCell(Get(d.row, OrgName))) >= 2 ::
      Renamed(d) in Located(data).entries
  {
    var named := HarmonizedFrame(data, OrgName);
    var repeated := DeleteRowsWithUniqueValues(named, OrgName).value;
    CompleteThrough(data, named, repeated, Located(data));
  }

  /** An ad that qualifies passes the three stages. */
  lemma CompleteThrough(data: Frame, named: Frame, repeated: Frame, located: Frame)
    requires forall e | e in data.entries && Get(e.row, OrgName).Str? ::
      Entry(e.index, e.row[OrgName := HarmonizeCell(Get(e.row, OrgName))]) in named.entries
    requires forall e | e in named.entries && Get(e.row, OrgName) != NA && Count(named, OrgName, Get(e.row, OrgName)) >= 2 ::
      e in repeated.entries
    requires forall e | e in repeated.entries && Get(e.row, JobCoordinates) != NA :: e in located.entries
    ensures forall d | d in data.entries && Get(d.row, OrgName).Str? && Get(d.row, JobCoordinates) != NA
        && Count(named, OrgName, HarmonizeCell(Get(d.row, OrgName))) >= 2 ::
      Renamed(d) in located.entries
  {
    forall d | d in data.entries && Get(d.row, OrgName).Str? && Get(d.row, JobCoordinates) != NA
        && Count(named, OrgName, HarmonizeCell(Get(d.row, OrgName))) >= 2
      ensures Renamed(d) in located.entries
    {
      var e := Renamed(d);
      HarmonizeCellFacts(Get(d.row, OrgName));
      assert Get(e.row, OrgName) == HarmonizeCell(Get(d.row, OrgName));
      assert e in named.entries && Get(e.row, OrgName) != NA && Count(named, OrgName, Get(e.row, OrgName)) >= 2;
      assert e in repeated.entries;
      assert JobCoordinates != OrgName by { assert |JobCoordinates| != |OrgName|; }
      GetOther(d.row, OrgName, HarmonizeCell(Get(d.row, OrgName)), JobCoordinates);
    }
  }

  // ---------------------------------------------------------------------------
  // The city table

  /** Every ad carries a harmonised organisation name. */
  ghost predicate NamedAds(located: Frame) {
    forall e | e in located.entries :: Get(e.row, OrgName).Str? && Harmonized(Get(e.row, OrgName).s)
  }

  /** The distinct names hold every ad's name exactly once, harmonised, and nothing else. */
  lemma NamesOfAds(located: Frame)
    requires NamedAds(located)
    ensures var names := NamesOf(located);
      && NoDuplicates(names)
      && (forall v | v in names :: v.Str? && Harmonized(v.s))
      && (forall v | v in names :: exists e | e in located.entries :: Get(e.row, OrgName) == v)
      && (forall e | e in located.entries :: Get(e.row, OrgName) in names)
  {
    var names := NamesOf(located);
    var values := Values(located, OrgName);
    forall v | v in names
      ensures exists e | e in located.entries :: Get(e.row, OrgName) == v
    {
      var i :| 0 <= i < |values| && values[i] == v;
      assert located.entries[i] in located.entries;
    }
    forall e | e in located.entries
      ensures Get(e.row, OrgName) in names
    {
      var i :| 0 <= i < |located.entries| && located.entries[i] == e;
      assert values[i] == Get(e.row, OrgName);
    }
  }

  /** The query of row `i` of a freshly built name table is name `i`. */
  lemma TableQueries(names: seq<Cell>)
    ensures forall i | 0 <= i < |names| :: Query(FromColumn(OrgName, names), OrgName, i) == names[i]
  {
    var table := FromColumn(OrgName, names);
    forall i | 0 <= i < |names|
      ensures Query(table, OrgName, i) == names[i]
    {
      assert table.entries[i].row == map[OrgName := names[i]];
      assert OrgName !in Unmatched().Keys;
    }
  }

  /** The city table is labelled 0..n-1 and row `i` is name `i` with the four cells
      of its own gazetteer match. */
  lemma CityTableRows(located: Frame, gps: Frame, ratio: Scorer)
    ensures var names := NamesOf(located);
      var cities := CityTable(located, gps, ratio);
      && cities.columns == GpsColumns([OrgName]) && |cities.entries| == |names| && RangeIndexed(cities)
      && forall i | 0 <= i < |names| ::
           cities.entries[i] == Entry(i, map[OrgName := names[i]] + MatchFields(names[i], gps, CityName, ratio))
  {
    var names := NamesOf(located);
    var table := FromColumn(OrgName, names);
    TableQueries(names);
    forall i | 0 <= i < |names|
      ensures table.entries[i].row == map[OrgName := names[i]]
    {
    }
  }

  /** The three cells the join copies from a city row with match cells `m`. */
  function AdCells(m: Row): Row {
    map[OrgLatitude := Get(m, OrgLatitude), OrgLongitude := Get(m, OrgLongitude), FuzzyRating := Get(m, MatchRating)]
  }

  /** Row `j` of the city table holds name `j` and passes on the cells of that
      name's own gazetteer match. */
  lemma CityNames(located: Frame, gps: Frame, ratio: Scorer)
    ensures var names := NamesOf(located);
      var cities := CityTable(located, gps, ratio);
      && |cities.entries| == |names|
      && forall j | 0 <= j < |names| ::
           && Get(cities.entries[j].row, OrgName) == names[j]
           && AdCells(cities.entries[j].row) == AdCells(MatchFields(names[j], gps, CityName, ratio))
  {
    var names := NamesOf(located);
    var cities := CityTable(located, gps, ratio);
    CityTableRows(located, gps, ratio);
    forall j | 0 <= j < |names|
      ensures Get(cities.entries[j].row, OrgName) == names[j]
      ensures AdCells(cities.entries[j].row) == AdCells(MatchFields(names[j], gps, CityName, ratio))
    {
      assert OrgName !in MatchFields(names[j], gps, CityName, ratio).Keys;
    }
  }

  /** Looking an ad's name up in the city table gives the coordinates and rating of
      that name's own gazetteer match. */
  lemma JoinThroughCities(located: Frame, gps: Frame, ratio: Scorer, v: Cell)
    requires NamedAds(located) && v in NamesOf(located)
    ensures JoinFields(v, CityTable(located, gps, ratio), OrgName) == AdCells(MatchFields(v, gps, CityName, ratio))
  {
    var names := NamesOf(located);
    NamesOfAds(located);
    CityNames(located, gps, ratio);
    var k :| 0 <= k < |names| && names[k] == v;
    JoinFieldsAt(v, names, CityTable(located, gps, ratio), k);
  }

  lemma JoinFieldsAt(v: Cell, names: seq<Cell>, cities: Frame, k: nat)
    requires k < |names| == |cities.entries| && names[k] == v && v.Str? && NoDuplicates(names)
    requires forall j | 0 <= j < |names| :: Get(cities.entries[j].row, OrgName) == names[j]
    ensures JoinFields(v, cities, OrgName) == AdCells(cities.entries[k].row)
  {
    assert SameValue(Get(cities.entries[k].row, OrgName), v);
  }

  // ---------------------------------------------------------------------------
  // The join and the confidence filter

  /** An ad with the three cells of its own gazetteer match. */
  function Joined(gps: Frame, ratio: Scorer): Entry -> Entry {
    (e: Entry) => Entry(e.index, e.row + AdCells(MatchFields(Get(e.row, OrgName), gps, CityName, ratio)))
  }

  /** The rating the gazetteer search gives the name `name`. */
  function Rating(name: Cell, gps: Frame, ratio: Scorer): Cell {
    Get(MatchFields(name, gps, CityName, ratio), MatchRating)
  }

  /** An ad whose own name is matched confidently. */
  function IsKept(gps: Frame, ratio: Scorer): Entry -> bool {
    (e: Entry) => Confident(Rating(Get(e.row, OrgName), gps, ratio))
  }

  /** A name is matched confidently exactly when some gazetteer name scores at
      least 85 against it. */
  lemma ConfidentExactly(name: Cell, gps: Frame, ratio: Scorer)
    ensures var names := Values(gps, CityName);
      Confident(Rating(name, gps, ratio)) <==>
        exists j | 0 <= j < |names| :: ratio(name, names[j]) >= ConfidenceThreshold
  {
    var names := Values(gps, CityName);
    ScanFindsFirstMax(name, names, ratio);
    var b := Scan(name, names, ratio);
    if b.index != -1 {
      assert Rating(name, gps, ratio) == Num(b.score as real);
    }
  }

  /** The ads kept are, in their original order, exactly those for whose name some
      gazetteer name scores at least 85. */
  lemma KeptExactly(located: Frame, gps: Frame, ratio: Scorer)
    ensures Subsequence(Filter(located.entries, IsKept(gps, ratio)), located.entries)
    ensures var names := Values(gps, CityName);
      forall e | e in located.entries ::
        e in Filter(located.entries, IsKept(gps, ratio)) <==>
          exists j | 0 <= j < |names| :: ratio(Get(e.row, OrgName), names[j]) >= ConfidenceThreshold
  {
    var names := Values(gps, CityName);
    forall e | e in located.entries
      ensures IsKept(gps, ratio)(e) <==>
        exists j | 0 <= j < |names| :: ratio(Get(e.row, OrgName), names[j]) >= ConfidenceThreshold
    {
      ConfidentExactly(Get(e.row, OrgName), gps, ratio);
    }
  }

  /** The join gives every ad the cells of its own gazetteer match. */
  lemma JoinedRows(located: Frame, gps: Frame, ratio: Scorer)
    requires NamedAds(located)
    ensures JoinedAds(located, gps, ratio).entries == Map(located.entries, Joined(gps, ratio))
  {
    var filled := JoinedAds(located, gps, ratio);
    var joined := Map(located.entries, Joined(gps, ratio));
    NamesOfAds(located);
    forall i | 0 <= i < |located.entries|
      ensures filled.entries[i] == joined[i]
    {
      JoinedRow(located, gps, ratio, i);
    }
  }

  lemma JoinedRow(located: Frame, gps: Frame, ratio: Scorer, i: nat)
    requires NamedAds(located) && i < |located.entries|
    requires forall e | e in located.entries :: Get(e.row, OrgName) in NamesOf(located)
    ensures JoinedAds(located, gps, ratio).entries[i] == Joined(gps, ratio)(located.entries[i])
  {
    var e := located.entries[i];
    assert OrgName !in Unresolved().Keys;
    assert Lookup(located, OrgName, i) == Get(e.row, OrgName);
    assert e in located.entries;
    JoinThroughCities(located, gps, ratio, Get(e.row, OrgName));
  }

  /** The ads the confidence filter keeps are the kept ads, each with the cells of
      its own gazetteer match. */
  lemma ConfidentRows(located: Frame, gps: Frame, ratio: Scorer)
    requires NamedAds(located)
    ensures KeepConfident(JoinedAds(located, gps, ratio)).entries
      == Map(Filter(located.entries, IsKept(gps, ratio)), Joined(gps, ratio))
  {
    JoinedRows(located, gps, ratio);
    ConfidentJoined(JoinedAds(located, gps, ratio), located.entries, gps, ratio);
  }

  lemma ConfidentJoined(filled: Frame, ads: seq<Entry>, gps: Frame, ratio: Scorer)
    requires filled.entries == Map(ads, Joined(gps, ratio))
    ensures KeepConfident(filled).entries == Map(Filter(ads, IsKept(gps, ratio)), Joined(gps, ratio))
  {
    forall e | e in ads
      ensures IsKept(gps, ratio)(e) == ConfidentEntry(Joined(gps, ratio)(e))
    {
      var m := MatchFields(Get(e.row, OrgName), gps, CityName, ratio);
      assert Get(e.row + AdCells(m), FuzzyRating) == Get(m, MatchRating);
    }
    FilterMap(ads, Joined(gps, ratio), ConfidentEntry, IsKept(gps, ratio));
  }

  // ---------------------------------------------------------------------------
  // What the pipeline delivers

  /** The cells of a kept ad after lines 207-222: its own cells, the coordinates
      and rating of its gazetteer match, its job coordinates split into numbers, and
      the distance preset to -1. */
  function MeasuredRow(ad: Row, gps: Frame, ratio: Scorer, parse: Parser): Row {
    var coordinates := Get(ad, JobCoordinates);
    (ad + AdCells(MatchFields(Get(ad, OrgName), gps, CityName, ratio)))
      [JobLatitude := PieceValue(coordinates, 0, parse)]
      [JobLongitude := PieceValue(coordinates, 1, parse)]
      [DistanceColumn := Num(-1.0)]
  }

  /** The split, the distance preset and the projection turn each kept ad, joined
      with its match, into its `MeasuredRow` restricted to the whitelist. */
  lemma TailRows(confident: Frame, kept: seq<Entry>, gps: Frame, ratio: Scorer, parse: Parser, used: seq<string>)
    requires confident.entries == Map(kept, Joined(gps, ratio))
    requires SplitCoordinates(confident, parse).Ok?
    ensures var out := DropNotUsedColumns(PresetColumn(SplitCoordinates(confident, parse).value, DistanceColumn, Num(-1.0)), used);
      && (forall c | c in out.columns :: c in used)
      && |out.entries| == |kept|
      && forall i | 0 <= i < |kept| ::
           && out.entries[i].index == kept[i].index
           && forall c | c in used :: Get(out.entries[i].row, c) == Get(MeasuredRow(kept[i].row, gps, ratio, parse), c)
  {
    var split := SplitCoordinates(confident, parse).value;
    var measured := PresetColumn(split, DistanceColumn, Num(-1.0));
    forall i | 0 <= i < |kept|
      ensures measured.entries[i] == Entry(kept[i].index, MeasuredRow(kept[i].row, gps, ratio, parse))
    {
      assert confident.entries[i] == Joined(gps, ratio)(kept[i]);
      SplitRow(confident, parse, i);
      TailRow(confident, split, measured, i, kept[i], gps, ratio, parse);
    }
    MeasuredKept(measured, kept, used, gps, ratio, parse);
  }

  lemma TailRow(confident: Frame, split: Frame, measured: Frame, i: nat, ad: Entry, gps: Frame, ratio: Scorer, parse: Parser)
    requires i < |confident.entries| && i < |split.entries| && i < |measured.entries|
    requires confident.entries[i] == Entry(ad.index, ad.row + AdCells(MatchFields(Get(ad.row, OrgName), gps, CityName, ratio)))
    requires var row := confident.entries[i].row;
      var coordinates := Get(row, JobCoordinates);
      split.entries[i] == Entry(confident.entries[i].index,
        row[JobLatitude := PieceValue(coordinates, 0, parse)][JobLongitude := PieceValue(coordinates, 1, parse)])
    requires measured.entries[i] == Entry(split.entries[i].index, split.entries[i].row[DistanceColumn := Num(-1.0)])
    ensures measured.entries[i] == Entry(ad.index, MeasuredRow(ad.row, gps, ratio, parse))
  {
    var cells := AdCells(MatchFields(Get(ad.row, OrgName), gps, CityName, ratio));
    assert JobCoordinates !in cells.Keys;
    GetOutside(ad.row, cells, JobCoordinates);
  }

  /** Row `i` after the split carries the two numbers of its own job coordinates. */
  lemma SplitRow(f: Frame, parse: Parser, i: nat)
    requires i < |f.entries| && SplitCoordinates(f, parse).Ok?
    ensures var row := f.entries[i].row;
      var coordinates := Get(row, JobCoordinates);
      SplitCoordinates(f, parse).value.entries[i]
        == Entry(f.entries[i].index, row[JobLatitude := PieceValue(coordinates, 0, parse)][JobLongitude := PieceValue(coordinates, 1, parse)])
  {
    assert Values(f, JobCoordinates)[i] == Get(f.entries[i].row, JobCoordinates);
  }

  lemma MeasuredKept(measured: Frame, kept: seq<Entry>, used: seq<string>, gps: Frame, ratio: Scorer, parse: Parser)
    requires |measured.entries| == |kept|
    requires forall i | 0 <= i < |kept| ::
      measured.entries[i] == Entry(kept[i].index, MeasuredRow(kept[i].row, gps, ratio, parse))
    ensures var out := DropNotUsedColumns(measured, used);
      && |out.entries| == |kept|
      && forall i | 0 <= i < |kept| ::
           && out.entries[i].index == kept[i].index
           && forall c | c in used :: Get(out.entries[i].row, c) == Get(MeasuredRow(kept[i].row, gps, ratio, parse), c)
  {
    var out := DropNotUsedColumns(measured, used);
    forall i | 0 <= i < |kept|
      ensures out.entries[i].index == kept[i].index
    {
      assert Labels(out)[i] == Labels(measured)[i];
    }
  }

  /** The located ads kept by the confidence filter, in order. */
  function Kept(data: Frame, gazetteer: Frame, ratio: Scorer): seq<Entry> {
    Filter(Located(data).entries, IsKept(Gazetteer(gazetteer), ratio))
  }

  /** On success, the ads returned are the kept located ads, in order and under
      their own labels, each with the cells `MeasuredRow` gives it in every
      whitelisted column, and no other column; the table returned is the city table. */
  lemma MeasuredAds(data: Frame, gazetteer: Frame, used: seq<string>, ratio: Scorer, parse: Parser)
    ensures var r := DistanceMeasures(data, gazetteer, used, ratio, parse);
      r.Ok? ==>
        var out := r.value.0;
        var kept := Kept(data, gazetteer, ratio);
        && r.value.1 == CityTable(Located(data), Gazetteer(gazetteer), ratio)
        && (forall c | c in out.columns :: c in used)
        && |out.entries| == |kept|
        && forall i | 0 <= i < |kept| ::
             && out.entries[i].index == kept[i].index
             && forall c | c in used ::
                  Get(out.entries[i].row, c) == Get(MeasuredRow(kept[i].row, Gazetteer(gazetteer), ratio, parse), c)
  {
    LocatedNamed(data);
    MeasuredFrom(Located(data), Gazetteer(gazetteer), used, ratio, parse);
  }

  /** `MeasuredAds` for any located ads that carry harmonised names. */
  lemma MeasuredFrom(located: Frame, gps: Frame, used: seq<string>, ratio: Scorer, parse: Parser)
    requires NamedAds(located)
    ensures var r := MeasuresFrom(located, gps, used, ratio, parse);
      r.Ok? ==>
        var out := r.value.0;
        var kept := Filter(located.entries, IsKept(gps, ratio));
        && r.value.1 == CityTable(located, gps, ratio)
        && (forall c | c in out.columns :: c in used)
        && |out.entries| == |kept|
        && forall i | 0 <= i < |kept| ::
             && out.entries[i].index == kept[i].index
             && forall c | c in used ::
                  Get(out.entries[i].row, c) == Get(MeasuredRow(kept[i].row, gps, ratio, parse), c)
  {
    if MeasuresFrom(located, gps, used, ratio, parse).Ok? {
      ConfidentRows(located, gps, ratio);
      TailRows(KeepConfident(JoinedAds(located, gps, ratio)), Filter(located.entries, IsKept(gps, ratio)),
        gps, ratio, parse, used);
    }
  }

  // ---------------------------------------------------------------------------
  // When the pipeline fails

  /** The join back never raises here: the city table carries the name, both
      coordinates and the rating. */
  lemma FillNeverFails(located: Frame, gps: Frame, ratio: Scorer)
    requires OrgName in located.columns
    ensures FillError(located, OrgName, CityTable(located, gps, ratio), OrgName).None?
  {
    CityTableRows(located, gps, ratio);
    assert OrgName in FillColumns(located.columns);
  }

  /** Some ad's name scores above 0 against some gazetteer name. */
  ghost predicate SomeNameMatches(located: Frame, gps: Frame, ratio: Scorer) {
    exists v | v in NamesOf(located) :: Scan(v, Values(gps, CityName), ratio).index != -1
  }

  /** The search over the city table needs the gazetteer's coordinate columns only
      when some name matches. */
  lemma CityTableError(located: Frame, gps: Frame, ratio: Scorer)
    requires CityName in gps.columns
    ensures var e := GpsError(FromColumn(OrgName, NamesOf(located)), gps, OrgName, CityName, ratio);
      && (e == Some(MissingColumn(Latitude)) <==> SomeNameMatches(located, gps, ratio) && Latitude !in gps.columns)
      && (e == Some(MissingColumn(Longitude)) <==>
            SomeNameMatches(located, gps, ratio) && Latitude in gps.columns && Longitude !in gps.columns)
      && (e.None? <==> !SomeNameMatches(located, gps, ratio) || (Latitude in gps.columns && Longitude in gps.columns))
  {
    var names := NamesOf(located);
    var table := FromColumn(OrgName, names);
    TableQueries(names);
    assert OrgName in GpsColumns(table.columns);
    if SomeNameMatches(located, gps, ratio) {
      var v :| v in names && Scan(v, Values(gps, CityName), ratio).index != -1;
      var i :| 0 <= i < |names| && names[i] == v;
      assert Query(table, OrgName, i) == v;
      assert AnyMatch(table, gps, OrgName, CityName, ratio);
    }
    if AnyMatch(table, gps, OrgName, CityName, ratio) {
      var i :| 0 <= i < |table.entries| && Scan(Query(table, OrgName, i), Values(gps, CityName), ratio).index != -1;
      assert names[i] in names;
    }
  }

  /** The pipeline fails with a KeyError for the name column of the ads, then for
      that of the gazetteer, then for the job coordinates; the gazetteer's two
      coordinate columns are needed only when some located name matches a city;
      past that, only the split of the job coordinates can fail. */
  lemma MeasuresErrors(data: Frame, gazetteer: Frame, used: seq<string>, ratio: Scorer, parse: Parser)
    ensures var r := DistanceMeasures(data, gazetteer, used, ratio, parse);
      && (OrgName !in data.columns ==> r == Err(MissingColumn(OrgName)))
      && (OrgName in data.columns && CityName !in gazetteer.columns ==> r == Err(MissingColumn(CityName)))
      && (OrgName in data.columns && CityName in gazetteer.columns && JobCoordinates !in data.columns ==>
            r == Err(MissingColumn(JobCoordinates)))
    ensures var r := DistanceMeasures(data, gazetteer, used, ratio, parse);
      var located := Located(data);
      var gps := Gazetteer(gazetteer);
      OrgName in data.columns && CityName in gazetteer.columns && JobCoordinates in data.columns ==>
        && (r == Err(MissingColumn(Latitude)) <==>
              SomeNameMatches(located, gps, ratio) && Latitude !in gazetteer.columns)
        && (r == Err(MissingColumn(Longitude)) <==>
              SomeNameMatches(located, gps, ratio) && Latitude in gazetteer.columns && Longitude !in gazetteer.columns)
        && (!SomeNameMatches(located, gps, ratio) || (Latitude in gazetteer.columns && Longitude in gazetteer.columns) ==>
              (r.Ok? <==> SplitCoordinates(KeepConfident(JoinedAds(located, gps, ratio)), parse).Ok?))
  {
    if OrgName in data.columns && CityName in gazetteer.columns && JobCoordinates in data.columns {
      StageColumns(data, gazetteer);
      MeasuresFromErrors(Located(data), Gazetteer(gazetteer), used, ratio, parse);
    }
  }

  /** The located ads keep the columns of the ads, the harmonised gazetteer those
      of the gazetteer. */
  lemma StageColumns(data: Frame, gazetteer: Frame)
    requires OrgName in data.columns && CityName in gazetteer.columns
    ensures Located(data).columns == data.columns && Gazetteer(gazetteer).columns == gazetteer.columns
  {
  }

  /** `MeasuresErrors` past the three column checks, for any located ads and gazetteer. */
  lemma MeasuresFromErrors(located: Frame, gps: Frame, used: seq<string>, ratio: Scorer, parse: Parser)
    requires OrgName in located.columns && CityName in gps.columns
    ensures var r := MeasuresFrom(located, gps, used, ratio, parse);
      && (r == Err(MissingColumn(Latitude)) <==> SomeNameMatches(located, gps, ratio) && Latitude !in gps.columns)
      && (r == Err(MissingColumn(Longitude)) <==>
            SomeNameMatches(located, gps, ratio) && Latitude in gps.columns && Longitude !in gps.columns)
      && (!SomeNameMatches(located, gps, ratio) || (Latitude in gps.columns && Longitude in gps.columns) ==>
            (r.Ok? <==> SplitCoordinates(KeepConfident(JoinedAds(located, gps, ratio)), parse).Ok?))
  {
    CityTableError(located, gps, ratio);
    FillNeverFails(located, gps, ratio);
  }
}
