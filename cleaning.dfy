/** `full_dataset_cleaning` of functions_cleaning.py and the steps it calls, in
    order: names seen once dropped, duration and posting count made numeric and
    top-coded, contract type, advertiser type, working hours, language and firm
    size restricted to listed values, two education levels dropped, contract
    type, language and education level clustered, identifiers made numeric, dates parsed, and the ISCO sentinel code removed.

    Each step is written with the frame operations pandas performs, and proved
    equal to a reference step on single rows (`RowsOf`): a row either leaves or
    is rewritten, and the survivors keep their labels and their order. */
module Cleaning {
  import opened Wrappers
  import opened Sequences
  import opened Frames
  import opened RowSteps

  const Duration := "duration"
  const LogDuration := "log_duration"
  const PostingCount := "posting_count"
  const ContractLabel := "contract_type_label"
  const ContractCluster := "contract_type_label_cluster"
  const WorkingHours := "working_hours_type_label"
  const Salary := "salary"
  const SalaryDummy := "salary_dummy"
  const AdvertiserLabel := "advertiser_type_label"
  const IscoCode := "profession_isco_code_value"
  const JobId := "job_id"
  const OrgId := "organization_ID"
  const IndustryLabel := "organization_industry_label"
  const Language := "language"
  const LanguageCluster := "Applicant_language_cluster"
  const EducationLabel := "education_level_label"
  const EducationCluster := "education_level_cluster"
  const Date := "date"
  const Quarter := "quarter_of_date"
  const Month := "month_of_date"
  const SizeLabel := "organization_size_label"
  const IscoAgg1 := "profession_isco_code_value_agg_1"
  const IscoAgg2 := "profession_isco_code_value_agg_2"

  const RegularHours := "Regular working hours"
  const DirectEmployer := "Direct employer"
  const Unknown := "Unbekannt"
  const PrimarySchool := "Grundschule"

  /** Top codes. */
  const MaxDuration: real := 365.0
  const MaxPostings: real := 20.0

  /** The ISCO code that stands for "no meaningful code". */
  const IscoSentinel: real := 9999999999.0

  /** The contract labels kept, as the source lists them (one of them twice). */
  const ContractLabels := [
    "Permanent contract", "Internship / Graduation position", "Possibly permanent contract",
    "Possibly permanent contract", "Apprenticeship", "Temporary contract", "Secondment / Interim"]

  /** The contract labels clustered as "Permanent". */
  const PermanentContracts := ["Permanent contract", "Internship / Graduation position", "Possibly permanent contract"]

  /** The language codes kept. */
  const Languages := [
    "de", "en", "zh", "fr", "cs", "es", "nl", "hu", "sv", "no",
    "da", "sk", "ru", "pl", "pt", "it", "ro", "ja", "el"]

  /** The education labels clustered as "University degree". */
  const University := ["Bachelor", "Master", "Dissertation"]

  /** The firm sizes kept. */
  const FirmSizes := ["5000+", "1000-4999", "500-999"]

  /** The library calls the cleaning makes on single cells: `pd.to_numeric` (a
      parser), `np.log`, `pd.to_datetime` with `.dt.quarter` and `.dt.month`, and
      the three- and two-character prefixes of an ISCO code read back as numbers. */
  datatype Library = Library(
    parse: Parser, log: Cell -> Cell, toDate: Cell -> Cell, quarter: Cell -> Cell,
    month: Cell -> Cell, isco3: Cell -> Cell, isco2: Cell -> Cell)

  // ---------------------------------------------------------------------------
  // Cell and row functions the steps are built from

  /** `data.loc[data[c] > bound, c] = bound` on one cell. */
  function Clamp(c: Cell, bound: real): (r: Cell)
    ensures !c.Num? ==> r == c
    ensures c.Num? ==> r.Num? && r.x <= bound
    ensures c.Num? && c.x <= bound ==> r == c
    ensures c.Num? && c.x > bound ==> r == Num(bound)
  {
    if c.Num? && c.x > bound then Num(bound) else c
  }

  function Coerce(parse: Parser): Cell -> Cell {
    (c: Cell) => ToNumeric(c, parse)
  }

  function ClampTo(bound: real): Cell -> Cell {
    (c: Cell) => Clamp(c, bound)
  }

  /** `data[c] == v` on one row; NaN equals nothing. */
  function Equals(c: string, v: string): Row -> bool {
    (r: Row) => Get(r, c) == Str(v)
  }

  function Differs(c: string, v: string): Row -> bool {
    (r: Row) => Get(r, c) != Str(v)
  }

  /** `isin(values)` on one cell: a string among `values`. */
  predicate IsIn(c: Cell, values: seq<string>) {
    c.Str? && c.s in values
  }

  function In(c: string, values: seq<string>): Row -> bool {
    (r: Row) => IsIn(Get(r, c), values)
  }

  /** `np.where(cond, yes, no)` on one row. */
  function Choice(p: Row -> bool, yes: string, no: string): Row -> Cell {
    (r: Row) => if p(r) then Str(yes) else Str(no)
  }

  /** `data[c].apply(h)` on one row. */
  function Of(c: string, h: Cell -> Cell): Row -> Cell {
    (r: Row) => h(Get(r, c))
  }

  function NotNull(c: string): Row -> Cell {
    (r: Row) => Bool(Get(r, c) != NA)
  }

  // ---------------------------------------------------------------------------
  // __clean_duration

  /** One row under `__clean_duration`: it leaves when its duration does not parse;
      otherwise its duration becomes the parsed number top-coded at 365, and its
      log duration the log of that. */
  function DurationRow(row: Row, lib: Library): (r: Option<Row>)
    ensures var n := ToNumeric(Get(row, Duration), lib.parse);
      && (r.None? <==> n.NA?)
      && (r.Some? ==>
            var d := Get(r.value, Duration);
            && d.Num? && d.x <= MaxDuration
            && (n.x <= MaxDuration ==> d == n)
            && (n.x > MaxDuration ==> d == Num(MaxDuration))
            && Get(r.value, LogDuration) == lib.log(d)
            && Agree(r.value, row, {Duration, LogDuration}))
  {
    var n := ToNumeric(Get(row, Duration), lib.parse);
    if n.NA? then None
    else
      var d := Clamp(n, MaxDuration);
      Some(row[Duration := d][LogDuration := lib.log(d)])
  }

  function DurationStep(lib: Library): Step {
    (r: Row) => DurationRow(r, lib)
  }

  function CleanDuration(data: Frame, lib: Library): (g: Frame)
    requires Duration in data.columns
    ensures g.columns == AddColumn(data.columns, LogDuration)
    ensures g.entries == RowsOf(data.entries, DurationStep(lib))
    ensures Retains(g, data)
  {
    var coerced := MapColumn(data, Duration, Coerce(lib.parse));
    var present := DropNA(coerced, Duration);
    var clamped := MapColumn(present, Duration, ClampTo(MaxDuration));
    DurationRows(data, lib);
    Assign(clamped, LogDuration, Of(Duration, lib.log))
  }

  lemma DurationRows(data: Frame, lib: Library)
    ensures
      var coerced := MapColumn(data, Duration, Coerce(lib.parse));
      var present := DropNA(coerced, Duration);
      var clamped := MapColumn(present, Duration, ClampTo(MaxDuration));
      var g := Assign(clamped, LogDuration, Of(Duration, lib.log));
      g.entries == RowsOf(data.entries, DurationStep(lib)) && Retains(g, data)
  {
    var coerced := MapColumn(data, Duration, Coerce(lib.parse));
    var present := DropNA(coerced, Duration);
    var clamped := MapColumn(present, Duration, ClampTo(MaxDuration));
    var g := Assign(clamped, LogDuration, Of(Duration, lib.log));
    MapColumnRows(data, Duration, Coerce(lib.parse));
    DropNARows(coerced, Duration);
    MapColumnRows(present, Duration, ClampTo(MaxDuration));
    AssignRows(clamped, LogDuration, Of(Duration, lib.log));
    DurationChain(lib);
    Chain4(data.entries, MapStep(Duration, Coerce(lib.parse)), KeepStep(NotNA(Duration)),
      MapStep(Duration, ClampTo(MaxDuration)), AssignStep(LogDuration, Of(Duration, lib.log)), DurationStep(lib));
    RowsOfRetains(g, data, DurationStep(lib));
  }

  /** The reference row step is the four pandas operations in a row. */
  lemma DurationChain(lib: Library)
    ensures forall r: Row :: DurationStep(lib)(r) == Then4(MapStep(Duration, Coerce(lib.parse)), KeepStep(NotNA(Duration)),
      MapStep(Duration, ClampTo(MaxDuration)), AssignStep(LogDuration, Of(Duration, lib.log)), r)
  {
    forall r: Row
      ensures DurationStep(lib)(r) == Then4(MapStep(Duration, Coerce(lib.parse)), KeepStep(NotNA(Duration)),
        MapStep(Duration, ClampTo(MaxDuration)), AssignStep(LogDuration, Of(Duration, lib.log)), r)
    {
      var n := ToNumeric(Get(r, Duration), lib.parse);
      RowTwice(r, Duration, n, Clamp(n, MaxDuration));
    }
  }

  // ---------------------------------------------------------------------------
  // __clean_posting_count

  /** One row under `__clean_posting_count`: it leaves when its posting count does
      not parse; otherwise the count becomes the parsed number top-coded at 20. */
  function PostingRow(row: Row, parse: Parser): (r: Option<Row>)
    ensures var n := ToNumeric(Get(row, PostingCount), parse);
      && (r.None? <==> n.NA?)
      && (r.Some? ==>
            var p := Get(r.value, PostingCount);
            && p.Num? && p.x <= MaxPostings
            && (n.x <= MaxPostings ==> p == n)
            && (n.x > MaxPostings ==> p == Num(MaxPostings))
            && Agree(r.value, row, {PostingCount}))
  {
    var n := ToNumeric(Get(row, PostingCount), parse);
    if n.NA? then None else Some(row[PostingCount := Clamp(n, MaxPostings)])
  }

  function PostingStep(parse: Parser): Step {
    (r: Row) => PostingRow(r, parse)
  }

  function CleanPostingCount(data: Frame, parse: Parser): (g: Frame)
    requires PostingCount in data.columns
    ensures g.columns == data.columns
    ensures g.entries == RowsOf(data.entries, PostingStep(parse))
    ensures Retains(g, data)
  {
    var coerced := MapColumn(data, PostingCount, Coerce(parse));
    var present := DropNA(coerced, PostingCount);
    PostingRows(data, parse);
    MapColumn(present, PostingCount, ClampTo(MaxPostings))
  }

  lemma PostingRows(data: Frame, parse: Parser)
    ensures
      var coerced := MapColumn(data, PostingCount, Coerce(parse));
      var present := DropNA(coerced, PostingCount);
      var g := MapColumn(present, PostingCount, ClampTo(MaxPostings));
      g.entries == RowsOf(data.entries, PostingStep(parse)) && Retains(g, data)
  {
    var coerced := MapColumn(data, PostingCount, Coerce(parse));
    var present := DropNA(coerced, PostingCount);
    var g := MapColumn(present, PostingCount, ClampTo(MaxPostings));
    MapColumnRows(data, PostingCount, Coerce(parse));
    DropNARows(coerced, PostingCount);
    MapColumnRows(present, PostingCount, ClampTo(MaxPostings));
    PostingChain(parse);
    Chain3(data.entries, MapStep(PostingCount, Coerce(parse)), KeepStep(NotNA(PostingCount)),
      MapStep(PostingCount, ClampTo(MaxPostings)), PostingStep(parse));
    RowsOfRetains(g, data, PostingStep(parse));
  }

  lemma PostingChain(parse: Parser)
    ensures forall r: Row :: PostingStep(parse)(r) == Then3(MapStep(PostingCount, Coerce(parse)),
      KeepStep(NotNA(PostingCount)), MapStep(PostingCount, ClampTo(MaxPostings)), r)
  {
    forall r: Row
      ensures PostingStep(parse)(r) == Then3(MapStep(PostingCount, Coerce(parse)),
        KeepStep(NotNA(PostingCount)), MapStep(PostingCount, ClampTo(MaxPostings)), r)
    {
      var n := ToNumeric(Get(r, PostingCount), parse);
      RowTwice(r, PostingCount, n, Clamp(n, MaxPostings));
    }
  }

  // ---------------------------------------------------------------------------
  // __clean_contract_type

  /** One row under `__clean_contract_type`: it stays exactly when its contract
      label is one of the seven listed and its working hours are regular; the
      cluster is "Permanent" for the first three labels and "Non_Permanent" for
      the others. */
  function ContractRow(row: Row): (r: Option<Row>)
    ensures r.Some? <==> IsIn(Get(row, ContractLabel), ContractLabels) && Get(row, WorkingHours) == Str(RegularHours)
    ensures r.Some? ==>
      && (Get(r.value, ContractCluster) == Str("Permanent") <==> IsIn(Get(row, ContractLabel), PermanentContracts))
      && (Get(r.value, ContractCluster) == Str("Permanent") || Get(r.value, ContractCluster) == Str("Non_Permanent"))
      && Agree(r.value, row, {ContractCluster})
  {
    if IsIn(Get(row, ContractLabel), ContractLabels) && Get(row, WorkingHours) == Str(RegularHours) then
      Some(row[ContractCluster := ContractClusterOf(row)])
    else
      None
  }

  function ContractClusterOf(row: Row): Cell {
    Choice(In(ContractLabel, PermanentContracts), "Permanent", "Non_Permanent")(row)
  }

  function ContractStep(): Step {
    (r: Row) => ContractRow(r)
  }

  function CleanContractType(data: Frame): (g: Frame)
    requires ContractLabel in data.columns && WorkingHours in data.columns
    ensures g.columns == AddColumn(data.columns, ContractCluster)
    ensures g.entries == RowsOf(data.entries, ContractStep())
    ensures Retains(g, data)
  {
    var listed := Select(data, In(ContractLabel, ContractLabels));
    var clustered := Assign(listed, ContractCluster, Choice(In(ContractLabel, PermanentContracts), "Permanent", "Non_Permanent"));
    ContractRows(data);
    Select(clustered, Equals(WorkingHours, RegularHours))
  }

  lemma ContractRows(data: Frame)
    ensures
      var listed := Select(data, In(ContractLabel, ContractLabels));
      var clustered := Assign(listed, ContractCluster, Choice(In(ContractLabel, PermanentContracts), "Permanent", "Non_Permanent"));
      var g := Select(clustered, Equals(WorkingHours, RegularHours));
      g.entries == RowsOf(data.entries, ContractStep()) && Retains(g, data)
  {
    var cluster := Choice(In(ContractLabel, PermanentContracts), "Permanent", "Non_Permanent");
    var listed := Select(data, In(ContractLabel, ContractLabels));
    var clustered := Assign(listed, ContractCluster, cluster);
    var g := Select(clustered, Equals(WorkingHours, RegularHours));
    AssignRows(listed, ContractCluster, cluster);
    ContractChain();
    Chain3(data.entries, KeepStep(In(ContractLabel, ContractLabels)), AssignStep(ContractCluster, cluster),
      KeepStep(Equals(WorkingHours, RegularHours)), ContractStep());
    RowsOfRetains(g, data, ContractStep());
  }

  lemma ContractChain()
    ensures forall r: Row :: ContractStep()(r) == Then3(KeepStep(In(ContractLabel, ContractLabels)),
      AssignStep(ContractCluster, Choice(In(ContractLabel, PermanentContracts), "Permanent", "Non_Permanent")),
      KeepStep(Equals(WorkingHours, RegularHours)), r)
  {
    forall r: Row
      ensures ContractStep()(r) == Then3(KeepStep(In(ContractLabel, ContractLabels)),
        AssignStep(ContractCluster, Choice(In(ContractLabel, PermanentContracts), "Permanent", "Non_Permanent")),
        KeepStep(Equals(WorkingHours, RegularHours)), r)
    {
      var x := ContractClusterOf(r);
      assert Get(r[ContractCluster := x], WorkingHours) == Get(r, WorkingHours);
    }
  }

  // ---------------------------------------------------------------------------
  // __clean_salary_dummy

  /** One row under `__clean_salary_dummy`: it always stays, and its salary dummy
      says whether it has a salary. */
  function SalaryRow(row: Row): (r: Option<Row>)
    ensures r.Some?
    ensures Get(r.value, SalaryDummy) == Bool(Get(row, Salary) != NA)
    ensures Agree(r.value, row, {SalaryDummy})
  {
    Some(row[SalaryDummy := Bool(Get(row, Salary) != NA)])
  }

  function SalaryStep(): Step {
    (r: Row) => SalaryRow(r)
  }

  function CleanSalaryDummy(data: Frame): (g: Frame)
    requires Salary in data.columns
    ensures g.columns == AddColumn(data.columns, SalaryDummy)
    ensures g.entries == RowsOf(data.entries, SalaryStep())
    ensures Labels(g) == Labels(data) && Retains(g, data)
  {
    var g := Assign(data, SalaryDummy, NotNull(Salary));
    AssignRows(data, SalaryDummy, NotNull(Salary));
    RowsOfSame(data.entries, AssignStep(SalaryDummy, NotNull(Salary)), SalaryStep());
    RowsOfRetains(g, data, SalaryStep());
    g
  }

  // ---------------------------------------------------------------------------
  // __clean_advertiser_type_value

  /** One row under `__clean_advertiser_type_value`: it stays, unchanged, exactly
      when its advertiser is a direct employer. */
  function AdvertiserRow(row: Row): (r: Option<Row>)
    ensures r.Some? <==> Get(row, AdvertiserLabel) == Str(DirectEmployer)
    ensures r.Some? ==> r.value == row
  {
    if Get(row, AdvertiserLabel) == Str(DirectEmployer) then Some(row) else None
  }

  function AdvertiserStep(): Step {
    (r: Row) => AdvertiserRow(r)
  }

  function CleanAdvertiserType(data: Frame): (g: Frame)
    requires AdvertiserLabel in data.columns
    ensures g.columns == data.columns
    ensures g.entries == RowsOf(data.entries, AdvertiserStep())
    ensures Retains(g, data)
  {
    var present := DropNA(data, AdvertiserLabel);
    var g := Select(present, Equals(AdvertiserLabel, DirectEmployer));
    DropNARows(data, AdvertiserLabel);
    Chain2(data.entries, KeepStep(NotNA(AdvertiserLabel)), KeepStep(Equals(AdvertiserLabel, DirectEmployer)), AdvertiserStep());
    RowsOfRetains(g, data, AdvertiserStep());
    g
  }

  // ---------------------------------------------------------------------------
  // __clean_profession_code, __clean_job_ID, __clean_org_ID

  /** One row under the identifier cleaning of column `c`: it leaves when `c` is
      missing; otherwise `c` is made numeric, NaN where it does not parse. */
  function IdentifierRow(row: Row, c: string, parse: Parser): (r: Option<Row>)
    ensures r.None? <==> Get(row, c) == NA
    ensures r.Some? ==>
      && Get(r.value, c) == ToNumeric(Get(row, c), parse)
      && (Get(r.value, c).Num? || Get(r.value, c).NA?)
      && Agree(r.value, row, {c})
  {
    if Get(row, c) == NA then None else Some(row[c := ToNumeric(Get(row, c), parse)])
  }

  function IdentifierStep(c: string, parse: Parser): Step {
    (r: Row) => IdentifierRow(r, c, parse)
  }

  function CleanIdentifier(data: Frame, c: string, parse: Parser): (g: Frame)
    requires c in data.columns
    ensures g.columns == data.columns
    ensures g.entries == RowsOf(data.entries, IdentifierStep(c, parse))
    ensures Retains(g, data)
  {
    var present := DropNA(data, c);
    var g := MapColumn(present, c, Coerce(parse));
    DropNARows(data, c);
    MapColumnRows(present, c, Coerce(parse));
    Chain2(data.entries, KeepStep(NotNA(c)), MapStep(c, Coerce(parse)), IdentifierStep(c, parse));
    RowsOfRetains(g, data, IdentifierStep(c, parse));
    g
  }

  // ---------------------------------------------------------------------------
  // __clean_working_hours, __clean_orga_industry_label

  function WorkingHoursStep(): Step {
    KeepStep(Equals(WorkingHours, RegularHours))
  }

  function CleanWorkingHours(data: Frame): (g: Frame)
    requires WorkingHours in data.columns
    ensures g.columns == data.columns
    ensures forall e | e in g.entries :: e in data.entries && Get(e.row, WorkingHours) == Str(RegularHours)
    ensures forall e | e in data.entries && Get(e.row, WorkingHours) == Str(RegularHours) :: e in g.entries
    ensures g.entries == RowsOf(data.entries, WorkingHoursStep())
    ensures Retains(g, data)
  {
    Select(data, Equals(WorkingHours, RegularHours))
  }

  function IndustryStep(): Step {
    KeepStep(NotNA(IndustryLabel))
  }

  function CleanIndustryLabel(data: Frame): (g: Frame)
    requires IndustryLabel in data.columns
    ensures g.columns == data.columns
    ensures forall e | e in g.entries :: e in data.entries && Get(e.row, IndustryLabel) != NA
    ensures forall e | e in data.entries && Get(e.row, IndustryLabel) != NA :: e in g.entries
    ensures g.entries == RowsOf(data.entries, IndustryStep())
    ensures Retains(g, data)
  {
    DropNARows(data, IndustryLabel);
    DropNA(data, IndustryLabel)
  }

  // ---------------------------------------------------------------------------
  // __clean_language

  /** One row under `__clean_language`: it stays exactly when its language is one
      of the nineteen listed; the cluster is "German" for German and
      "International" otherwise. */
  function LanguageRow(row: Row): (r: Option<Row>)
    ensures r.Some? <==> IsIn(Get(row, Language), Languages)
    ensures r.Some? ==>
      && (Get(r.value, LanguageCluster) == Str("German") <==> Get(row, Language) == Str("de"))
      && (Get(r.value, LanguageCluster) == Str("German") || Get(r.value, LanguageCluster) == Str("International"))
      && Agree(r.value, row, {LanguageCluster})
  {
    if IsIn(Get(row, Language), Languages) then
      Some(row[LanguageCluster := LanguageClusterOf(row)])
    else
      None
  }

  function LanguageClusterOf(row: Row): Cell {
    Choice(Equals(Language, "de"), "German", "International")(row)
  }

  function LanguageStep(): Step {
    (r: Row) => LanguageRow(r)
  }

  function CleanLanguage(data: Frame): (g: Frame)
    requires Language in data.columns
    ensures g.columns == AddColumn(data.columns, LanguageCluster)
    ensures g.entries == RowsOf(data.entries, LanguageStep())
    ensures Retains(g, data)
  {
    var cluster := Choice(Equals(Language, "de"), "German", "International");
    var listed := Select(data, In(Language, Languages));
    var g := Assign(listed, LanguageCluster, cluster);
    AssignRows(listed, LanguageCluster, cluster);
    Chain2(data.entries, KeepStep(In(Language, Languages)), AssignStep(LanguageCluster, cluster), LanguageStep());
    RowsOfRetains(g, data, LanguageStep());
    g
  }

  // ---------------------------------------------------------------------------
  // __clean_education_level

  /** One row under `__clean_education_level`: it leaves exactly when its level is
      "Unbekannt" or "Grundschule"; the cluster says whether the level is a
      university degree. */
  function EducationRow(row: Row): (r: Option<Row>)
    ensures r.None? <==> Get(row, EducationLabel) == Str(Unknown) || Get(row, EducationLabel) == Str(PrimarySchool)
    ensures r.Some? ==>
      && (Get(r.value, EducationCluster) == Str("University degree") <==> IsIn(Get(row, EducationLabel), University))
      && (Get(r.value, EducationCluster) == Str("University degree")
          || Get(r.value, EducationCluster) == Str("Non university degree"))
      && Agree(r.value, row, {EducationCluster})
  {
    var level := Get(row, EducationLabel);
    if level == Str(Unknown) || level == Str(PrimarySchool) then None
    else Some(row[EducationCluster := EducationClusterOf(row)])
  }

  function EducationClusterOf(row: Row): Cell {
    Choice(In(EducationLabel, University), "University degree", "Non university degree")(row)
  }

  function EducationStep(): Step {
    (r: Row) => EducationRow(r)
  }

  /** Rows are dropped by label; with repeated labels a dropped label takes every
      row that carries it, so the row-by-row reading needs distinct labels. */
  function CleanEducationLevel(data: Frame): (g: Frame)
    requires EducationLabel in data.columns
    ensures g.columns == AddColumn(data.columns, EducationCluster)
    ensures forall e | e in g.entries :: Get(e.row, EducationLabel) != Str(Unknown) && Get(e.row, EducationLabel) != Str(PrimarySchool)
    ensures DistinctLabels(data) ==> g.entries == RowsOf(data.entries, EducationStep())
    ensures Retains(g, data)
  {
    var cluster := Choice(In(EducationLabel, University), "University degree", "Non university degree");
    var known := DropWhere(data, Equals(EducationLabel, Unknown));
    var schooled := DropWhere(known, Equals(EducationLabel, PrimarySchool));
    var g := Assign(schooled, EducationCluster, cluster);
    AssignRows(schooled, EducationCluster, cluster);
    RowsOfRetains(g, schooled, AssignStep(EducationCluster, cluster));
    RetainsTrans(g, schooled, known);
    RetainsTrans(g, known, data);
    AssignKeepsCells(schooled, EducationCluster, cluster, EducationLabel,
      (x: Cell) => x != Str(Unknown) && x != Str(PrimarySchool));
    if DistinctLabels(data) then
      EducationRows(data, known, schooled, g);
      g
    else
      g
  }

  lemma EducationRows(data: Frame, known: Frame, schooled: Frame, g: Frame)
    requires DistinctLabels(data)
    requires known == DropWhere(data, Equals(EducationLabel, Unknown))
    requires schooled == DropWhere(known, Equals(EducationLabel, PrimarySchool))
    requires g == Assign(schooled, EducationCluster, Choice(In(EducationLabel, University), "University degree", "Non university degree"))
    ensures g.entries == RowsOf(data.entries, EducationStep())
  {
    var cluster := Choice(In(EducationLabel, University), "University degree", "Non university degree");
    DropWhereRows(data, Equals(EducationLabel, Unknown), Differs(EducationLabel, Unknown));
    RetainsDistinct(known, data);
    DropWhereRows(known, Equals(EducationLabel, PrimarySchool), Differs(EducationLabel, PrimarySchool));
    AssignRows(schooled, EducationCluster, cluster);
    EducationChain();
    Chain3(data.entries, KeepStep(Differs(EducationLabel, Unknown)), KeepStep(Differs(EducationLabel, PrimarySchool)),
      AssignStep(EducationCluster, cluster), EducationStep());
  }

  lemma EducationChain()
    ensures forall r: Row :: EducationStep()(r) == Then3(KeepStep(Differs(EducationLabel, Unknown)),
      KeepStep(Differs(EducationLabel, PrimarySchool)),
      AssignStep(EducationCluster, Choice(In(EducationLabel, University), "University degree", "Non university degree")), r)
  {
  }

  // ---------------------------------------------------------------------------
  // __clean_dates

  /** One row under `__clean_dates`: it always stays; its date is parsed, and its
      quarter and month are those of the parsed date. */
  function DatesRow(row: Row, lib: Library): (r: Option<Row>)
    ensures r.Some?
    ensures Get(r.value, Date) == lib.toDate(Get(row, Date))
    ensures Get(r.value, Quarter) == lib.quarter(Get(r.value, Date))
    ensures Get(r.value, Month) == lib.month(Get(r.value, Date))
    ensures Agree(r.value, row, {Date, Quarter, Month})
  {
    var d := lib.toDate(Get(row, Date));
    Some(row[Date := d][Quarter := lib.quarter(d)][Month := lib.month(d)])
  }

  function DatesStep(lib: Library): Step {
    (r: Row) => DatesRow(r, lib)
  }

  function CleanDates(data: Frame, lib: Library): (g: Frame)
    requires Date in data.columns
    ensures g.columns == AddColumn(AddColumn(data.columns, Quarter), Month)
    ensures g.entries == RowsOf(data.entries, DatesStep(lib))
    ensures Labels(g) == Labels(data) && Retains(g, data)
  {
    var parsed := MapColumn(data, Date, lib.toDate);
    var quartered := Assign(parsed, Quarter, Of(Date, lib.quarter));
    var g := Assign(quartered, Month, Of(Date, lib.month));
    DatesRows(data, lib);
    RowsOfRetains(g, data, DatesStep(lib));
    g
  }

  lemma DatesRows(data: Frame, lib: Library)
    ensures
      var parsed := MapColumn(data, Date, lib.toDate);
      var quartered := Assign(parsed, Quarter, Of(Date, lib.quarter));
      Assign(quartered, Month, Of(Date, lib.month)).entries == RowsOf(data.entries, DatesStep(lib))
  {
    var parsed := MapColumn(data, Date, lib.toDate);
    var quartered := Assign(parsed, Quarter, Of(Date, lib.quarter));
    MapColumnRows(data, Date, lib.toDate);
    AssignRows(parsed, Quarter, Of(Date, lib.quarter));
    AssignRows(quartered, Month, Of(Date, lib.month));
    DatesChain(lib);
    Chain3(data.entries, MapStep(Date, lib.toDate), AssignStep(Quarter, Of(Date, lib.quarter)),
      AssignStep(Month, Of(Date, lib.month)), DatesStep(lib));
  }

  lemma DatesChain(lib: Library)
    ensures forall r: Row :: DatesStep(lib)(r) == Then3(MapStep(Date, lib.toDate),
      AssignStep(Quarter, Of(Date, lib.quarter)), AssignStep(Month, Of(Date, lib.month)), r)
  {
    forall r: Row
      ensures DatesStep(lib)(r) == Then3(MapStep(Date, lib.toDate),
        AssignStep(Quarter, Of(Date, lib.quarter)), AssignStep(Month, Of(Date, lib.month)), r)
    {
      var d := lib.toDate(Get(r, Date));
      RowTwice(r, Date, d, d);
      assert Get(r[Date := d][Quarter := lib.quarter(d)], Date) == d;
    }
  }

  // ---------------------------------------------------------------------------
  // __clean_firm_size

  /** One row under `__clean_firm_size`: it stays, unchanged, exactly when its firm
      size is one of the three large classes. */
  function FirmSizeRow(row: Row): (r: Option<Row>)
    ensures r.Some? <==> IsIn(Get(row, SizeLabel), FirmSizes)
    ensures r.Some? ==> r.value == row
  {
    if IsIn(Get(row, SizeLabel), FirmSizes) then Some(row) else None
  }

  function FirmSizeStep(): Step {
    (r: Row) => FirmSizeRow(r)
  }

  function CleanFirmSize(data: Frame): (g: Frame)
    requires SizeLabel in data.columns
    ensures g.columns == data.columns
    ensures g.entries == RowsOf(data.entries, FirmSizeStep())
    ensures Retains(g, data)
  {
    var present := DropNA(data, SizeLabel);
    var known := Select(present, Differs(SizeLabel, Unknown));
    var again := Select(known, Differs(SizeLabel, Unknown));
    var g := Select(again, In(SizeLabel, FirmSizes));
    FirmSizeRows(data, present, known, again);
    RowsOfRetains(g, data, FirmSizeStep());
    g
  }

  lemma FirmSizeRows(data: Frame, present: Frame, known: Frame, again: Frame)
    requires present.entries == DropNA(data, SizeLabel).entries
    requires known.entries == RowsOf(present.entries, KeepStep(Differs(SizeLabel, Unknown)))
    requires again.entries == RowsOf(known.entries, KeepStep(Differs(SizeLabel, Unknown)))
    ensures RowsOf(again.entries, KeepStep(In(SizeLabel, FirmSizes))) == RowsOf(data.entries, FirmSizeStep())
  {
    DropNARows(data, SizeLabel);
    FirmSizeChain();
    Chain4(data.entries, KeepStep(NotNA(SizeLabel)), KeepStep(Differs(SizeLabel, Unknown)),
      KeepStep(Differs(SizeLabel, Unknown)), KeepStep(In(SizeLabel, FirmSizes)), FirmSizeStep());
  }

  lemma FirmSizeChain()
    ensures forall r: Row :: FirmSizeStep()(r) == Then4(KeepStep(NotNA(SizeLabel)), KeepStep(Differs(SizeLabel, Unknown)),
      KeepStep(Differs(SizeLabel, Unknown)), KeepStep(In(SizeLabel, FirmSizes)), r)
  {
  }

  // ---------------------------------------------------------------------------
  // __clean_isco_code

  /** `data[c] == 9999999999` on one row. */
  function IsSentinel(c: string): Row -> bool {
    (r: Row) => Get(r, c) == Num(IscoSentinel)
  }

  function NotSentinel(c: string): Row -> bool {
    (r: Row) => Get(r, c) != Num(IscoSentinel)
  }

  /** One row under `__clean_isco_code`: its code is made numeric; it leaves exactly
      when that number is the sentinel; otherwise its two aggregates are the
      prefixes of the numeric code. */
  function IscoRow(row: Row, lib: Library): (r: Option<Row>)
    ensures var n := ToNumeric(Get(row, IscoCode), lib.parse);
      && (r.None? <==> n == Num(IscoSentinel))
      && (r.Some? ==>
            && Get(r.value, IscoCode) == n
            && Get(r.value, IscoAgg1) == lib.isco3(n)
            && Get(r.value, IscoAgg2) == lib.isco2(n)
            && Agree(r.value, row, {IscoCode, IscoAgg1, IscoAgg2}))
  {
    var n := ToNumeric(Get(row, IscoCode), lib.parse);
    if n == Num(IscoSentinel) then None
    else Some(row[IscoCode := n][IscoAgg1 := lib.isco3(n)][IscoAgg2 := lib.isco2(n)])
  }

  function IscoStep(lib: Library): Step {
    (r: Row) => IscoRow(r, lib)
  }

  function CleanIscoCode(data: Frame, lib: Library): (g: Frame)
    requires IscoCode in data.columns
    ensures g.columns == AddColumn(AddColumn(data.columns, IscoAgg1), IscoAgg2)
    ensures forall e | e in g.entries :: Get(e.row, IscoCode) != Num(IscoSentinel)
    ensures DistinctLabels(data) ==> g.entries == RowsOf(data.entries, IscoStep(lib))
    ensures Retains(g, data)
  {
    var coerced := MapColumn(data, IscoCode, Coerce(lib.parse));
    var meaningful := DropWhere(coerced, IsSentinel(IscoCode));
    var first := Assign(meaningful, IscoAgg1, Of(IscoCode, lib.isco3));
    var g := Assign(first, IscoAgg2, Of(IscoCode, lib.isco2));
    AssignKeepsCells(meaningful, IscoAgg1, Of(IscoCode, lib.isco3), IscoCode, (x: Cell) => x != Num(IscoSentinel));
    AssignKeepsCells(first, IscoAgg2, Of(IscoCode, lib.isco2), IscoCode, (x: Cell) => x != Num(IscoSentinel));
    IscoRetains(data, coerced, meaningful, first, g, lib);
    if DistinctLabels(data) then
      IscoRows(data, coerced, meaningful, first, g, lib);
      g
    else
      g
  }

  /** Adding column `c` leaves every other column's cells as they were. */
  lemma AssignKeepsCells(f: Frame, c: string, h: Row -> Cell, d: string, ok: Cell -> bool)
    requires c != d
    requires forall e | e in f.entries :: ok(Get(e.row, d))
    ensures forall e | e in Assign(f, c, h).entries :: ok(Get(e.row, d))
  {
    var g := Assign(f, c, h);
    forall e | e in g.entries
      ensures ok(Get(e.row, d))
    {
      var i :| 0 <= i < |g.entries| && g.entries[i] == e;
      assert f.entries[i] in f.entries;
    }
  }

  lemma IscoRetains(data: Frame, coerced: Frame, meaningful: Frame, first: Frame, g: Frame, lib: Library)
    requires coerced == MapColumn(data, IscoCode, Coerce(lib.parse))
    requires meaningful == DropWhere(coerced, IsSentinel(IscoCode))
    requires first == Assign(meaningful, IscoAgg1, Of(IscoCode, lib.isco3))
    requires g == Assign(first, IscoAgg2, Of(IscoCode, lib.isco2))
    ensures Retains(g, data) && Retains(meaningful, data)
  {
    RetainsTrans(meaningful, coerced, data);
    RetainsTrans(first, meaningful, data);
    RetainsTrans(g, first, data);
  }

  lemma IscoRows(data: Frame, coerced: Frame, meaningful: Frame, first: Frame, g: Frame, lib: Library)
    requires DistinctLabels(data)
    requires coerced == MapColumn(data, IscoCode, Coerce(lib.parse))
    requires meaningful == DropWhere(coerced, IsSentinel(IscoCode))
    requires first == Assign(meaningful, IscoAgg1, Of(IscoCode, lib.isco3))
    requires g == Assign(first, IscoAgg2, Of(IscoCode, lib.isco2))
    ensures g.entries == RowsOf(data.entries, IscoStep(lib))
  {
    MapColumnRows(data, IscoCode, Coerce(lib.parse));
    RetainsDistinct(coerced, data);
    DropWhereRows(coerced, IsSentinel(IscoCode), NotSentinel(IscoCode));
    AssignRows(meaningful, IscoAgg1, Of(IscoCode, lib.isco3));
    AssignRows(first, IscoAgg2, Of(IscoCode, lib.isco2));
    IscoChain(lib);
    Chain4(data.entries, MapStep(IscoCode, Coerce(lib.parse)), KeepStep(NotSentinel(IscoCode)),
      AssignStep(IscoAgg1, Of(IscoCode, lib.isco3)), AssignStep(IscoAgg2, Of(IscoCode, lib.isco2)), IscoStep(lib));
  }

  lemma IscoChain(lib: Library)
    ensures forall r: Row :: IscoStep(lib)(r) == Then4(MapStep(IscoCode, Coerce(lib.parse)), KeepStep(NotSentinel(IscoCode)),
      AssignStep(IscoAgg1, Of(IscoCode, lib.isco3)), AssignStep(IscoAgg2, Of(IscoCode, lib.isco2)), r)
  {
    forall r: Row
      ensures IscoStep(lib)(r) == Then4(MapStep(IscoCode, Coerce(lib.parse)), KeepStep(NotSentinel(IscoCode)),
        AssignStep(IscoAgg1, Of(IscoCode, lib.isco3)), AssignStep(IscoAgg2, Of(IscoCode, lib.isco2)), r)
    {
      var n := ToNumeric(Get(r, IscoCode), lib.parse);
      RowTwice(r, IscoCode, n, n);
      assert Get(r[IscoCode := n][IscoAgg1 := lib.isco3(n)], IscoCode) == n;
    }
  }
}
