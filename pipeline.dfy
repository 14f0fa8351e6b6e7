/** `full_dataset_cleaning` of functions_cleaning.py: the fifteen cleaning steps
    of `Cleaning` applied in order to the records whose organisation location is
    shared with another record, and what a record that comes out of them looks
    like. */
module FullCleaning {
  import opened Wrappers
  import opened Sequences
  import opened Frames
  import opened RowSteps
  import opened Cleaning
  import Distance

  /** The columns the cleaning reads, in the order it first reads them. */
  const RequiredColumns := [
    Distance.OrgName, Duration, PostingCount, ContractLabel, WorkingHours, Salary, AdvertiserLabel,
    IscoCode, JobId, OrgId, IndustryLabel, Language, EducationLabel, Date, SizeLabel]

  /** The columns the cleaning adds. */
  const AddedColumns: set<string> := {
    LogDuration, ContractCluster, SalaryDummy, LanguageCluster, EducationCluster, Quarter, Month, IscoAgg1, IscoAgg2}

  /** The first of `wanted` that is not among `present`, if any. */
  function FirstMissing(wanted: seq<string>, present: seq<string>): (r: Option<string>)
    ensures r.None? <==> forall c | c in wanted :: c in present
    ensures r.Some? ==> exists i | 0 <= i < |wanted| ::
      wanted[i] == r.value && r.value !in present && forall j | 0 <= j < i :: wanted[j] in present
    decreases |wanted|
  {
    if |wanted| == 0 then None
    else if wanted[0] !in present then Some(wanted[0])
    else
      var r := FirstMissing(wanted[1..], present);
      assert wanted == [wanted[0]] + wanted[1..];
      if r.Some? then
        var i :| 0 <= i < |wanted[1..]| && wanted[1..][i] == r.value && r.value !in present
          && forall j | 0 <= j < i :: wanted[1..][j] in present;
        assert wanted[i + 1] == r.value;
        r
      else
        r
  }

  /** When none of the required columns is missing, each of them is present. */
  lemma RequiredPresent(columns: seq<string>)
    requires FirstMissing(RequiredColumns, columns).None?
    ensures Distance.OrgName in columns && Duration in columns && PostingCount in columns
    ensures ContractLabel in columns && WorkingHours in columns && Salary in columns
    ensures AdvertiserLabel in columns && IscoCode in columns && JobId in columns && OrgId in columns
    ensures IndustryLabel in columns && Language in columns && EducationLabel in columns
    ensures Date in columns && SizeLabel in columns
  {
    var r := RequiredColumns;
    assert r[0] in r && r[1] in r && r[2] in r && r[3] in r && r[4] in r;
    assert r[5] in r && r[6] in r && r[7] in r && r[8] in r && r[9] in r;
    assert r[10] in r && r[11] in r && r[12] in r && r[13] in r && r[14] in r;
  }

  /** The row steps `full_dataset_cleaning` applies after dropping the names seen
      once, in its order. */
  function CleaningSteps(lib: Library): seq<Step> {
    RecordSteps(lib) + IdentifierSteps(lib) + LabelSteps(lib)
  }

  function RecordSteps(lib: Library): seq<Step> {
    [DurationStep(lib), PostingStep(lib.parse), ContractStep(), SalaryStep(), AdvertiserStep()]
  }

  function IdentifierSteps(lib: Library): seq<Step> {
    [IdentifierStep(IscoCode, lib.parse), IdentifierStep(JobId, lib.parse), IdentifierStep(OrgId, lib.parse),
     WorkingHoursStep(), IndustryStep()]
  }

  function LabelSteps(lib: Library): seq<Step> {
    [LanguageStep(), EducationStep(), DatesStep(lib), FirmSizeStep(), IscoStep(lib)]
  }

  lemma CleaningPipeline(s: seq<Entry>, lib: Library)
    ensures RowsOf(RowsOf(RowsOf(s, PipelineStep(RecordSteps(lib))), PipelineStep(IdentifierSteps(lib))),
                   PipelineStep(LabelSteps(lib)))
            == RowsOf(s, PipelineStep(CleaningSteps(lib)))
  {
    RowsOfPipelineAppend(s, RecordSteps(lib), IdentifierSteps(lib));
    RowsOfPipelineAppend(s, RecordSteps(lib) + IdentifierSteps(lib), LabelSteps(lib));
  }

  // ---------------------------------------------------------------------------
  // What a cleaned record looks like

  /** The columns steps 1 to 5, 6 to 10 and 11 to 15 write. */
  const RecordChanges: set<string> := {Duration, LogDuration, PostingCount, ContractCluster, SalaryDummy}
  const IdentifierChanges: set<string> := {IscoCode, JobId, OrgId}
  const LabelChanges: set<string> := {LanguageCluster, EducationCluster, Date, Quarter, Month, IscoCode, IscoAgg1, IscoAgg2}

  /** The columns the fifteen steps write. */
  const CleaningChanges: set<string> := RecordChanges + IdentifierChanges + LabelChanges

  predicate DurationOk(r: Row) {
    Get(r, Duration).Num? && Get(r, Duration).x <= MaxDuration
  }

  predicate PostingOk(r: Row) {
    Get(r, PostingCount).Num? && Get(r, PostingCount).x <= MaxPostings
  }

  predicate ContractOk(r: Row) {
    && IsIn(Get(r, ContractLabel), ContractLabels)
    && (Get(r, ContractCluster) == Str("Permanent") <==> IsIn(Get(r, ContractLabel), PermanentContracts))
    && Get(r, WorkingHours) == Str(RegularHours)
  }

  predicate SalaryOk(r: Row) {
    Get(r, SalaryDummy) == Bool(Get(r, Salary) != NA)
  }

  predicate AdvertiserOk(r: Row) {
    Get(r, AdvertiserLabel) == Str(DirectEmployer)
  }

  /** What steps 1 to 5 promise of a record they let through. */
  predicate RecordsClean(r: Row) {
    DurationOk(r) && PostingOk(r) && ContractOk(r) && SalaryOk(r) && AdvertiserOk(r)
  }

  predicate Numeric(r: Row, c: string) {
    Get(r, c).Num? || Get(r, c).NA?
  }

  /** What steps 6 to 10 promise of a record they let through. */
  predicate IdentifiersClean(r: Row) {
    && Numeric(r, JobId) && Numeric(r, OrgId)
    && Get(r, WorkingHours) == Str(RegularHours) && Get(r, IndustryLabel) != NA
  }

  predicate LanguageOk(r: Row) {
    && IsIn(Get(r, Language), Languages)
    && (Get(r, LanguageCluster) == Str("German") <==> Get(r, Language) == Str("de"))
  }

  predicate EducationOk(r: Row) {
    && Get(r, EducationLabel) != Str(Unknown) && Get(r, EducationLabel) != Str(PrimarySchool)
    && (Get(r, EducationCluster) == Str("University degree") <==> IsIn(Get(r, EducationLabel), University))
  }

  predicate SizeOk(r: Row) {
    IsIn(Get(r, SizeLabel), FirmSizes)
  }

  predicate IscoOk(r: Row) {
    (Get(r, IscoCode).Num? || Get(r, IscoCode).NA?) && Get(r, IscoCode) != Num(IscoSentinel)
  }

  /** What steps 11 to 15 promise of a record they let through. */
  predicate LabelsClean(r: Row) {
    LanguageOk(r) && EducationOk(r) && SizeOk(r) && IscoOk(r)
  }

  lemma LanguageKept(row: Row, r: Row)
    requires LanguageRow(row) == Some(r)
    ensures LanguageOk(r) && Agree(r, row, {LanguageCluster})
  {
    Carry(r, row, {LanguageCluster}, Language);
  }

  lemma EducationKept(row: Row, r: Row)
    requires EducationRow(row) == Some(r)
    ensures EducationOk(r) && Agree(r, row, {EducationCluster})
  {
    Carry(r, row, {EducationCluster}, EducationLabel);
  }

  /** The columns steps 11 to 15 check are not among those the later steps write. */
  lemma LabelColumnsApart()
    ensures Language !in {EducationCluster} && LanguageCluster !in {EducationCluster}
    ensures Language !in {Date, Quarter, Month} && LanguageCluster !in {Date, Quarter, Month}
    ensures EducationLabel !in {Date, Quarter, Month} && EducationCluster !in {Date, Quarter, Month}
    ensures Language !in {IscoCode, IscoAgg1, IscoAgg2} && LanguageCluster !in {IscoCode, IscoAgg1, IscoAgg2}
    ensures EducationLabel !in {IscoCode, IscoAgg1, IscoAgg2} && EducationCluster !in {IscoCode, IscoAgg1, IscoAgg2}
    ensures SizeLabel !in {IscoCode, IscoAgg1, IscoAgg2}
  {
  }

  lemma LabelsSurvivor(row: Row, lib: Library)
    requires Pipeline(LabelSteps(lib), row).Some?
    ensures LabelsClean(Pipeline(LabelSteps(lib), row).value)
    ensures Agree(Pipeline(LabelSteps(lib), row).value, row, LabelChanges)
  {
    var r1, r2, r3, r4 := Pipeline5Survivor(LanguageStep(), EducationStep(), DatesStep(lib), FirmSizeStep(), IscoStep(lib), row);
    var out := Pipeline(LabelSteps(lib), row).value;
    LanguageKept(row, r1);
    EducationKept(r1, r2);
    LabelRows5(row, r1, r2, r3, r4, out);
  }

  /** Steps 11 to 15 one after the other: each survivor check made on the way
      still holds at the end, and only the columns these steps write differ. */
  lemma LabelRows5(row: Row, r1: Row, r2: Row, r3: Row, r4: Row, out: Row)
    requires LanguageOk(r1) && Agree(r1, row, {LanguageCluster})
    requires EducationOk(r2) && Agree(r2, r1, {EducationCluster})
    requires Agree(r3, r2, {Date, Quarter, Month})
    requires SizeOk(r3) && r4 == r3
    requires IscoOk(out) && Agree(out, r4, {IscoCode, IscoAgg1, IscoAgg2})
    ensures LabelsClean(out) && Agree(out, row, LabelChanges)
  {
    LabelColumnsApart();
    Carry(r2, r1, {EducationCluster}, Language);
    Carry(r2, r1, {EducationCluster}, LanguageCluster);
    Carry(r3, r2, {Date, Quarter, Month}, Language);
    Carry(r3, r2, {Date, Quarter, Month}, LanguageCluster);
    Carry(r3, r2, {Date, Quarter, Month}, EducationLabel);
    Carry(r3, r2, {Date, Quarter, Month}, EducationCluster);
    Carry(out, r4, {IscoCode, IscoAgg1, IscoAgg2}, Language);
    Carry(out, r4, {IscoCode, IscoAgg1, IscoAgg2}, LanguageCluster);
    Carry(out, r4, {IscoCode, IscoAgg1, IscoAgg2}, EducationLabel);
    Carry(out, r4, {IscoCode, IscoAgg1, IscoAgg2}, EducationCluster);
    Carry(out, r4, {IscoCode, IscoAgg1, IscoAgg2}, SizeLabel);
    AgreeTrans(r2, r1, row, {EducationCluster}, {LanguageCluster});
    AgreeTrans(r3, r2, row, {Date, Quarter, Month}, {EducationCluster} + {LanguageCluster});
    AgreeTrans(out, r4, row, {IscoCode, IscoAgg1, IscoAgg2}, {Date, Quarter, Month} + ({EducationCluster} + {LanguageCluster}));
    assert {IscoCode, IscoAgg1, IscoAgg2} + ({Date, Quarter, Month} + ({EducationCluster} + {LanguageCluster})) == LabelChanges;
  }

  lemma ContractKept(row: Row, r: Row)
    requires ContractRow(row) == Some(r)
    ensures ContractOk(r) && Agree(r, row, {ContractCluster})
  {
    Carry(r, row, {ContractCluster}, ContractLabel);
    Carry(r, row, {ContractCluster}, WorkingHours);
  }

  lemma SalaryKept(row: Row, r: Row)
    requires SalaryRow(row) == Some(r)
    ensures SalaryOk(r) && Agree(r, row, {SalaryDummy})
  {
    Carry(r, row, {SalaryDummy}, Salary);
  }

  lemma RecordColumnsApart()
    ensures Duration !in {PostingCount} && Duration !in {ContractCluster} && Duration !in {SalaryDummy}
    ensures PostingCount !in {ContractCluster} && PostingCount !in {SalaryDummy}
    ensures ContractLabel !in {SalaryDummy} && ContractCluster !in {SalaryDummy} && WorkingHours !in {SalaryDummy}
  {
  }

  lemma RecordsSurvivor(row: Row, lib: Library)
    requires Pipeline(RecordSteps(lib), row).Some?
    ensures RecordsClean(Pipeline(RecordSteps(lib), row).value)
    ensures Agree(Pipeline(RecordSteps(lib), row).value, row, RecordChanges)
  {
    var r1, r2, r3, r4 := Pipeline5Survivor(DurationStep(lib), PostingStep(lib.parse), ContractStep(), SalaryStep(), AdvertiserStep(), row);
    var out := Pipeline(RecordSteps(lib), row).value;
    ContractKept(r2, r3);
    SalaryKept(r3, r4);
    RecordRows5(row, r1, r2, r3, r4, out);
  }

  /** Steps 1 to 5 one after the other. */
  lemma RecordRows5(row: Row, r1: Row, r2: Row, r3: Row, r4: Row, out: Row)
    requires DurationOk(r1) && Agree(r1, row, {Duration, LogDuration})
    requires PostingOk(r2) && Agree(r2, r1, {PostingCount})
    requires ContractOk(r3) && Agree(r3, r2, {ContractCluster})
    requires SalaryOk(r4) && Agree(r4, r3, {SalaryDummy})
    requires AdvertiserOk(out) && out == r4
    ensures RecordsClean(out) && Agree(out, row, RecordChanges)
  {
    RecordColumnsApart();
    Carry(r2, r1, {PostingCount}, Duration);
    Carry(r3, r2, {ContractCluster}, Duration);
    Carry(r3, r2, {ContractCluster}, PostingCount);
    Carry(r4, r3, {SalaryDummy}, Duration);
    Carry(r4, r3, {SalaryDummy}, PostingCount);
    Carry(r4, r3, {SalaryDummy}, ContractLabel);
    Carry(r4, r3, {SalaryDummy}, ContractCluster);
    Carry(r4, r3, {SalaryDummy}, WorkingHours);
    AgreeTrans(r2, r1, row, {PostingCount}, {Duration, LogDuration});
    AgreeTrans(r3, r2, row, {ContractCluster}, {PostingCount} + {Duration, LogDuration});
    AgreeTrans(r4, r3, row, {SalaryDummy}, {ContractCluster} + ({PostingCount} + {Duration, LogDuration}));
    assert {SalaryDummy} + ({ContractCluster} + ({PostingCount} + {Duration, LogDuration})) == RecordChanges;
  }

  lemma IdentifiersSurvivor(row: Row, lib: Library)
    requires Pipeline(IdentifierSteps(lib), row).Some?
    ensures IdentifiersClean(Pipeline(IdentifierSteps(lib), row).value)
    ensures Agree(Pipeline(IdentifierSteps(lib), row).value, row, IdentifierChanges)
  {
    var r1, r2, r3, r4 := Pipeline5Survivor(IdentifierStep(IscoCode, lib.parse), IdentifierStep(JobId, lib.parse),
      IdentifierStep(OrgId, lib.parse), WorkingHoursStep(), IndustryStep(), row);
    var out := Pipeline(IdentifierSteps(lib), row).value;
    IdentifierRows5(row, r1, r2, r3, r4, out);
  }

  /** Steps 6 to 10 one after the other. */
  lemma IdentifierRows5(row: Row, r1: Row, r2: Row, r3: Row, r4: Row, out: Row)
    requires Agree(r1, row, {IscoCode})
    requires Numeric(r2, JobId) && Agree(r2, r1, {JobId})
    requires Numeric(r3, OrgId) && Agree(r3, r2, {OrgId})
    requires r4 == r3 && Get(r4, WorkingHours) == Str(RegularHours)
    requires out == r4 && Get(out, IndustryLabel) != NA
    ensures IdentifiersClean(out) && Agree(out, row, IdentifierChanges)
  {
    assert JobId !in {OrgId};
    Carry(r3, r2, {OrgId}, JobId);
    AgreeTrans(r2, r1, row, {JobId}, {IscoCode});
    AgreeTrans(r3, r2, row, {OrgId}, {JobId} + {IscoCode});
    assert {OrgId} + ({JobId} + {IscoCode}) == IdentifierChanges;
  }

  /** The columns steps 1 to 10 check are not among those the later steps write. */
  lemma CheckedColumnsApart()
    ensures Duration !in IdentifierChanges && PostingCount !in IdentifierChanges
    ensures ContractLabel !in IdentifierChanges && ContractCluster !in IdentifierChanges
    ensures WorkingHours !in IdentifierChanges && SalaryDummy !in IdentifierChanges
    ensures Salary !in IdentifierChanges && AdvertiserLabel !in IdentifierChanges
    ensures Duration !in LabelChanges && PostingCount !in LabelChanges
    ensures ContractLabel !in LabelChanges && ContractCluster !in LabelChanges
    ensures WorkingHours !in LabelChanges && SalaryDummy !in LabelChanges
    ensures Salary !in LabelChanges && AdvertiserLabel !in LabelChanges
    ensures JobId !in LabelChanges && OrgId !in LabelChanges && IndustryLabel !in LabelChanges
  {
  }

  /** The three groups of steps one after the other. */
  lemma CleanedRows3(row: Row, x1: Row, x2: Row, out: Row)
    requires RecordsClean(x1) && Agree(x1, row, RecordChanges)
    requires IdentifiersClean(x2) && Agree(x2, x1, IdentifierChanges)
    requires LabelsClean(out) && Agree(out, x2, LabelChanges)
    ensures Cleaned(out) && Agree(out, row, CleaningChanges)
  {
    CheckedColumnsApart();
    AgreeTrans(out, x2, x1, LabelChanges, IdentifierChanges);
    Carry(out, x1, LabelChanges + IdentifierChanges, Duration);
    Carry(out, x1, LabelChanges + IdentifierChanges, PostingCount);
    Carry(out, x1, LabelChanges + IdentifierChanges, ContractLabel);
    Carry(out, x1, LabelChanges + IdentifierChanges, ContractCluster);
    Carry(out, x1, LabelChanges + IdentifierChanges, WorkingHours);
    Carry(out, x1, LabelChanges + IdentifierChanges, SalaryDummy);
    Carry(out, x1, LabelChanges + IdentifierChanges, Salary);
    Carry(out, x1, LabelChanges + IdentifierChanges, AdvertiserLabel);
    Carry(out, x2, LabelChanges, JobId);
    Carry(out, x2, LabelChanges, OrgId);
    Carry(out, x2, LabelChanges, IndustryLabel);
    AgreeTrans(out, x1, row, LabelChanges + IdentifierChanges, RecordChanges);
    assert (LabelChanges + IdentifierChanges) + RecordChanges == CleaningChanges;
  }

  /** A record `full_dataset_cleaning` keeps meets the rule of every step, and
      differs from the record it came from only in the columns the steps write. */
  predicate Cleaned(r: Row) {
    RecordsClean(r) && IdentifiersClean(r) && LabelsClean(r)
  }

  lemma CleanedRow(row: Row, lib: Library)
    requires Pipeline(CleaningSteps(lib), row).Some?
    ensures Cleaned(Pipeline(CleaningSteps(lib), row).value)
    ensures Agree(Pipeline(CleaningSteps(lib), row).value, row, CleaningChanges)
  {
    PipelineAppend(RecordSteps(lib) + IdentifierSteps(lib), LabelSteps(lib), row);
    PipelineAppend(RecordSteps(lib), IdentifierSteps(lib), row);
    var x1 := Pipeline(RecordSteps(lib), row).value;
    var x2 := Pipeline(IdentifierSteps(lib), x1).value;
    RecordsSurvivor(row, lib);
    IdentifiersSurvivor(x1, lib);
    LabelsSurvivor(x2, lib);
    CleanedRows3(row, x1, x2, Pipeline(LabelSteps(lib), x2).value);
  }

  /** Every record that comes out of the fifteen steps meets the rule of every
      step, and comes from a record that went in under the same label and differs
      from it only in the columns the steps write. */
  lemma CleanedEntries(s: seq<Entry>, lib: Library)
    ensures forall e | e in RowsOf(s, PipelineStep(CleaningSteps(lib))) ::
      && Cleaned(e.row)
      && exists d | d in s :: d.index == e.index && Agree(e.row, d.row, CleaningChanges)
  {
    var step := PipelineStep(CleaningSteps(lib));
    RowsOfMembers(s, step);
    forall e | e in RowsOf(s, step)
      ensures Cleaned(e.row) && exists d | d in s :: d.index == e.index && Agree(e.row, d.row, CleaningChanges)
    {
      var d :| d in s && d.index == e.index && step(d.row) == Some(e.row);
      CleanedRow(d.row, lib);
    }
  }

  /** The same for frames: the cleaned frame derives from the one it started from. */
  lemma CleanedFrame(g: Frame, base: Frame, dataset: Frame, lib: Library)
    requires g.entries == RowsOf(base.entries, PipelineStep(CleaningSteps(lib)))
    requires Derives(base, dataset, {})
    ensures forall e | e in g.entries :: Cleaned(e.row)
    ensures Derives(g, dataset, CleaningChanges)
  {
    CleanedEntries(base.entries, lib);
    DerivesTrans(g, base, dataset, CleaningChanges, {});
    assert CleaningChanges + {} == CleaningChanges;
  }

  /** `full_dataset_cleaning`: stops at the first column it reads that is absent
      (pandas' KeyError); otherwise drops the names seen once and applies the
      fifteen cleaning steps in order. Every row that comes out is a row that went
      in, under its own label and in its original order. */
  method FullDatasetCleaning(dataset: Frame, lib: Library) returns (result: Result<Frame, Error>)
    ensures result.Err? <==> FirstMissing(RequiredColumns, dataset.columns).Some?
    ensures result.Err? ==> result.error == MissingColumn(FirstMissing(RequiredColumns, dataset.columns).value)
    ensures result.Ok? ==> ColumnSet(result.value.columns) == ColumnSet(dataset.columns) + AddedColumns
    ensures result.Ok? ==> Retains(result.value, dataset)
    ensures result.Ok? && DistinctLabels(dataset) ==>
      && Distance.DeleteRowsWithUniqueValues(dataset, Distance.OrgName).Ok?
      && result.value.entries == RowsOf(Distance.DeleteRowsWithUniqueValues(dataset, Distance.OrgName).value.entries,
                                        PipelineStep(CleaningSteps(lib)))
      && (forall e | e in result.value.entries :: Cleaned(e.row))
      && Derives(result.value, dataset, CleaningChanges)
  {
    // Each step reads its columns before it adds any, and no added column is
    // read, so the first absent column read is the first absent required one.
    var missing := FirstMissing(RequiredColumns, dataset.columns);
    if missing.Some? {
      return Err(MissingColumn(missing.value));
    }
    RequiredPresent(dataset.columns);
    var data := Distance.DeleteRowsWithUniqueValues(dataset, Distance.OrgName).value;
    ghost var base := data;
    data := CleanRecords(data, lib);
    ghost var recorded := data;
    data := CleanIdentifiers(data, lib);
    ghost var identified := data;
    data := CleanLabels(data, lib);
    CleanedColumns(dataset.columns);
    RetainsTrans(identified, recorded, base);
    RetainsTrans(data, identified, base);
    RetainsTrans(data, base, dataset);
    if DistinctLabels(dataset) {
      RetainsDistinct(base, dataset);
      RetainsDistinct(recorded, base);
      RetainsDistinct(identified, base);
      CleaningPipeline(base.entries, lib);
      CleanedFrame(data, base, dataset, lib);
    }
    return Ok(data);
  }

  /** The columns after steps 11 to 15. */
  function LabelColumns(columns: seq<string>): seq<string> {
    AddColumn(AddColumn(AddColumn(AddColumn(AddColumn(AddColumn(columns,
      LanguageCluster), EducationCluster), Quarter), Month), IscoAgg1), IscoAgg2)
  }

  /** The columns `full_dataset_cleaning` ends with: those it was given and those it adds. */
  lemma CleanedColumns(columns: seq<string>)
    ensures ColumnSet(LabelColumns(AddColumn(AddColumn(AddColumn(columns, LogDuration), ContractCluster), SalaryDummy)))
         == ColumnSet(columns) + AddedColumns
  {
    ThreeColumns(columns, LogDuration, ContractCluster, SalaryDummy);
    var c3 := AddColumn(AddColumn(AddColumn(columns, LogDuration), ContractCluster), SalaryDummy);
    ThreeColumns(c3, LanguageCluster, EducationCluster, Quarter);
    var c6 := AddColumn(AddColumn(AddColumn(c3, LanguageCluster), EducationCluster), Quarter);
    ThreeColumns(c6, Month, IscoAgg1, IscoAgg2);
  }

  lemma ThreeColumns(columns: seq<string>, a: string, b: string, c: string)
    ensures ColumnSet(AddColumn(AddColumn(AddColumn(columns, a), b), c)) == ColumnSet(columns) + {a, b, c}
  {
  }

  /** Steps 1 to 5 of the cleaning: duration, posting count, contract type, salary
      dummy and advertiser type. */
  method CleanRecords(data: Frame, lib: Library) returns (out: Frame)
    requires Duration in data.columns && PostingCount in data.columns && ContractLabel in data.columns
    requires WorkingHours in data.columns && Salary in data.columns && AdvertiserLabel in data.columns
    ensures out.columns == AddColumn(AddColumn(AddColumn(data.columns, LogDuration), ContractCluster), SalaryDummy)
    ensures Retains(out, data)
    ensures out.entries == RowsOf(data.entries, PipelineStep(RecordSteps(lib)))
  {
    var timed := CleanDuration(data, lib);
    var posted := CleanPostingCount(timed, lib.parse);
    var contracted := CleanContractType(posted);
    var paid := CleanSalaryDummy(contracted);
    out := CleanAdvertiserType(paid);
    Retains5(data, timed, posted, contracted, paid, out);
    RowsOfPipeline5(data.entries, timed.entries, posted.entries, contracted.entries, paid.entries, out.entries,
      DurationStep(lib), PostingStep(lib.parse), ContractStep(), SalaryStep(), AdvertiserStep());
  }

  /** Steps 6 to 10: the three identifiers, working hours and industry. */
  method CleanIdentifiers(data: Frame, lib: Library) returns (out: Frame)
    requires IscoCode in data.columns && JobId in data.columns && OrgId in data.columns
    requires WorkingHours in data.columns && IndustryLabel in data.columns
    ensures out.columns == data.columns
    ensures Retains(out, data)
    ensures out.entries == RowsOf(data.entries, PipelineStep(IdentifierSteps(lib)))
  {
    var coded := CleanIdentifier(data, IscoCode, lib.parse);
    var jobs := CleanIdentifier(coded, JobId, lib.parse);
    var firms := CleanIdentifier(jobs, OrgId, lib.parse);
    var regular := CleanWorkingHours(firms);
    out := CleanIndustryLabel(regular);
    Retains5(data, coded, jobs, firms, regular, out);
    RowsOfPipeline5(data.entries, coded.entries, jobs.entries, firms.entries, regular.entries, out.entries,
      IdentifierStep(IscoCode, lib.parse), IdentifierStep(JobId, lib.parse), IdentifierStep(OrgId, lib.parse),
      WorkingHoursStep(), IndustryStep());
  }

  /** Steps 11 to 15: language, education level, dates, firm size and ISCO code. */
  method CleanLabels(data: Frame, lib: Library) returns (out: Frame)
    requires Language in data.columns && EducationLabel in data.columns && Date in data.columns
    requires SizeLabel in data.columns && IscoCode in data.columns
    ensures out.columns == LabelColumns(data.columns)
    ensures Retains(out, data)
    ensures DistinctLabels(data) ==> out.entries == RowsOf(data.entries, PipelineStep(LabelSteps(lib)))
  {
    var spoken := CleanLanguage(data);
    var schooled := CleanEducationLevel(spoken);
    var dated := CleanDates(schooled, lib);
    var sized := CleanFirmSize(dated);
    out := CleanIscoCode(sized, lib);
    LabelRows(data, spoken, schooled, dated, sized, out, lib);
  }

  lemma LabelRows(data: Frame, spoken: Frame, schooled: Frame, dated: Frame, sized: Frame, out: Frame, lib: Library)
    requires Retains(spoken, data) && Retains(schooled, spoken) && Retains(dated, schooled)
    requires Retains(sized, dated) && Retains(out, sized)
    requires spoken.entries == RowsOf(data.entries, LanguageStep())
    requires DistinctLabels(spoken) ==> schooled.entries == RowsOf(spoken.entries, EducationStep())
    requires dated.entries == RowsOf(schooled.entries, DatesStep(lib))
    requires sized.entries == RowsOf(dated.entries, FirmSizeStep())
    requires DistinctLabels(sized) ==> out.entries == RowsOf(sized.entries, IscoStep(lib))
    ensures Retains(out, data)
    ensures DistinctLabels(data) ==> out.entries == RowsOf(data.entries, PipelineStep(LabelSteps(lib)))
  {
    Retains5(data, spoken, schooled, dated, sized, out);
    if DistinctLabels(data) {
      RetainsDistinct(spoken, data);
      RetainsDistinct(schooled, spoken);
      RetainsTrans(sized, dated, schooled);
      RetainsDistinct(sized, schooled);
      RowsOfPipeline5(data.entries, spoken.entries, schooled.entries, dated.entries, sized.entries, out.entries,
        LanguageStep(), EducationStep(), DatesStep(lib), FirmSizeStep(), IscoStep(lib));
    }
  }
}
