# Distance hiring difficulties: record matching and cleaning

This project models, in Dafny, the two data-preparation modules of a study of
job advertisements. The study relates hiring difficulty to the distance between
a job and the organisation that advertises it.

- `functions_distance.py`, `create_distance_measures`: harmonises the
  organisation location names of the ads and drops names seen only once. It
  looks each distinct name up in a gazetteer of German cities by fuzzy string
  matching and copies the matched coordinates and score back onto the ads. It
  keeps the matches scoring at least 85, splits the job's own "lat,lon" text into
  two numbers and keeps only a whitelist of columns.
- `functions_cleaning.py`, `full_dataset_cleaning`: the same drop of names seen
  once, then fifteen steps in a fixed order. The steps top-code duration
  (365) and posting count (20), restrict contract type, advertiser, working
  hours, language and firm size to listed values, and drop two education
  levels. They cluster contract type, language and education level, make the
  identifiers numeric, parse the dates and remove the ISCO sentinel code
  9999999999.

A pandas DataFrame is a value `Frames.Frame`: an ordered list of column names,
plus rows that carry their index label and map column names to cells. A cell
is NaN, a string, a number or a boolean. Every pandas operation the scripts use
(boolean selection, `dropna`, column assignment, `.loc` writes, `drop` by
label, `to_numeric`) is a function on frames with its own contract. Two
relations between frames carry the "no row is ever added" promise:

- `Retains(g, f)`: the labels of `g`'s rows, in order, are a subsequence of
  `f`'s.
- `Derives(g, f, changed)`: every row of `g` comes from a row of `f` with the
  same label and differs from it only in the columns `changed`.

Each cleaning step is proved equal to a reference step on single rows
(`RowSteps.RowsOf`): a row either leaves or is rewritten, and the survivors
keep their order. The whole cleaning is proved to be the fifteen row steps
composed in the source's order. What a record that comes out of them looks like
is `FullCleaning.Cleaned`.

The loops of the source are methods with loop invariants, each proved against a
specification function:

- the best-match scan and its two callers;
- the outer loop of the gazetteer search;
- the join-back loop;
- the umlaut-replacement loop.

`Measures` follows `create_distance_measures` stage by stage. `DistanceMeasures`
is the first KeyError or ValueError a step up to the distance preset raises, or
the two frames returned. The errors of the distance loop, which is left out, are
not part of it.
On success each returned ad is a kept located ad carrying its `MeasuredRow`
(`MeasuredAds`). `MeasuresErrors` states when each error is raised.

The library calls are parameters. `fuzz.ratio` is a `Matching.Scorer`, and its
0..100 range is the predicate `Matching.InRange`, assumed where it is used.
`pd.to_numeric` on a string is a partial `Frames.Parser`. `np.log`,
`pd.to_datetime` with `.dt.quarter` and `.dt.month`, and the numeric ISCO
prefixes are the fields of `Cleaning.Library`.

Three behaviours of the code shape the model:

- `Series.replace(word, replacement)` replaces a cell only when the whole cell
  equals `word`; it is not a substring replace. After lower-casing, the
  capital entries of the table (`Ä`, `Ö`, `Ü`) can no longer match anything.
- A job-coordinate text whose piece does not parse makes `pd.to_numeric` raise,
  so the whole run fails. Such a record is not filtered out and the run does
  not go on.
- No per-stage counts of dropped records are produced.

## Model

| member | source | states |
|---|---|---|
| Matching.ScanFindsFirstMax | Python_Scripts/functions_distance.py:120-127 | the scan's index is -1 (and its score 0) exactly when no candidate scores above 0, an empty gazetteer included; otherwise it is the first candidate whose score is the maximum over all candidates, and the score is that maximum, above 0 |
| Matching.BestCandidate | Python_Scripts/functions_distance.py:120-127 | the loop with the running maximum and strict `>` ends with -1/0 exactly when nothing scores above 0, and otherwise with the first maximising candidate and its score |
| Matching.LaterDuplicateNeverChosen | Python_Scripts/functions_distance.py:125-127 | a candidate that repeats an earlier one is never chosen (ties go to the first) |
| Matching.FindBestMatch | Python_Scripts/functions_distance.py:145-170 | a KeyError exactly when `col1` is absent from `df1`, or `df1` has a row and `col2` is absent from `df2`, naming `col1` first; otherwise the dictionary has exactly one key per distinct value of `df1[col1]`, and each key maps to its best match among the values of `df2[col2]` |
| Matching.BestMatchIsFirstMax | Python_Scripts/functions_distance.py:152-167 | the stored best match is None exactly when no candidate scores above 0, and otherwise the first candidate with the maximum score |
| Strings.Strip | Python_Scripts/functions_distance.py:79 | `str.strip()` gives a slice of the input with whitespace on neither end, having removed only whitespace |
| Strings.StripStripped | Python_Scripts/functions_distance.py:79 | a string with no surrounding whitespace is its own strip |
| Strings.Lower | Python_Scripts/functions_distance.py:81 | `str.lower()` keeps the length and lower-cases character by character (ASCII and Latin-1 capitals) |
| Strings.LowerFacts | Python_Scripts/functions_distance.py:81 | lower-casing gives a lower-case string, is idempotent, and keeps a stripped string stripped |
| Strings.Split | Python_Scripts/functions_distance.py:217 | `str.split(",")` gives at least one piece, and no piece contains the separator |
| Strings.JoinSplit | Python_Scripts/functions_distance.py:217 | joining the pieces of a split with the separator gives the string back |
| Strings.SplitJoin | Python_Scripts/functions_distance.py:217 | pieces free of the separator come back unchanged from a join followed by a split |
| Distance.ReplaceAllFacts | Python_Scripts/functions_distance.py:92-93 | with a table where no word repeats and no replacement is itself a word, a cell equal to a word as a whole becomes that word's replacement, and every other cell is left alone |
| Distance.UmlautTableFacts | Python_Scripts/functions_distance.py:83-91 | the umlaut table has no repeated word and no replacement that is itself a word; every replacement is two non-blank characters, lower case where the word is |
| Distance.HarmonizedFixed | Python_Scripts/functions_distance.py:78-93 | a name that is stripped, lower case and not a table word is left as it is by strip, lower and replace |
| Distance.HarmonizedResult | Python_Scripts/functions_distance.py:78-93 | any string comes out of strip, lower and replace as a harmonised name |
| Distance.HarmonizeCellFacts | Python_Scripts/functions_distance.py:78-93 | a cell becomes NaN exactly when it is not a string, and otherwise a harmonised name; harmonised names are fixed points, so harmonising twice is harmonising once |
| Distance.HarmonizedFrame | Python_Scripts/functions_distance.py:78-94 | every surviving row holds a harmonised, non-NaN name; a row survives exactly when its cell was a string, with that cell harmonised; labels and order are kept and only the column changes |
| Distance.HarmonizeIdempotent | Python_Scripts/functions_distance.py:66-95 | harmonising a frame's column twice gives the same frame as harmonising it once |
| Distance.ReplaceColumn | Python_Scripts/functions_distance.py:93 | `df[c] = df[c].replace(word, replacement)` rewrites each row's cell by whole-cell replacement and changes nothing else |
| Distance.HarmonizeStrings | Python_Scripts/functions_distance.py:66-95 | the strip, lower, replacement loop and NaN drop give exactly `HarmonizedFrame`, so all its properties hold of the result |
| Distance.DeleteRowsWithUniqueValues | Python_Scripts/functions_distance.py:59-62 | a KeyError exactly when the column is absent; otherwise keeps the columns and, in original order and unchanged, exactly the rows whose value is not NaN and occurs at least twice in the column |
| Distance.DeleteRowsBoundary | Python_Scripts/functions_distance.py:59-62 | two rows sharing a non-NaN value both survive; a row whose value occurs once is dropped |
| Distance.MatchFields | Python_Scripts/functions_distance.py:130-140 | the cells a query ends up with are exactly the four columns the source presets |
| Distance.MatchFieldsSpec | Python_Scripts/functions_distance.py:112-140 | a query keeps -1, -1, "Nothing", 0 exactly when no gazetteer name scores above 0; otherwise it gets the latitude, longitude and name of the first maximising gazetteer row, and the maximum score; when the scorer keeps its range a matched score lies in 1..100, so every rating lies in 0..100 |
| Distance.PresetColumn | Python_Scripts/functions_distance.py:112-115 | `df[c] = v` sets the column to `v` on every row, keeping rows and labels |
| Distance.PresetMatches | Python_Scripts/functions_distance.py:112-115 | after the four presets the frame has the four added columns and every row, under its own label, carries -1, -1, "Nothing", 0 besides its own cells |
| Distance.WriteMatch | Python_Scripts/functions_distance.py:131-140 | the four `.loc` writes give the row at the position the four cells of the match, and leave every other row as it was |
| Distance.MatchQuery | Python_Scripts/functions_distance.py:120-140 | one pass of the outer loop gives the row at the position exactly its own query's cells and leaves all other rows unchanged |
| Distance.GpsNoError | Python_Scripts/functions_distance.py:117-140 | the search raises no KeyError when the name column is present, the gazetteer has its name column (needed only if there is a row), and both coordinate columns are present whenever some query matches |
| Distance.GpsMatchError | Python_Scripts/functions_distance.py:131-136 | a query that matches makes a missing latitude column the KeyError, and with the latitude present a missing longitude column |
| Distance.FindGpsCoordinates | Python_Scripts/functions_distance.py:98-142 | on a frame labelled 0..n-1: a KeyError for the name column, then for the gazetteer's name column when there is a row, then for the latitude and for the longitude column only when some query matches; otherwise every row keeps its label and its other cells and gets the four cells `MatchFieldsSpec` describes for its own name, and no row is added or removed |
| Distance.PositionOfLabel | Python_Scripts/functions_distance.py:131-139 | `.loc[j]` finds the first row labelled `j`, or none exists |
| Distance.AsWrittenAgreesOnRangeIndex | Python_Scripts/functions_distance.py:131-139 | on a gazetteer still labelled 0..n-1, the source's lookup by label gives the same four cells as the lookup by position |
| Distance.HarmonizeDropsUnnamedHead | Python_Scripts/functions_distance.py:94 | harmonising a column whose first row has no name, while the others are harmonised names, removes only that first row and keeps the other rows' labels |
| Distance.SampleHarmonized | Python_Scripts/functions_distance.py:94 | on the sample gazetteer (row 0 unnamed, then "berlin", "bonn"), harmonising leaves the rows labelled 1 and 2 at positions 0 and 1 |
| Distance.SampleScans | Python_Scripts/functions_distance.py:120-127 | on that gazetteer the exact scorer finds "berlin" at position 0 and "bonn" at position 1, both with score 100 |
| Distance.SampleLookups | Python_Scripts/functions_distance.py:131-139 | the lookup by position answers "bonn" with Bonn's row; the source's lookup by label answers "bonn" with Berlin's row and "berlin" with a KeyError for label 0 |
| Distance.AsWrittenReadsWrongRow | Python_Scripts/functions_distance.py:131-139 | the source's label lookup on the harmonised sample gazetteer reads the wrong row for "bonn" and fails for "berlin", while the positional lookup is right |
| Distance.FirstMatch | Python_Scripts/functions_distance.py:34-36 | `df2[df2[c] == v].iloc[0]` is the first position whose value equals `v` (NaN equals nothing), or none exists |
| Distance.JoinFields | Python_Scripts/functions_distance.py:29-42 | a record whose name is in no row of the match table keeps -1/-1/-1; otherwise it gets the latitude, longitude and rating of the first table row with that name |
| Distance.FillPresets | Python_Scripts/functions_distance.py:29-31 | after the three presets every record carries -1, -1, -1 |
| Distance.WriteJoin | Python_Scripts/functions_distance.py:36-42 | the three `.at` writes change the three cells of one record and leave every other record as it was |
| Distance.JoinRecord | Python_Scripts/functions_distance.py:33-42 | one pass of the loop gives the record exactly the cells of its own name and leaves all other records unchanged |
| Distance.FillKeeps | Python_Scripts/functions_distance.py:32-43 | filling in keeps every record's label, in order, and changes only the three written columns |
| Distance.FillInGpsCoordinates | Python_Scripts/functions_distance.py:20-43 | with distinct labels: no KeyError on an empty `df1`; otherwise a KeyError for `column1`, then for `column2` in `df2`, then, only when some name is found in `df2`, for each of the three copied columns in turn; on success no record is dropped or added, each record gets the cells `JoinFields` gives for its name, and nothing else changes |
| Distance.KeepConfident | Python_Scripts/functions_distance.py:215 | keeps, in order and unchanged, exactly the rows with a numeric rating of at least 85 (85 is kept, 84 is not) |
| Distance.ParsePiece | Python_Scripts/functions_distance.py:216-221 | succeeds exactly when piece `k` of every cell that has one parses, giving each row's number (NaN where the piece is absent); otherwise a ValueError names a piece that does not parse |
| Distance.CoordinatesRoundTrip | Python_Scripts/functions_distance.py:216-221 | a text "lat,lon" whose two parts parse yields exactly those two numbers as pieces 0 and 1 |
| Distance.WithJobCoordinates | Python_Scripts/functions_distance.py:216-221 | assigning the two job-coordinate columns gives each row its two values and changes nothing else |
| Distance.SplitCoordinates | Python_Scripts/functions_distance.py:216-221 | succeeds exactly when some row has a piece 0 and some a piece 1 and all those pieces parse (a KeyError for a missing piece 0 otherwise); the result gives every row the numbers of its own pieces 0 and 1 |
| Distance.DropNotUsedColumns | Python_Scripts/functions_distance.py:173-178 | leaves exactly the original columns that are in `used_columns`, in their original order, with their values; every other column is gone from every row; rows and labels are kept |
| Measures.CreateDistanceMeasures | Python_Scripts/functions_distance.py:181-237 | with distinct labels, the steps in the source's order give exactly `DistanceMeasures`: the first KeyError or ValueError raised by the steps before the distance loop, or the ads and the city table |
| Measures.LocatedAds | Python_Scripts/functions_distance.py:183-192 | the located ads carry harmonised names and keep their labels in order; each is an ad with a string name, whose harmonised name at least two ads share and whose job coordinates are present, renamed; and every such ad is located |
| Measures.NamesOfAds | Python_Scripts/functions_distance.py:194-196 | the distinct names hold each located ad's name once, every one harmonised, and no other name |
| Measures.CityTableRows | Python_Scripts/functions_distance.py:194-203 | the city table is labelled 0..n-1 and its row `i` is distinct name `i` with the four cells of that name's own gazetteer match |
| Measures.JoinThroughCities | Python_Scripts/functions_distance.py:20-43 | looking a located ad's name up in the city table gives the coordinates and rating of that name's own gazetteer match |
| Measures.JoinedRows | Python_Scripts/functions_distance.py:207-212 | the join back gives every located ad, in order and under its label, exactly the coordinates and rating of its own gazetteer match |
| Measures.ConfidentExactly | Python_Scripts/functions_distance.py:214-215 | a name's rating is at least 85 exactly when some gazetteer name scores at least 85 against it |
| Measures.KeptExactly | Python_Scripts/functions_distance.py:214-215 | the kept ads are a subsequence of the located ads, and an ad is kept exactly when some gazetteer name scores at least 85 against its name |
| Measures.ConfidentRows | Python_Scripts/functions_distance.py:207-215 | after the join and the filter, the ads are the kept located ads in order, each with the cells of its own match |
| Measures.TailRows | Python_Scripts/functions_distance.py:216-236 | the split, the distance preset and the projection turn each joined ad into its `MeasuredRow` restricted to the whitelist, keep order and labels, and leave only whitelisted columns |
| Measures.MeasuredAds | Python_Scripts/functions_distance.py:181-237 | on success the ads returned are the kept located ads, in order and under their own labels, each carrying in every whitelisted column its own cells, its match's coordinates and rating, its two job coordinates as numbers and the distance -1; no other column remains; the second frame is the city table |
| Measures.FillNeverFails | Python_Scripts/functions_distance.py:20-43 | joining the located ads with the city table never raises a KeyError, since that table carries the name, both coordinates and the rating |
| Measures.CityTableError | Python_Scripts/functions_distance.py:117-140 | the search over the distinct names fails for the latitude column exactly when some name matches and it is missing, then likewise for the longitude column, and succeeds otherwise |
| Measures.MeasuresErrors | Python_Scripts/functions_distance.py:181-237 | a KeyError for the ads' name column, then for the gazetteer's, then for the job coordinates; past them, a KeyError for the gazetteer's latitude or longitude column exactly when some located name matches a city and the column is missing; otherwise the modelled steps succeed exactly when the job coordinates split and parse (the errors of the distance loop, which is left out, are not covered) |
| Frames.Where | Python_Scripts/functions_distance.py:215 | boolean selection keeps, in order and unchanged, exactly the rows satisfying the mask |
| Frames.DropNA | Python_Scripts/functions_cleaning.py:46 | `dropna(subset=[c])` keeps, in order and unchanged, exactly the rows whose cell `c` is not NaN |
| Frames.Assign | Python_Scripts/functions_cleaning.py:80-84 | column assignment gives every row its computed cell, keeps rows and labels, and changes only that column |
| Frames.MapColumn | Python_Scripts/functions_cleaning.py:44 | rewriting a column cell by cell keeps rows and labels and changes only that column |
| Frames.SetCell | Python_Scripts/functions_distance.py:131-133 | a `.loc` write changes one cell of one row and nothing else |
| Frames.DropLabels | Python_Scripts/functions_cleaning.py:203 | `drop(index=labels)` keeps, in order, exactly the rows whose label is not listed |
| Frames.DropWhere | Python_Scripts/functions_cleaning.py:163 | `drop(df[cond].index)` removes every row satisfying `cond` and, when labels are distinct, keeps every other row |
| Frames.ToNumeric | Python_Scripts/functions_cleaning.py:44 | `to_numeric(errors="coerce")` gives a number or NaN: numbers are kept, NaN stays NaN, a string becomes its parsed number exactly when it parses and NaN otherwise, and a boolean becomes 1 or 0 |
| Frames.FromColumn | Python_Scripts/functions_distance.py:194-196 | `pd.DataFrame({c: values})` is labelled 0..n-1 and holds exactly `values` |
| Cleaning.Clamp | Python_Scripts/functions_cleaning.py:47 | a number above the bound becomes the bound, every other cell is unchanged, and a numeric result never exceeds the bound |
| Cleaning.DurationRow | Python_Scripts/functions_cleaning.py:43-49 | a record leaves exactly when its duration does not parse; otherwise the duration is the parsed value when at most 365 and 365 when above, the log duration is the log of it, and nothing else changes |
| Cleaning.CleanDuration | Python_Scripts/functions_cleaning.py:43-49 | the frame operations equal `DurationRow` applied row by row, keep the survivors' labels and order, and add `log_duration` |
| Cleaning.PostingRow | Python_Scripts/functions_cleaning.py:52-58 | a record leaves exactly when its posting count does not parse; otherwise the count is the parsed value when at most 20 and 20 when above, and nothing else changes |
| Cleaning.CleanPostingCount | Python_Scripts/functions_cleaning.py:52-58 | the frame operations equal `PostingRow` applied row by row, keeping the survivors' labels and order |
| Cleaning.ContractRow | Python_Scripts/functions_cleaning.py:61-87 | a record stays exactly when its contract label is one of the listed seven and its working hours are regular; the cluster is "Permanent" exactly for the three acceptable labels and "Non_Permanent" otherwise; nothing else changes |
| Cleaning.CleanContractType | Python_Scripts/functions_cleaning.py:61-87 | the selection, the cluster assignment and the working-hours selection equal `ContractRow` applied row by row |
| Cleaning.SalaryRow | Python_Scripts/functions_cleaning.py:90-92 | every record stays, and its salary dummy is true exactly when it has a salary |
| Cleaning.CleanSalaryDummy | Python_Scripts/functions_cleaning.py:90-92 | the assignment equals `SalaryRow` row by row and keeps every label |
| Cleaning.AdvertiserRow | Python_Scripts/functions_cleaning.py:95-98 | a record stays, unchanged, exactly when its advertiser is "Direct employer" |
| Cleaning.CleanAdvertiserType | Python_Scripts/functions_cleaning.py:95-98 | the NaN drop and the selection equal `AdvertiserRow` applied row by row |
| Cleaning.IdentifierRow | Python_Scripts/functions_cleaning.py:101-118 | a record leaves exactly when the identifier is missing; otherwise the identifier is made numeric (NaN where it does not parse) and nothing else changes |
| Cleaning.CleanIdentifier | Python_Scripts/functions_cleaning.py:101-118 | the NaN drop and the numeric conversion equal `IdentifierRow` applied row by row |
| Cleaning.CleanWorkingHours | Python_Scripts/functions_cleaning.py:121-123 | keeps, in order and unchanged, exactly the records with regular working hours |
| Cleaning.CleanIndustryLabel | Python_Scripts/functions_cleaning.py:126-128 | keeps, in order and unchanged, exactly the records with an industry label |
| Cleaning.LanguageRow | Python_Scripts/functions_cleaning.py:131-158 | a record stays exactly when its language is one of the nineteen listed codes; its cluster is "German" exactly when the language is "de" and "International" otherwise |
| Cleaning.CleanLanguage | Python_Scripts/functions_cleaning.py:131-158 | the selection and the cluster assignment equal `LanguageRow` applied row by row |
| Cleaning.EducationRow | Python_Scripts/functions_cleaning.py:161-171 | a record leaves exactly when its level is "Unbekannt" or "Grundschule"; its cluster is "University degree" exactly for Bachelor, Master and Dissertation, and "Non university degree" otherwise |
| Cleaning.CleanEducationLevel | Python_Scripts/functions_cleaning.py:161-171 | no surviving record has level "Unbekannt" or "Grundschule"; with distinct labels the two drops and the assignment equal `EducationRow` applied row by row |
| Cleaning.DatesRow | Python_Scripts/functions_cleaning.py:174-179 | every record stays; its date is the parsed date, and its quarter and month are those of the parsed date |
| Cleaning.CleanDates | Python_Scripts/functions_cleaning.py:174-179 | the three assignments equal `DatesRow` row by row and keep every label |
| Cleaning.FirmSizeRow | Python_Scripts/functions_cleaning.py:182-192 | a record stays, unchanged, exactly when its size is "5000+", "1000-4999" or "500-999" |
| Cleaning.CleanFirmSize | Python_Scripts/functions_cleaning.py:182-192 | the NaN drop and the three selections equal `FirmSizeRow` applied row by row |
| Cleaning.IscoRow | Python_Scripts/functions_cleaning.py:195-210 | the ISCO code is made numeric; a record leaves exactly when that number is 9999999999; otherwise its two aggregates are the prefixes of the code |
| Cleaning.CleanIscoCode | Python_Scripts/functions_cleaning.py:195-210 | no surviving record carries the sentinel; with distinct labels the conversion, the drop by label and the two assignments equal `IscoRow` applied row by row |
| Cleaning.AssignKeepsCells | Python_Scripts/functions_cleaning.py:166-170 | adding a column leaves a property of another column's cells intact |
| RowSteps.RowsOfMembers | Python_Scripts/functions_cleaning.py:213-234 | every row a row-by-row step produces comes from an input row with the same label |
| RowSteps.RowsOfRetains | Python_Scripts/functions_cleaning.py:213-234 | a row-by-row step keeps the survivors' labels in order, so no row is added |
| RowSteps.RowsOfThen | Python_Scripts/functions_cleaning.py:213-234 | applying two steps one after the other is applying their composition |
| RowSteps.RowsOfPipelineAppend | Python_Scripts/functions_cleaning.py:213-234 | running two lists of steps one after the other is running their concatenation |
| FullCleaning.FirstMissing | Python_Scripts/functions_cleaning.py:213-234 | finds nothing exactly when every column the cleaning reads is present; otherwise it finds the first one, in reading order, that is absent |
| FullCleaning.RequiredPresent | Python_Scripts/functions_cleaning.py:213-234 | when nothing is missing, each of the fifteen read columns is present |
| FullCleaning.CleaningPipeline | Python_Scripts/functions_cleaning.py:219-233 | the three groups of steps run one after the other are the fifteen steps composed in the source's order |
| FullCleaning.CleanRecords | Python_Scripts/functions_cleaning.py:219-223 | steps 1 to 5 add `log_duration`, the contract cluster and the salary dummy, keep labels in order, and equal their five row steps composed |
| FullCleaning.CleanIdentifiers | Python_Scripts/functions_cleaning.py:224-228 | steps 6 to 10 keep the columns, keep labels in order, and equal their five row steps composed |
| FullCleaning.CleanLabels | Python_Scripts/functions_cleaning.py:229-233 | steps 11 to 15 add the six derived columns (language and education clusters, quarter and month of the date, the two ISCO aggregates), keep labels in order, and with distinct labels equal their five row steps composed |
| FullCleaning.RecordsSurvivor | Python_Scripts/functions_cleaning.py:219-223 | a record that passes steps 1 to 5 has a numeric duration of at most 365 and posting count of at most 20, a listed contract with the right cluster, regular hours, the right salary dummy and a direct employer, and differs from the input only in the columns those steps write |
| FullCleaning.IdentifiersSurvivor | Python_Scripts/functions_cleaning.py:224-228 | a record that passes steps 6 to 10 has numeric (or NaN) job and organisation ids, regular hours and an industry label, and differs from the input only in the three identifiers |
| FullCleaning.LabelsSurvivor | Python_Scripts/functions_cleaning.py:229-233 | a record that passes steps 11 to 15 has a listed language with the right cluster, a kept education level with the right cluster, a listed firm size and a numeric non-sentinel ISCO code, and differs from the input only in the columns those steps write |
| FullCleaning.CleanedRow | Python_Scripts/functions_cleaning.py:219-233 | a record that passes all fifteen steps satisfies every step's rule at once, and differs from the input only in the columns the steps write |
| FullCleaning.CleanedEntries | Python_Scripts/functions_cleaning.py:219-233 | every record out of the fifteen steps is clean and comes from an input record with the same label, differing only in the written columns |
| FullCleaning.CleanedFrame | Python_Scripts/functions_cleaning.py:213-234 | the cleaned frame's records are all clean and derive from the dataset's records |
| FullCleaning.CleanedColumns | Python_Scripts/functions_cleaning.py:213-234 | the cleaned frame's columns are the input's plus exactly the nine added ones |
| FullCleaning.FullDatasetCleaning | Python_Scripts/functions_cleaning.py:213-234 | fails with a KeyError exactly when a read column is absent, naming the first; otherwise adds the nine columns, adds no row, and with distinct labels equals the name filter followed by the fifteen row steps, every record clean and derived from a dataset record |

## Left out

- The geodesic distance loop (`functions_distance.py:222-234`): floating-point geodesy through geopy, written with chained `.iloc` assignment. The distance column is only preset to -1. The loop's ValueErrors are therefore not modelled either. geopy raises one for a NaN job or organisation coordinate, such as the longitude of a one-piece coordinate text like "52.5" in a frame where another ad has two pieces, or a NaN coordinate copied from the gazetteer. It also raises one for a latitude outside -90..90. On such inputs `DistanceMeasures` returns `Ok` where the source fails.
- `to_excel`, `read_csv` and the other file I/O, and the two driver scripts that load files, call these modules and write the results. The column whitelist is the parameter `used` rather than the driver's list.
- `fuzz.ratio`, `pd.to_numeric` on strings, `np.log`, `pd.to_datetime` with quarter and month, and the three- and two-character ISCO prefixes read back as numbers: library calls, left as parameters. Their exact semantics (edit distance, float formatting, date parsing) are not modelled.
- The ValueError that `pd.to_numeric` without `errors="coerce"` raises on an ISCO prefix that does not parse (`functions_cleaning.py:204-209`): the prefixes are the opaque `Library.isco3`/`isco2`, which always return a cell.
- Strings.Lower: lower-cases ASCII and Latin-1 capitals only; Python's full Unicode case mapping is not modelled.
- Distance.FindGpsCoordinates: requires the city table to be labelled 0..n-1, which holds where the source calls it (a fresh `pd.DataFrame`); it writes by position, which `.loc[i]` coincides with on such a frame.
- Distance.FillInGpsCoordinates: requires distinct index labels. With repeated labels `df1.at[index]` writes every row sharing the label, which is not modelled.
- Measures.CreateDistanceMeasures: requires distinct labels of the ads, for the same reason. It takes the gazetteer row by position, the evidently intended reading (see Findings). The distance loop is not modelled, so the distance column holds the preset -1, and `city_names.to_excel` is not performed.
- Cleaning.CleanEducationLevel: the row-by-row equality is stated only for distinct labels. With repeated labels, `drop` by label also removes the other rows sharing a dropped label; the model then states only that the removed values are gone and that no row is added.
- Cleaning.CleanIscoCode: the same restriction as CleanEducationLevel, for its drop by label.
- Frames.DropLabels: pandas raises a KeyError for a label that is not in the index; the model keeps every row instead. Every caller passes labels taken from the frame itself, so this case does not arise.
- FullCleaning.FullDatasetCleaning: the row-by-row result and `Cleaned` are stated for distinct labels only, because of the two drops by label. The missing-column KeyError is decided up front: the steps read no column they add, so the first absent column read is the first absent required one.
- Pandas' `SettingWithCopyWarning` and the difference between views and copies: every step is modelled as returning a new frame, which is what the rebinding callers observe.
- Column dtypes: a cell is NaN, a string, a number or a boolean. Integer and float columns are not told apart. NaN is a single value, so the NaN keys that `__find_best_match` gets from iterating a float column (a fresh float per NaN, each its own dictionary key) collapse into one `NA` key in `Matching.FindBestMatch`.
- The error raised when `.str` meets a column without string values: every non-string cell is read as NaN. In pandas, `.str` on a column with no string values at all (for example an all-NaN float column) raises AttributeError, in `__harmonize_strings` (`functions_distance.py:79`) and at the split (`functions_distance.py:217`, `220`). On an object column without a string among the kept cells, the split gives a single all-NaN column and `[1]` raises KeyError 1, where the model reports `MissingLabel(0)`. Both sides fail; only the kind of error differs.

## Findings

| source | as written | input that shows it | evidently intended | confidence | as-written member | corrected member |
|---|---|---|---|---|---|---|
| Python_Scripts/functions_distance.py:131-139 | the scan yields a position `j` in the gazetteer's name column, and `gps_df.loc[j, ...]` reads the row whose index LABEL is `j`; `__harmonize_strings` has already dropped the gazetteer rows without a name, so labels and positions differ | a gazetteer with row 0 unnamed, row 1 "berlin", row 2 "bonn": the query "bonn" is matched at position 1 and receives Berlin's row (label 1), and "berlin" is matched at position 0 and raises a KeyError (no label 0) | read the matched row by position (`gps_df.iloc[j]`) | not executed | Distance.AsWrittenReadsWrongRow | Distance.FindGpsCoordinates |
