# FHA hazard register — a Dafny model

This project models the core of an FHA (Functional Hazard Assessment) tool
for unmanned aircraft. The tool keeps a register (a table) of hazards. Each
row has twelve columns:

- an identifier `FHA-nnn`;
- three function levels, the function type and the flight phase;
- the failure state and its three effects (on the aircraft, on the ground or
  airspace, on the ground crew);
- an ARP4761 hazard classification and a rationale.

Around the register the tool offers:

- a functional-architecture dialog that turns a function tree and a
  function × mission-phase matrix into skeleton rows;
- a guided analysis wizard that replaces one row by one row per failure mode;
- a risk dashboard: KPI counts, a function × classification cross-tabulation
  with a "top function" summary, and a sunburst of functions and
  classifications;
- two HTTP front ends. One serves a single register. The other keeps a
  store of projects, each with its own register.

The model is organised one module per file:

| module | models |
|---|---|
| `Schema` (schema.dfy) | the twelve columns, the ARP4761 classification labels, a row as a record (`Entry`), and the dictionaries (`Record`) pandas reindexes into rows |
| `Ids` (ids.dfy) | the `FHA-%03d` identifiers and the digit extraction that reads them back |
| `Text`, `Ordering`, `Indices` | ASCII case folding and substring search; split/join; Python's code-point string order and `sorted(set(..))`; Python `int()` on the comma-separated index list |
| `Table` (table.dfy) | each register operation as a function on the sequence of rows |
| `ApiRegister` (api_register.dfy) | the register class of the single-register API (`fha_api.py`) and its endpoints |
| `CoreRegister` (core_register.dfy) | the register class of the desktop and multi-project code (`fha_core_logic.py`), which also keeps the next-id counter |
| `Analyses`, `FailureModes` | the analysis record the wizard produces; the failure-mode library |
| `Aggregation` (aggregation.dfy) | KPIs, the cross-tabulation, the summary and both sunburst shapes |
| `ProjectStore` (project_store.dfy) | the multi-project API (`fha_api_new/fha_api0.py`) |
| `Architect`, `Wizard`, `MainWindow` | the dialog, the wizard and the main window of the desktop application (`fha_main_window.py`) |

The register classes, the project store, the architecture dialog, the wizard
and the main window change their state in place. They are Dafny classes, and
each method's `ensures` ties the new state to a specification function in
`Table`. The properties of the operations are lemmas about those functions:
renumbering, deletion, splicing, the id counter and the round trips.

Three modelling choices hold throughout:

- A position is a `nat`. A label a caller may give as negative is an `int`.
- An exception the source raises (`IndexError`, a failed `.loc` lookup, a
  `KeyError` from `drop`) is the `Raised` outcome or a `Reply` other than `Ok`.
- pandas `groupby` and `crosstab` sort their keys. The model therefore lists
  functions in ascending code-point order. Cross-tab columns follow the
  canonical ARP4761 order.

## Model

| member | source | states |
|---|---|---|
| Schema.ColumnNames | fha_core_logic.py:24-29 | the table has exactly twelve columns in the order the source lists them; each header reads back as the column at its place, so no header repeats |
| Schema.ColumnsComplete | fha_api.py:28-32 | every column of the model is one of the twelve table columns |
| Schema.ColumnOf | fha_api.py:47 | a column name is recognised exactly when it is one of the twelve headers, and it then names that column |
| Schema.ColumnOfName | fha_api.py:47 | every header is found again by its own name |
| Schema.ColumnNameInjective | fha_core_logic.py:24-29 | no two columns share a header |
| Schema.EntryExtensionality | fha_core_logic.py:24-29 | a row is fully determined by its twelve cells |
| Schema.With | fha_api.py:49 | writing one cell gives it the new value and leaves the other eleven unchanged |
| Schema.Project | fha_core_logic.py:64 | each table column takes the dictionary's value when the key is present and "" otherwise; other keys are dropped |
| Schema.Override | fha_core_logic.py:82-83 | `Series.update`: a column named in the result takes the result's value; every other column keeps the source row's value |
| Schema.ToRecord | fha_api.py:212 | a row exported as a dictionary has exactly the twelve headers as keys, with the row's cell values |
| Schema.ProjectToRecord | fha_core_logic.py:51 | re-importing an exported row gives back the same row |
| Schema.ProjectIdempotent | fha_core_logic.py:51 | reindexing an already reindexed row changes nothing |
| Schema.OverrideWithoutSchemaKeys | fha_core_logic.py:81-84 | a result dictionary without any table column leaves the copied row unchanged |
| Schema.SkeletonRecord | fha_main_window.py:169-172 | a skeleton item's dictionary uses only table headers as keys |
| Schema.SkeletonKeys | fha_main_window.py:169-172 | a skeleton dictionary has no identifier, failure-state, effect, classification or rationale key |
| Schema.SkeletonValues | fha_main_window.py:169-172 | a skeleton dictionary carries the item's three levels, type and phase under their headers |
| Schema.SkeletonProjected | fha_main_window.py:169-172 | a skeleton item imported as a row holds its five values and leaves every other column empty |
| Schema.ShortLabel | fha_main_window.py:489 | `split(' ')[0]`: the label is a prefix of the header with no space in it, and it stops exactly at the header's first space |
| Schema.SeverityLevelsDistinct | fha_core_logic.py:30-34 | the five classifications are pairwise distinct, listed in severity order, and none is the unset label "" |
| Ids.DigitChar | fha_core_logic.py:100 | each decimal digit value is written as an ASCII digit |
| Ids.DecimalDigits | fha_core_logic.py:100 | `str(n)` is a non-empty digit string, one character long exactly when n < 10 |
| Ids.Zeros | fha_core_logic.py:100 | the zero padding is k digits long |
| Ids.Pad3 | fha_core_logic.py:100 | `:03d` gives digits only: exactly three below 1000, else the plain decimal length |
| Ids.DigitsOnly | fha_core_logic.py:53 | removing every non-digit leaves only digits and never lengthens the text |
| Ids.IdNumber | fha_core_logic.py:53-54 | an identifier yields no number exactly when it contains no digit |
| Ids.DecimalDigitsLength | fha_core_logic.py:100 | numbers below 1000 need at most three digits; larger ones need four or more |
| Ids.DigitsOnlyEmpty | fha_core_logic.py:53-54 | the digit filter leaves nothing exactly when the text has no digit |
| Ids.DecimalRoundTrip | fha_core_logic.py:54 | reading back `str(n)` gives n |
| Ids.LeadingZerosIgnored | fha_core_logic.py:54 | `to_numeric` ignores leading zeros |
| Ids.ZerosValue | fha_core_logic.py:54 | a run of zeros reads as 0 |
| Ids.DigitsOnlyOfDigits | fha_core_logic.py:53 | the digit filter leaves a digit string unchanged |
| Ids.DigitsOnlyConcat | fha_core_logic.py:53 | the digit filter works piece by piece over a concatenation |
| Ids.Pad3RoundTrip | fha_core_logic.py:100 | the zero-padded number reads back as the number |
| Ids.IdNumberRoundTrip | fha_core_logic.py:53-55 | the number extracted from `FHA-%03d` of n is n |
| Ids.FormatIdInjective | fha_core_logic.py:97-101 | distinct numbers give distinct identifiers |
| Ids.FormatIdLength | fha_core_logic.py:100 | identifiers are seven characters below 1000 and longer from 1000 on |
| Text.Lower | fha_api.py:209-211 | the case-folded text has the same length, each ASCII capital becomes its small letter, every other character is kept, and no ASCII capital is left |
| Text.LowerIdempotent | fha_api.py:209-211 | folding an already folded text changes nothing |
| Text.ContainsOccurs | fha_api.py:209-211 | `str.contains` holds exactly when the pattern occurs at some position |
| Text.Find | fha_main_window.py:168 | the separator search returns the first position where it occurs, or none when it never occurs |
| Text.Split | fha_main_window.py:168 | splitting always yields at least one part |
| Text.SplitJoin | fha_main_window.py:156-168 | splitting a path joined with " / " returns its names when no name contains '/' |
| Text.NoSeparatorInside | fha_main_window.py:168 | a name that contains no '/' has no occurrence of the separator |
| Text.FirstSeparator | fha_main_window.py:168 | in name + separator + rest, where the name contains no '/', the first separator follows the name |
| Text.SplitJoinOn | fha_api_new/fha_api0.py:206 | splitting a comma-joined list at commas returns its parts when no part contains a comma |
| Text.NoCharInside | fha_api_new/fha_api0.py:206 | a part without the comma has no comma occurrence |
| Text.FirstChar | fha_api_new/fha_api0.py:206 | in part + comma + rest, the first comma follows the part |
| Ordering.BelowIrreflexive | fha_api_new/fha_api0.py:234 | no string sorts before itself |
| Ordering.BelowTransitive | fha_api_new/fha_api0.py:234 | Python's string order is transitive |
| Ordering.BelowTotal | fha_api_new/fha_api0.py:234 | any two distinct strings are ordered one way or the other |
| Ordering.BelowAsymmetric | fha_api_new/fha_api0.py:234 | two strings are never ordered both ways |
| Ordering.StrictlyIncreasingDistinct | fha_api_new/fha_api0.py:234 | a sorted list of unique strings repeats no element |
| Ordering.InsertSorted | fha_api_new/fha_api0.py:232-234 | inserting into a strictly increasing list keeps it strictly increasing, holding exactly the old elements and the new one |
| Ordering.SortedSet | fha_api_new/fha_api0.py:232-234 | `sorted(set(xs))` is strictly increasing and holds exactly the elements of xs |
| Ordering.StrictlyIncreasingUnique | fha_main_window.py:203 | two strictly increasing lists with the same elements are equal, so the set union's order does not matter |
| Ordering.HeadsAgree | fha_main_window.py:203 | two strictly increasing lists with the same elements start with the same least element |
| Ordering.SortedSetOfSorted | fha_api_new/fha_api0.py:234 | sorting an already sorted unique list changes nothing |
| Ordering.InsertDescending | fha_main_window.py:642 | inserting into a descending list keeps it descending and adds exactly one occurrence of the new element |
| Ordering.SortedDescending | fha_main_window.py:642 | `sorted(.., reverse=True)` is descending and a permutation of its input |
| Indices.TrimStart | fha_api_new/fha_api0.py:206 | stripping leading whitespace leaves a suffix of the text that does not start with whitespace |
| Indices.TrimStartRemovesSpace | fha_api_new/fha_api0.py:206 | every character the leading strip removes is whitespace |
| Indices.TrimEnd | fha_api_new/fha_api0.py:206 | stripping trailing whitespace leaves a prefix of the text that does not end with whitespace |
| Indices.TrimEndRemovesSpace | fha_api_new/fha_api0.py:206 | every character the trailing strip removes is whitespace |
| Indices.ParseIntDecimal | fha_api_new/fha_api0.py:206 | `int(str(n))` is n |
| Indices.ParseIntNegative | fha_api_new/fha_api0.py:206 | `int("-" + str(n))` is -n |
| Indices.StripUnpadded | fha_api_new/fha_api0.py:206 | stripping text with no outer whitespace changes nothing |
| Indices.ParseIntPadded | fha_api_new/fha_api0.py:206 | `int()` ignores surrounding spaces |
| Indices.TrimStartSpaceEnd | fha_api_new/fha_api0.py:206 | a trailing space survives a leading-whitespace strip unless the text was all whitespace |
| Indices.ParseAll | fha_api_new/fha_api0.py:206 | the list fails to parse exactly when one part fails; otherwise each number is its part's `int()` |
| Indices.ParseIndicesRoundTrip | fha_api_new/fha_api0.py:206 | a comma-joined list of decimal positions parses back to the same positions |
| Table.Renumbered | fha_core_logic.py:97-101 | after renumbering, row i is `FHA-%03d` of i+1, and every other cell is unchanged |
| Table.RenumberedFixesNumbered | fha_core_logic.py:97-101 | renumbering an already numbered table changes nothing (idempotence) |
| Table.RenumberedIgnoresIds | fha_core_logic.py:97-101 | the result does not depend on the old identifiers |
| Table.NumberedIdsDistinct | fha_core_logic.py:97-101 | a numbered table has pairwise distinct identifiers |
| Table.ProjectAll | fha_core_logic.py:50-51 | importing yields one row per dictionary, each cell its value or "" |
| Table.ProjectAllExported | fha_core_logic.py:50-51 | importing an exported table gives back the same table |
| Table.AppendedShape | fha_core_logic.py:59-69 | appending adds one row per dictionary, keeps the old rows' content and numbers the whole table |
| Table.Positions | fha_api.py:205-211 | the positions a row mask keeps are in range, increasing, and exactly those that satisfy the mask |
| Table.SelectIsSubsequence | fha_api.py:205-211 | the selection is the table's subsequence at the kept positions, and a row is kept exactly when the mask holds |
| Table.SelectExtend | fha_api.py:54 | selecting over one more row adds that row exactly when it is kept |
| Table.PositionsInRange | fha_api.py:205-211 | masks that agree on the table's positions keep the same rows |
| Table.SelectEverything | fha_api.py:205-211 | a mask that keeps every row keeps the table unchanged |
| Table.PositionsEverything | fha_api.py:205-211 | a mask that keeps every row keeps every position, in order |
| Table.SelectNothing | fha_api.py:205-211 | a mask that keeps no row gives an empty table |
| Table.Survivors | fha_api.py:53-54 | the rows kept by a deletion are rows of the table |
| Table.SurvivorsOfNothing | fha_api.py:53-54 | deleting only positions outside the table keeps every row |
| Table.SurvivorsOfEverything | fha_api.py:53-56 | deleting every position leaves no row |
| Table.SurvivorsCount | fha_api.py:53-54 | the rows kept are the table's rows less the distinct in-range positions deleted |
| Table.DeletedShape | fha_api.py:51-59 | after a deletion the table is numbered, holds the survivors in order, and shrinks by the distinct in-range positions |
| Table.DeletedOutOfRange | fha_api.py:51-59 | deleting only out-of-range positions only renumbers |
| Table.DeletedEverything | fha_api.py:55-56 | deleting every position empties the table |
| Table.Dropped | fha_core_logic.py:91-95 | `drop` raises exactly when some label is not a position of the table |
| Table.DroppedAgreesWithDeleted | fha_core_logic.py:91-95 | when `drop` succeeds, the desktop deletion and the API's keep-list deletion give the same table |
| Table.DroppedCount | fha_core_logic.py:91-95 | a successful `drop` removes one row per distinct label |
| Table.CellUpdated | fha_api.py:46-49 | the update raises exactly when the row is past the end or the column is not a header |
| Table.CellUpdatedShape | fha_api.py:46-49 | a valid update changes exactly one cell of one row |
| Table.CellUpdatedKeepsNumbered | fha_api.py:46-49 | an update of a column other than the identifier keeps the table numbered |
| Table.Derived | fha_core_logic.py:80-85 | each derived row copies the source row, overwritten by its result's table columns |
| Table.Expanded | fha_core_logic.py:71-89 | the splice fails exactly when there are results and the source label is not a row of the table (past the end or negative); no results change nothing |
| Table.ExpandedShape | fha_core_logic.py:71-89 | the source row is replaced by one row per result: rows before and after keep their content, the whole table is renumbered, and each new row is the source overwritten by its result |
| Table.ExpandedSingleNeutral | fha_core_logic.py:71-89 | one result with no table column only renumbers |
| Table.MaxIdNumber | fha_core_logic.py:53-55 | the largest number found in an identifier, or none when no identifier has a digit |
| Table.NextIdAfterLoad | fha_core_logic.py:52-57 | the counter after a load is at least 1 |
| Table.NextIdAfterLoadOfNumbered | fha_core_logic.py:50-57 | loading a numbered table sets the counter to its row count plus one |
| ApiRegister.Register.constructor | fha_api.py:38-39 | a new register is empty |
| ApiRegister.Register.LoadDataframe | fha_api.py:41-44 | the loaded table is the dictionaries reindexed to the twelve columns and renumbered |
| ApiRegister.Register.UpdateCell | fha_api.py:46-49 | raises `IndexError` exactly when the row is past the end or the column is unknown, changing nothing; otherwise writes the one cell |
| ApiRegister.Register.DeleteRows | fha_api.py:51-59 | the table becomes the survivors of the listed positions, renumbered; empty input changes nothing |
| ApiRegister.Register.AddFhaEntries | fha_api.py:61-65 | the dictionaries are appended as rows and the table renumbered |
| ApiRegister.Register.UpdateFromWizard | fha_api.py:67-79 | fails exactly when there are results and the source label is past the end or negative, changing nothing; otherwise splices the derived rows in |
| ApiRegister.Register.ReNumberIds | fha_api.py:81-84 | every row gets `FHA-%03d` of its position plus one |
| ApiRegister.SurvivingRows | fha_api.py:54 | the keep-list loop computes exactly the survivors of the deletion |
| ApiRegister.SkeletonRecords | fha_api.py:145 | one dictionary per skeleton entry |
| ApiRegister.NewProject | fha_api.py:143-146 | the register is emptied and refilled with the skeleton entries; the reply is their number |
| ApiRegister.NewProjectTable | fha_api.py:143-146 | a new project holds one numbered row per entry, in order, with the entry's five values and every other column empty |
| ApiRegister.GetFhaData | fha_api.py:200-212 | every returned row is a table row that matches both filters |
| ApiRegister.GetFhaDataExact | fha_api.py:200-212 | the answer is exactly the matching rows, in table order; with no filter it is the whole table |
| ApiRegister.GetDashboardData | fha_api.py:267-311 | no data exactly when the table is empty; the sunburst is absent exactly when no row is drawn; the cross analysis is absent exactly when no row is analyzed |
| CoreRegister.Register.constructor | fha_core_logic.py:36-38 | a new register is empty with counter 1 |
| CoreRegister.Register.NewProject | fha_core_logic.py:46-48 | empties the register and resets the counter to 1 |
| CoreRegister.Register.LoadDataframe | fha_core_logic.py:50-57 | the table is the reindexed dictionaries (not renumbered); the counter is one past the largest number in an identifier, or 1 |
| CoreRegister.Register.AddFhaEntries | fha_core_logic.py:59-69 | appends and renumbers; the counter is the new row count plus one; empty input changes nothing |
| CoreRegister.Register.UpdateFromWizard | fha_core_logic.py:71-89 | fails exactly when the splice fails (a source past the end or negative), changing nothing; otherwise splices, renumbers and resets the counter |
| Table.DeriveRows | fha_core_logic.py:81-85 | the loop builds one row per wizard result, the source row overridden by that result, in order |
| CoreRegister.Register.DeleteRows | fha_core_logic.py:91-95 | `drop` raises exactly when a label is out of range, changing nothing; otherwise removes the rows, renumbers and resets the counter |
| CoreRegister.Register.ReNumberIds | fha_core_logic.py:97-101 | renumbers every row and sets the counter to the row count plus one |
| CoreRegister.LoadConsistent | fha_core_logic.py:50-57 | loading an exported numbered table gives back the table, with the counter equal to its row count plus one |
| Analyses.AnalysisRecord | fha_main_window.py:307-310 | a wizard result's dictionary uses only table headers as keys |
| Analyses.AnalysisOverride | fha_core_logic.py:81-84 | a row overwritten by a result carries the result's six analysis fields and keeps the source's identifier, function levels, type and phase |
| Analyses.AnalysisKeys | fha_main_window.py:307-310 | a result dictionary has no identifier, function, type or phase key |
| Analyses.AnalysisValues | fha_main_window.py:307-310 | a result dictionary carries the six analysis fields under their headers |
| Analyses.OverrideSixKeys | fha_core_logic.py:81-84 | any dictionary with exactly those six keys overwrites exactly those six fields |
| Analyses.AnalysisRecords | fha_main_window.py:306-310 | one dictionary per result |
| FailureModes.Offered | fha_api_new/fha_api0.py:230-234 | the offered modes are sorted, unique, and exactly the generic modes together with the type's modes |
| FailureModes.OfferedFromUnion | fha_main_window.py:203 | sorting any list of that union gives the same offer, so the desktop's set union agrees with the API's list concatenation |
| FailureModes.UnknownTypeGetsGeneric | fha_api_new/fha_api0.py:232-234 | a type missing from the library is offered only the generic modes |
| FailureModes.GenericTypeOffered | fha_main_window.py:202-203 | a row without a function type gets the generic modes |
| Aggregation.Count | fha_api.py:272-275 | a count never exceeds the number of rows |
| Aggregation.CountIsCardinality | fha_api.py:272-275 | the count is the number of positions whose row qualifies |
| Aggregation.Keep | fha_api.py:277 | the boolean-mask selection holds exactly the qualifying rows, and as many as are counted |
| Aggregation.CountSame | fha_api.py:272-275 | predicates that agree on every row give the same count |
| Aggregation.CountDisjoint | fha_api.py:285 | counts of two exclusive conditions add up to the count of either |
| Aggregation.CountKeep | fha_api.py:285 | counting inside a selection counts both conditions at once |
| Aggregation.GetKpis | fha_api.py:272-276 | no KPI exceeds the number of rows, and the two classification counts together do not either |
| Aggregation.KpisExact | fha_api.py:272-276 | each KPI is the number of rows with a failure state, resp. classified exactly Catastrophic or Hazardous; all are 0 on an empty table |
| Aggregation.CountPositive | fha_main_window.py:461-462 | a count is positive exactly when some row qualifies |
| Aggregation.CellCounts | fha_api.py:280 | one count per requested classification |
| Aggregation.SumCellCounts | fha_api.py:280-282 | over distinct classifications, a function's cells add up to its rows classified as any of them |
| Aggregation.Levels1 | fha_api.py:280 | the list holds exactly the first-level functions of the rows |
| Aggregation.Categories | fha_api.py:280 | the list holds exactly the classifications of the rows |
| Aggregation.FunctionNames | fha_api.py:280 | the cross-tab index is sorted, unique, exactly the first-level functions present, and non-empty when there are rows |
| Aggregation.Present | fha_api.py:281 | keeps exactly the listed labels that are non-empty and present, in list order |
| Aggregation.PresentColumns | fha_api.py:281 | the columns are exactly the classifications present among the rows, in canonical order |
| Aggregation.Tabulate | fha_api.py:280-282 | the table's index is the sorted functions, its columns the present classifications, and it has one cell per pair |
| Aggregation.ShortLabels | fha_api.py:283 | each header label is a prefix of its column with no space |
| Aggregation.TabulateCells | fha_api.py:280-284 | each cell counts the rows of that function and classification, and a function's row adds up to its classified rows |
| Aggregation.SubsequenceDistinct | fha_api.py:281 | a subsequence of the canonical list repeats no label |
| Aggregation.SubsequenceMembers | fha_api.py:281 | a subsequence of the canonical list holds only canonical labels |
| Aggregation.RiskScores | fha_api.py:291 | one high-risk total per function |
| Aggregation.FirstArgMax | fha_api.py:291 | `idxmax`: a position of the largest value, and every earlier value is strictly smaller |
| Aggregation.ColumnValueExact | fha_api.py:292-295 | reading a missing column as 0 gives the true count of that cell |
| Aggregation.SummaryHighRisk | fha_api.py:285-291 | the high-risk count is the number of Catastrophic plus Hazardous rows, and a top function is named exactly when that count is positive |
| Aggregation.SummaryTop | fha_api.py:287-296 | the top function is a function of the table with its true counts; no function has more high-risk rows; every function sorted before it has fewer |
| Aggregation.AnalyzeCross | fha_api.py:277-297 | no table exactly when no row has both a first-level function and a classification; otherwise the table of the analyzed rows |
| Aggregation.Labels | fha_api_new/fha_api0.py:312-317 | one label per slice |
| Aggregation.Ring | fha_api_new/fha_api0.py:311-317 | a function's slices are exactly the ring classifications it has drawn rows in, in ring order, each with its row count |
| Aggregation.RingCategoriesDistinct | fha_api_new/fha_api0.py:312 | the four ring classifications are pairwise distinct |
| Aggregation.RingTotal | fha_api_new/fha_api0.py:311-317 | slices taken only for positive counts add up to all the cells they come from |
| Aggregation.SunburstMeaning | fha_api_new/fha_api0.py:294-320 | each node is a function with drawn rows; its total counts all of its drawn rows, including those outside the ring classifications; its slices follow the ring order |
| Aggregation.SunburstEmpty | fha_api_new/fha_api0.py:297-302 | the sunburst is empty exactly when no row is drawn |
| Aggregation.Slices | fha_api.py:304-307 | one slice per classification, in the given order |
| Aggregation.FunctionSunburst | fha_api.py:298-308 | none exactly when no row is drawn; otherwise one node per function with drawn rows |
| Aggregation.SlicesTotal | fha_api.py:304-307 | the slices add up to the function's cells |
| Aggregation.ChildrenMeaning | fha_api.py:302-307 | a function's children are exactly the classifications of its drawn rows, in sorted order, each positive and never "No Safety Effect", adding up to all its drawn rows |
| Aggregation.MatrixCells | fha_api_new/fha_api0.py:343-344 | one cell per present column, labelled with the column's short label |
| Aggregation.MatrixRowsMeaning | fha_api_new/fha_api0.py:340-345 | one matrix row per function of the cross-tab, each holding its cells under the short labels |
| Aggregation.BuildMatrixRows | fha_api_new/fha_api0.py:340-345 | the loop builds exactly the matrix rows |
| Aggregation.BuildRowsFor | fha_api_new/fha_api0.py:340-345 | the outer loop over the functions builds exactly their matrix rows, in order |
| Aggregation.BuildCells | fha_api_new/fha_api0.py:343-344 | the inner loop builds exactly one function's cells |
| Aggregation.BuildSunburst | fha_api_new/fha_api0.py:308-318 | the nested loops build exactly the sunburst nodes |
| Aggregation.BuildNodes | fha_api_new/fha_api0.py:309-318 | the loop over the functions builds exactly one node per function, in order |
| Aggregation.BuildRing | fha_api_new/fha_api0.py:312-317 | the loop over the four ring classifications builds exactly the function's slices, in ring order |
| Aggregation.BuildFunctionSunburst | fha_api.py:301-308 | the nested loops build exactly the API sunburst |
| ProjectStore.Written | fha_api_new/fha_api0.py:192-194 | every field the request gives is written; every other cell, and the identifier, is kept |
| ProjectStore.WrittenAsWritten | fha_api_new/fha_api0.py:192-194 | as written, the airspace-effect and rationale cells never change |
| ProjectStore.AirspaceUpdateLost | fha_api_new/fha_api0.py:192-194 | a new airspace effect is lost as written and stored once corrected |
| ProjectStore.WriteFields | fha_api_new/fha_api0.py:193-194 | the field-by-field loop computes exactly the corrected row |
| ProjectStore.WizardAsWritten | fha_api_new/fha_api0.py:250-264 | as written, the endpoint succeeds exactly when the source is in range and there are no results, and it then changes nothing |
| ProjectStore.WizardOutcome | fha_api_new/fha_api0.py:250-267 | 404 exactly when the source is at or past the end; 500 exactly for a negative source with results; otherwise one row per result replaces the source |
| ProjectStore.WizardFinding | fha_api_new/fha_api0.py:256-267 | every valid non-empty request fails as written; corrected, the new rows carry the source row with each result's six fields and the other rows keep their content |
| ProjectStore.AssembleEcho | fha_api_new/fha_api0.py:255-264 | the loop builds exactly the echoed result list |
| ProjectStore.Store.constructor | fha_api_new/fha_api0.py:19 | the store starts with no project |
| ProjectStore.Store.CreateProject | fha_api_new/fha_api0.py:104-118 | adds a new project with a fresh empty register under the new id, leaves the others alone, and replies with id, name and time |
| ProjectStore.Store.DeleteProject | fha_api_new/fha_api0.py:140-146 | 404 exactly for an unknown id; otherwise removes exactly that project |
| ProjectStore.Store.GetProjectModel | fha_api_new/fha_api0.py:84-88 | 404 exactly for an unknown id; otherwise that project's register |
| ProjectStore.Store.NewProject | fha_api_new/fha_api0.py:152-155 | 404 for an unknown id; otherwise the project's register is emptied |
| ProjectStore.Store.UpdateEntry | fha_api_new/fha_api0.py:184-196 | 404 exactly for an unknown id or an entry past the end; otherwise the entry becomes the written row and nothing else changes |
| ProjectStore.Store.DeleteEntries | fha_api_new/fha_api0.py:202-210 | 400 exactly when the index list does not parse; 500 when a parsed label is out of range; otherwise the rows are dropped and the counter is the new length plus one |
| ProjectStore.Store.CreateFromArchitect | fha_api_new/fha_api0.py:217-223 | 404 for an unknown id; otherwise the register holds exactly the skeleton, numbered, the counter is its length plus one, and the reply is its length |
| ProjectStore.Store.RunAnalysisWizard | fha_api_new/fha_api0.py:240-269 | follows the corrected endpoint: the reply and the new table are those of `WizardOutcome`, a splice leaves the counter at the new length plus one, and the response echoes the results |
| ProjectStore.Store.GetDashboardKpis | fha_api_new/fha_api0.py:276-288 | 404 for an unknown id; otherwise the project's KPIs |
| ProjectStore.Store.GetSunburstData | fha_api_new/fha_api0.py:294-320 | 404 for an unknown id; otherwise the fixed-ring sunburst of the project's rows |
| ProjectStore.Store.GetCrossAnalysisData | fha_api_new/fha_api0.py:326-365 | 404 for an unknown id; an empty matrix and no summary when nothing is analyzed; otherwise the matrix and summary of the analyzed rows |
| Architect.LeafRows | fha_main_window.py:150-154 | each leaf's chain of names, read upwards, ends with the names above the subtree |
| Architect.LeafRowsOf | fha_main_window.py:150-154 | the same for the leaves of one item |
| Architect.ChildlessConcat | fha_main_window.py:153 | collecting leaves works piece by piece over the children |
| Architect.LeavesAreChildless | fha_main_window.py:150-154 | the recursive leaf search finds exactly the childless items of a pre-order walk, in that order |
| Architect.LeafOfIsChildless | fha_main_window.py:150-154 | the same for one item's subtree |
| Architect.Reversed | fha_main_window.py:156-158 | the reversed chain has the same names in opposite order |
| Architect.FullPath | fha_main_window.py:156-159 | the prepending loop yields the names from the root down, joined with " / " |
| Architect.ReversedSnoc | fha_main_window.py:158 | prepending while walking up equals reversing the upward chain |
| Architect.SkeletonItemLevels | fha_main_window.py:168-171 | when no name on the path contains '/', the split path gives level 1 as the root name and levels 2 and 3 as the next names or ""; the type and phase are copied |
| Architect.RowItemsMembers | fha_main_window.py:165-172 | a leaf's items are exactly one per checked phase, at most one per phase |
| Architect.SkeletonMembers | fha_main_window.py:161-173 | the skeleton holds exactly one item per checked cell of the matrix |
| Architect.SkeletonMembersStep | fha_main_window.py:164-172 | adding one matrix row adds exactly its checked cells to the skeleton |
| Architect.EarlierCell | fha_main_window.py:164 | a checked cell of an earlier row stays a checked cell |
| Architect.ArchitectDialog.constructor | fha_main_window.py:59-63 | a new dialog has its tree and no matrix yet |
| Architect.ArchitectDialog.UpdateMatrix | fha_main_window.py:134-148 | the matrix gets one row per leaf of the tree, in pre-order, with every box unchecked |
| Architect.ArchitectDialog.SetChecked | fha_main_window.py:142-148 | toggling a box changes exactly that cell |
| Architect.ArchitectDialog.GetFhaSkeleton | fha_main_window.py:161-173 | no matrix gives an empty skeleton; otherwise the skeleton is one item per checked cell, row by row and phase by phase |
| Architect.CheckedItems | fha_main_window.py:165-172 | the phase loop builds exactly one leaf's items |
| Wizard.StepsFrom | fha_main_window.py:235-247 | pressing Next through the remaining modes stores each entry in its slot, stops on the last mode, and only the last press finishes the page |
| Wizard.FullPass | fha_main_window.py:230-247 | from the blank list, one entry per mode yields exactly the entries given |
| Wizard.AnalysisWizard.constructor | fha_main_window.py:178-182 | the wizard starts empty; the function type is the row's, or the generic type when the row has none |
| Wizard.AnalysisWizard.Offered | fha_main_window.py:202-203 | the modes offered are exactly the generic modes and those of the row's type |
| Wizard.AnalysisWizard.SelectModes | fha_main_window.py:208-210 | the selection replaces the selected modes and changes nothing else |
| Wizard.AnalysisWizard.IsComplete | fha_main_window.py:212-213 | the first page may be left exactly when some mode is selected |
| Wizard.AnalysisWizard.InitEffects | fha_main_window.py:230-233 | one blank effect triple per selected mode, starting at the first mode |
| Wizard.AnalysisWizard.ValidateEffects | fha_main_window.py:235-247 | saves the current entry in range, then advances or finishes as one Next press does |
| Wizard.AnalysisWizard.InitHazards | fha_main_window.py:273-276 | one blank hazard pair per selected mode, starting at the first mode |
| Wizard.AnalysisWizard.ValidateHazards | fha_main_window.py:278-290 | saves, advances or finishes; when it finishes, the final results are assembled |
| Wizard.AnalysisWizard.AssembleFinalResults | fha_main_window.py:303-310 | one result per selected mode from its effects and hazard; `IndexError` exactly when a list is shorter than the modes, with the results built so far |
| Wizard.Results | fha_main_window.py:306-310 | result i has mode i, effect triple i and hazard pair i |
| Wizard.CompleteRun | fha_main_window.py:230-290 | a full pass over both pages stores exactly the effects and hazards entered |
| MainWindow.LegendOf | fha_main_window.py:461-462 | the legend shows exactly the ring classifications with drawn rows, each with its count |
| MainWindow.ColumnCounts | fha_main_window.py:423 | one count per function |
| MainWindow.SumColumnCounts | fha_main_window.py:421-423 | over distinct functions, the per-function counts add up to the rows of any of them |
| MainWindow.LegendSumsSlices | fha_main_window.py:421-423 | a classification's legend count equals the sum of its slices over all functions |
| MainWindow.SunburstChart | fha_main_window.py:412-418 | "no data" is drawn exactly when no row is drawn |
| MainWindow.RefreshDashboard | fha_main_window.py:374-382 | the dashboard is cleared exactly when the table is empty |
| MainWindow.DesktopAgreesWithWeb | fha_main_window.py:374-523 | the desktop dashboard shows the same KPIs, cross analysis, sunburst presence, functions and function totals as the single-register API |
| MainWindow.CellIntensity | fha_main_window.py:497-498 | a positive count is shaded with opacity between 90 and 255, at full strength exactly from 6 rows on |
| MainWindow.ShowCellReadsBack | fha_main_window.py:493-499 | a cell's text reads back as its count, and it is highlighted exactly when the count is positive |
| MainWindow.FillCrossTable | fha_main_window.py:491-500 | the nested loops fill every cell of the table from its count |
| MainWindow.FillRow | fha_main_window.py:492-500 | the inner loop fills one row of cells from its counts |
| MainWindow.DroppedOrderFree | fha_main_window.py:642-643 | deleting by a list of labels depends only on which labels it holds |
| MainWindow.ReverseSortedDrop | fha_main_window.py:642-643 | sorting the selection in reverse before deleting changes nothing |
| MainWindow.MainWindow.constructor | fha_main_window.py:532 | the window starts with an empty register |
| MainWindow.MainWindow.NewProject | fha_main_window.py:585-594 | a declined confirmation or a cancelled dialog changes nothing; otherwise the register holds exactly the dialog's skeleton, numbered |
| MainWindow.MainWindow.AddNewRow | fha_main_window.py:614-618 | appends one empty row and renumbers |
| MainWindow.MainWindow.StartAnalysisWizard | fha_main_window.py:620-635 | raises exactly when the selected row is past the end; no selection, a cancelled wizard or empty results change nothing; otherwise the row is replaced by one row per result |
| MainWindow.MainWindow.DeleteSelectedRows | fha_main_window.py:637-645 | no selection or no confirmation changes nothing; `drop` raises exactly when a label is out of range; otherwise the selected rows are removed and the table renumbered |

## Left out

- Qt widgets, layouts, colours, titles and status-bar texts are not modelled. The one exception is the cross-table shading in `MainWindow.CellIntensity`.
- matplotlib drawing is not modelled. The desktop sunburst is modelled by the data it draws: function totals, slices and legend counts.
- The summary and status texts are not modelled as strings. The model keeps what they report: the high-risk count and the top function with its two counts.
- Excel import and export are not modelled. `LoadDataframe` takes the imported rows as dictionaries.
- HTTP routing, request validation and JSON encoding are not modelled. Each endpoint is a method whose reply carries the status code.
- `uuid.uuid4()` and `datetime.now()` are parameters of `ProjectStore.Store.CreateProject`.
- ApiRegister.GetFhaData: the search text is taken literally, not as a regular expression. Case folding covers ASCII letters only.
- Text.Lower: folds ASCII letters only. Python's `lower()` also folds other scripts.
- Indices.ParseInt: strips the ten ASCII whitespace characters (space, \t, \n, \v, \f, \r and \x1c to \x1f) and reads ASCII digits only. Python's `int()` also accepts non-ASCII Unicode whitespace and digits.
- Ids.DigitsOnly: treats only ASCII digits as digits. The `\D` pattern also keeps other Unicode digits.
- ApiRegister.Register.UpdateCell: the row position is a natural number. pandas `.loc` with a negative label appends a new row, and that case is not modelled.
- ProjectStore.Store.UpdateEntry: the entry position is a natural number, for the same reason.
- ProjectStore.Store.UpdateEntry: models the corrected update (see Findings). As written, the endpoint also adds two extra columns to the table. Extra columns are not modelled.
- ProjectStore.Store.RunAnalysisWizard: models the corrected endpoint (see Findings). As written, every request with results fails with 500; `ProjectStore.WizardAsWritten` models that behaviour.
- Text.SplitJoin, Text.NoSeparatorInside, Text.FirstSeparator and Architect.SkeletonItemLevels: proved only for function names that contain no '/'. A name with a '/' can make the split path come back with different levels (for example ["x /", "y"] joins to "x / / y" and splits to ["x", "/ y"]). `Architect.SkeletonItem` itself models the source's split for such names as written.
- `list_projects`, `get_entries` and `add_entry` of the multi-project API are not modelled. They only read or forward to the register. `add_entry` loses the airspace-effect and rationale fields in the same way as `update_entry`.
- The single-register API's definitions endpoint is not modelled. It only returns constants.
- The architecture dialog's tree-editing buttons (add top-level function, add sub-function, delete) are not modelled. The tree is a parameter, `Architect.Item`, and `UpdateMatrix` rebuilds the matrix from it.
- Qt parent links are not modelled. Each leaf carries its chain of names upward.
- The three wizard pages are merged into one class, `Wizard.AnalysisWizard`. Redrawing a page for the current mode is not modelled.
- The order of Qt's row selection is not modelled. It is the `selected` parameter.
- `on_tab_changed` and `update_all_views` are not modelled. They only refresh views.
- Two classifications with the same short label would collide in the API's matrix dictionary. The model keeps both cells.
- ApiRegister.GetDashboardData: the message for an empty table and the text fields are not modelled.
- Table.NextIdAfterLoad: the largest identifier number is exact. The source converts the digit strings with `pd.to_numeric` into a float64 column whenever one identifier has no digit or a number exceeds 64 bits, so above 2^53 its `int(max)` can be a rounded value. The counter is only written, never read, by the source.
- CoreRegister.Register.LoadDataframe: sets the counter by `Table.NextIdAfterLoad`, so it shares that exact-integer simplification.

## Findings

| source | as written | input that shows it | evidently intended | confidence | as-written member | corrected member |
|---|---|---|---|---|---|---|
| fha_api_new/fha_api0.py:260-263 | The wizard endpoint reads `result.对于地面空域的影响` and `result.理由备注`. `WizardResult` (lines 69 and 72) names these fields `对于地面或空域的影响` and `理由或备注`, so each read raises `AttributeError` and the request fails with 500. | A project with one row; `source_index` 0; one result with all six fields filled | the source row is replaced by one row per result, carrying the result's six fields | not executed | ProjectStore.WizardAsWritten | ProjectStore.WizardOutcome |
| fha_api_new/fha_api0.py:192-194 | `entry.dict()` yields field names, not aliases. The airspace-effect and rationale values are written under `对于地面或空域的影响` and `理由或备注`, which are not table columns, so those two cells never change. The rationale's default "" (line 61) is written on every request. | Entry 0 with airspace effect "a"; update with `对于地面/空域的影响` = "b" | the two cells take the requested values, like the other ten | not executed | ProjectStore.WrittenAsWritten | ProjectStore.Written |

`ProjectStore.WizardFinding` and `ProjectStore.AirspaceUpdateLost` prove each
discrepancy. `ProjectStore.Store.RunAnalysisWizard` and
`ProjectStore.Store.UpdateEntry` follow the corrected definitions.
