# OBE attainment tracker, modelled in Dafny

The tracker is a React application for Outcome-Based Education. A teacher
describes a course's assessments, enters or uploads the marks, maps course
outcomes (CO1..CO12) to program outcomes (PO1..PO12), and reads per-student
and class-level attainment. This project models the parts of the application
that compute something:

- **Spreadsheet parser** (`src/utils/excelParser.js`). It finds the
  assessment-configuration block and the student block in a grid of cells. It
  reads the configuration rows, sorts every column into a family, finds the
  ID, Name and No. columns, maps every configured assessment to a data column
  (by header text, with a positional fallback) and reads the roster and the
  marks. Modules `ExcelParser`, `ExcelConfig`, `ExcelColumns`, `ExcelMapping`
  and `ExcelRoster`.
- **Attainment engine** (`src/utils/comprehensiveCalculations.js`). It
  computes fraction-weighted CO scores, mark-weighted PO scores and the
  class-level share of students strictly above a threshold. Module
  `Attainment`; the numbered tables it builds are in `Tables`.
- **Single-exam calculator** (`src/utils/calculations.js`). It differs from
  the engine in three ways: it uses `>=` 50, it evaluates only CO1..CO4, and
  it has a fixed CO→PO table with an unweighted mean. Module `LegacyEngine`.
- **State transitions of the forms**:
  - the results table and grade ladder (`Results`);
  - the CO-PO matrix (`CoPoMapping`);
  - the assessment configuration form (`AssessmentConfig`);
  - the two marks-entry forms (`MarksTables`, `MarksEntry`,
    `ComprehensiveMarksEntry`);
  - the three-step exam wizard (`ConfigurationStepper`, a class over the
    wizard's state);
  - the roster upload's column choice (`Upload`);
  - the threshold and course-information forms (`KpiConfig`, `CourseInfo`).

Shared records are in `Assessments`, the JavaScript string operations in
`Strings`, and the loosely typed spreadsheet cells and their coercions in
`Cells`.

Numbers are exact reals. Loops become methods with invariants. Each method is
proved equal to a recursive specification function, and the source's promises
are proved as lemmas about those functions. Host behaviour the model cannot
write down is passed in as function values and left uninterpreted:

- `parseFloat` and `parseInt` on text (`None` stands for NaN);
- `String(n)` on a number.

They travel in the `Cells.Runtime` record, or as a `parseFloat`/`parseInt`
parameter.

## Model

| member | source | states |
|---|---|---|
| ExcelParser.LocateBlocks | src/utils/excelParser.js:49-81 | The block search (heading scan over the first 30 rows, then the defaults) returns exactly `BlocksOf`. |
| ExcelParser.HeadingScanFirst | src/utils/excelParser.js:52-66 | The student block starts at the first student-header row with a configuration heading at or above it: no earlier student-header row has one at or above it. The configuration block starts at the last heading at or above that row. Without a student header, the configuration start is the last heading, or -1 when there is none. |
| ExcelParser.HeadingScanStopped | src/utils/excelParser.js:63-64 | Once the student heading is found (`break`), later rows change nothing. |
| ExcelParser.FirstNumericRow | src/utils/excelParser.js:74-80 | The first row at or after a start (row 10 in the fallback) that begins with a numeric ID, or -1; no row in between qualifies. |
| ExcelParser.BlocksInRange | src/utils/excelParser.js:68-81 | The configuration start is never negative; the student start is -1 or a row of the sheet. |
| ExcelParser.LastCodeInRowLast | src/utils/excelParser.js:601-606 | Nothing is found in a row (`LastCodeInRow`) exactly when the row has no code cell. Otherwise the code found is that of the row's last code cell: no code cell follows it. |
| ExcelParser.CourseCodeInLast | src/utils/excelParser.js:595-608 | The course code (`CourseCodeIn`) is empty when no course row in range has a code cell. Otherwise it is the code of the last code cell of the last course row that has one, so later assignments overwrite earlier ones. |
| ExcelParser.ExtractCourseInfo | src/utils/excelParser.js:584-611 | The row and column loops compute exactly `CourseInfoOf`. |
| ExcelParser.CourseInfoFacts | src/utils/excelParser.js:584-611 | The course code is empty, or the trimmed text of a cell matching `^[A-Z]{2,4}\s*\d{3}$` in one of the first ten rows mentioning "cse" or "course code". It is empty exactly when there is no such cell. Otherwise it is non-empty and comes from the last such cell of the last such row. The other five fields stay empty. |
| ExcelParser.ParseExcelStructure | src/utils/excelParser.js:46-98 | The parse is exactly `ParseOf`: locate the blocks, then read the configuration, the roster and the course info. |
| ExcelParser.ParseWithFacts | src/utils/excelParser.js:83-97 | Without a student block there are no assessments, students or marks. In every case the marks table holds exactly the listed students, every student passes the skip rule, and at most three mid-term questions are configured. |
| ExcelConfig.FirstRow | src/utils/excelParser.js:127-173 | The first row of a kind in a range, or -1; no earlier row in the range has that kind. |
| ExcelConfig.FirstRowStable | src/utils/excelParser.js:143-170 | A found first row does not move when the range grows. |
| ExcelConfig.FirstRowNext | src/utils/excelParser.js:127-173 | One more row either keeps the first match or becomes it. |
| ExcelConfig.FirstRows | src/utils/excelParser.js:127-173 | Names row < max-marks row < CO row, each inside the scan range and passing its row test; a later row is found only after the earlier one. |
| ExcelConfig.LocateConfigRows | src/utils/excelParser.js:126-173 | The scan loop, with its `continue`s and `break`, finds exactly the rows `FirstRows` describes over [startRow, min(startRow+20, studentDataStartRow)). |
| ExcelConfig.ScanFindsFirstRows | src/utils/excelParser.js:127-173 | The loop's running state equals the first-rows description at every step. |
| ExcelConfig.FoundAll | src/utils/excelParser.js:168-171 | Once all three rows are found, more rows change nothing. |
| ExcelConfig.StepFindsFirstRows | src/utils/excelParser.js:127-173 | While the CO row is missing, one iteration extends the first rows by one row. |
| ExcelConfig.ScanStopped | src/utils/excelParser.js:168-171 | After the CO row is found, the scan state no longer changes. |
| ExcelConfig.CoValue | src/utils/excelParser.js:188-194 | The CO is non-empty exactly when the CO cell parses to a number n in [1, 12], and is then `CO<floor(n)>`, one of CO1..CO12. It is never defaulted. |
| ExcelConfig.Positions | src/utils/excelParser.js:196-197 | The accepted column positions are increasing, below the column count, and one per accepted column. |
| ExcelConfig.ColumnsAtPositions | src/utils/excelParser.js:185-197 | The k-th accepted column is the one read at the k-th recorded position, so every configured assessment carries the name, maximum and CO of its own sheet column. |
| ExcelConfig.ClassifyColumns | src/utils/excelParser.js:185-249 | The column loop builds exactly `Classify`: the configuration from placing the accepted columns in order, and their positions. |
| ExcelConfig.InSlot | src/utils/excelParser.js:199-248 | Every assessment listed for a slot comes from one of the columns. |
| ExcelConfig.PlaceAllByFamily | src/utils/excelParser.js:199-248 | CTs and assignments are their matching columns in order. Questions split into the first three (mid-term) and the rest (final). Attendance and performance hold the last match. |
| ExcelConfig.MidTermAtMostThree | src/utils/excelParser.js:233-247 | Mid-term never holds more than three questions; final questions appear only after three mid-term ones. |
| ExcelConfig.PlaceAllFromInput | src/utils/excelParser.js:199-248 | Every placed assessment comes from one of the columns. |
| ExcelConfig.ColumnAtAccepts | src/utils/excelParser.js:185-194 | A column is accepted exactly when its trimmed name is non-empty and its max mark reads as non-zero (`parseFloat(..) \|\| 0`). An accepted column carries that trimmed name, that maximum, the CO its CO cell gives (`CoValue`) and the family its upper-cased name selects, and is well formed. |
| ExcelConfig.ColumnsWellFormed | src/utils/excelParser.js:185-249 | Every accepted column's assessment has a name, a non-zero maximum and a CO that is "" or CO1..CO12. |
| ExcelConfig.ExtractAssessmentConfig | src/utils/excelParser.js:108-253 | `extractAssessmentConfig` returns exactly `AssessmentConfigOf`: the classified columns, or the empty configuration when any of the three rows is missing. |
| ExcelConfig.NoStudentRowNoConfig | src/utils/excelParser.js:108-127 | With a student start of -1 the scan range is empty: every list is empty, attendance and performance stay null, and there are no positions. |
| ExcelConfig.ConfigOfWellFormed | src/utils/excelParser.js:176-250 | Any configuration read from a sheet has at most three mid-term questions and only well-formed assessments. |
| ExcelColumns.ChooseHeader | src/utils/excelParser.js:266-284 | Data starts at the start row exactly when the row above mentions "ct-", "q1" or "assignment" and the start row does not (then the row above is the header). Otherwise the start row is the header and data starts after it. |
| ExcelColumns.ScanKeyColumns | src/utils/excelParser.js:294-313 | The found ID, Name and No. columns are -1 or columns of the header. |
| ExcelColumns.ScanKeyColumnsFirst | src/utils/excelParser.js:294-313 | No. is the first serial-number header. ID is the first ID header not taken as No. Name is the first name header not taken as No., and never the ID column. |
| ExcelColumns.HeaderKindsExclusive | src/utils/excelParser.js:303-309 | An ID header never contains "name" and a name header always does, so no header is both. |
| ExcelColumns.FirstUnused | src/utils/excelParser.js:326-331 | The first column from `from` outside `usedCols`, or -1 when every column up to the width is used. |
| ExcelColumns.FindFirstUnused | src/utils/excelParser.js:326-331 | The search loop returns exactly `FirstUnused`. |
| ExcelColumns.ScanHeader | src/utils/excelParser.js:294-313 | The header loop returns exactly `ScanKeyColumns`, and the used set holds the columns it took. |
| ExcelColumns.FindKeyColumns | src/utils/excelParser.js:294-334 | The header loop plus the defaults (ID after No. or column 0; Name after ID, else the first unused column) give exactly `WithDefaults`, and `usedCols` is their set. |
| ExcelColumns.KeyColumnsDistinct | src/utils/excelParser.js:315-334 | After the defaults, ID and Name are non-negative and ID is never the No. column. |
| ExcelColumns.IdMayCoincideWithName | src/utils/excelParser.js:315-323 | With a No. header in column 0, a name header in column 1 and no ID header, the defaulted ID column is column 1, the Name column. |
| ExcelMapping.MapExpected | src/utils/excelParser.js:344-405 | Each configured assessment becomes one expected entry, in order. |
| ExcelMapping.FamilyCount | src/utils/excelParser.js:458-463 | The number of entries of a family is at most the number of entries. |
| ExcelMapping.FamilyCountAppend | src/utils/excelParser.js:458-463 | Family counts add over concatenation. |
| ExcelMapping.FamilyCountUniform | src/utils/excelParser.js:458-463 | A block of one family counts its length for that family and 0 for the others. |
| ExcelMapping.KeyedAppend | src/utils/excelParser.js:344-405 | Concatenating keyed blocks keeps every entry keyed `"<type>_<name>"`. |
| ExcelMapping.ExpectedOrderKeys | src/utils/excelParser.js:343-405 | The expected order lists every CT, assignment, mid-term and final question once, plus one entry per present slot, each under its mark key. |
| ExcelMapping.BlockCounts | src/utils/excelParser.js:343-405 | Across the six blocks of the expected order, the mid-term and final counts are those of their own blocks. |
| ExcelMapping.ExpectedOrderCounts | src/utils/excelParser.js:382-405 | The expected order has as many mid-term and final entries as the configuration has questions. |
| ExcelMapping.MappedCount | src/utils/excelParser.js:458-463 | The count of mapped entries of a family never exceeds that family's count. |
| ExcelMapping.UnmappedLeavesRoom | src/utils/excelParser.js:465-469 | An unmapped entry leaves its family's mapped count below the family's count. |
| ExcelMapping.CountConditionRedundant | src/utils/excelParser.js:456-473 | For an unmapped entry, the context-free question rule's count test always passes: the rule is decided by the header's digits and "mid"/"final" context alone. |
| ExcelMapping.FirstTaken | src/utils/excelParser.js:419-477 | The entry a header takes is the first unmapped entry at or after the start that the header matches; every earlier one is mapped or not matched. |
| ExcelMapping.MatchHeader | src/utils/excelParser.js:419-477 | The loop over the expected order for one header returns exactly `FirstTaken`. |
| ExcelMapping.MatchHeaders | src/utils/excelParser.js:407-478 | The text pass over all header columns returns exactly `MatchColumns`. |
| ExcelMapping.NextFree | src/utils/excelParser.js:511-513 | The skip loop stops at the first column at or after the start that is unused, or at the width. |
| ExcelMapping.FillColumns | src/utils/excelParser.js:509-534 | The positional fill (all entries, or only the unmapped ones) returns exactly `Fill`. |
| ExcelMapping.MapColumns | src/utils/excelParser.js:480-535 | The column map is exactly `ColumnMap`: the text pass, then the 50% rule choosing between a full positional remap and a fill of the gaps. |
| ExcelMapping.MatchColumnsSound | src/utils/excelParser.js:407-478 | The text pass maps only unreserved header columns, each to at most one key. |
| ExcelMapping.FillSound | src/utils/excelParser.js:506-534 | The positional fill keeps the map sound. |
| ExcelMapping.MatchColumnsWiden | src/utils/excelParser.js:407-478 | A sound map over the first columns is sound over the whole header. |
| ExcelMapping.ColumnMapSound | src/utils/excelParser.js:480-535 | The final map is injective, stays inside the header row, and never uses the ID, Name or No. column. |
| ExcelMapping.FillKeepsMapped | src/utils/excelParser.js:522-534 | Filling the gaps never changes an already (truthily) mapped key. |
| ExcelMapping.TextMatchesKept | src/utils/excelParser.js:520-535 | When at least half the expected entries matched by text, every text match on a column other than 0 survives. |
| ExcelMapping.FreeColumnsBounds | src/utils/excelParser.js:509-519 | The free columns lie in range, outside the used set, in increasing order. |
| ExcelMapping.FreeColumnsHead | src/utils/excelParser.js:511-517 | The first free column is where the skip loop stops. |
| ExcelMapping.FreeColumnsAbove | src/utils/excelParser.js:509-519 | Only columns from the current one on matter to the free columns and the skip loop. |
| ExcelMapping.PositionMapPlaced | src/utils/excelParser.js:509-519 | With distinct keys, entry i holds the i-th free column when there is one, and nothing else is mapped. |
| ExcelMapping.FillByPositionStep | src/utils/excelParser.js:509-519 | One step of the full remap keeps the column bookkeeping and extends the position map. |
| ExcelMapping.FillByPosition | src/utils/excelParser.js:509-519 | The full remap from an empty map builds the position map. |
| ExcelMapping.FallbackByPosition | src/utils/excelParser.js:494-519 | When fewer than half matched by text, the text matches play no part. The i-th expected entry takes the i-th column after ID and Name that is none of ID, Name and No.; entries beyond the last such column take none. A key shared by several entries (two same-named columns of one family) keeps the column of the last entry that took one, and a key is mapped exactly when some entry carrying it took a column. With distinct keys, every entry keeps its own column. |
| ExcelMapping.PositionMapLastWins | src/utils/excelParser.js:509-519 | With repeated keys, a later assignment overwrites an earlier one: an entry keeps its free column when no later entry with a free column shares its key. |
| ExcelMapping.PositionMapKeys | src/utils/excelParser.js:509-519 | With repeated keys, a key is mapped exactly when some entry carrying it took a free column. |
| ExcelRoster.ReadStudentSkipRule | src/utils/excelParser.js:541-558 | A row yields a student exactly when it is non-empty, its trimmed ID and name are non-empty, the lower-case ID lacks "id" and the lower-case name lacks "name". The student is that trimmed pair. |
| ExcelRoster.CoerceMarkCases | src/utils/excelParser.js:564-575 | A blank cell reads 0, a number reads itself, parseable text reads its number, and other text reads 0. |
| ExcelRoster.RowMarksKeys | src/utils/excelParser.js:561-575 | A row's marks record has exactly the mapped keys, each holding the coerced cell of its column. |
| ExcelRoster.ReadRoster | src/utils/excelParser.js:538-576 | The row loop returns exactly `RosterOf`. |
| ExcelRoster.RosterIds | src/utils/excelParser.js:558-561 | The marks table has a record for exactly the listed students. |
| ExcelRoster.RosterFromRows | src/utils/excelParser.js:538-558 | Every listed student is the one some data row names. |
| ExcelRoster.RosterLastRowWins | src/utils/excelParser.js:561 | A student named by several rows keeps the marks record of the last of them (`marks[id] = {}` resets it). |
| ExcelRoster.ExtractStudentData | src/utils/excelParser.js:258-579 | `extractStudentData` returns exactly `StudentData`. |
| ExcelRoster.StudentDataFacts | src/utils/excelParser.js:258-579 | With startRow -1 or past the sheet there are no students or marks. Otherwise every student passes the skip rule, the table holds exactly the listed ids, every record holds exactly the mapped keys, and the map is injective, inside the header and off the ID, Name and No. columns. |
| Attainment.AllAssessmentsDefault | src/utils/comprehensiveCalculations.js:7-30 | The engine's list is the shared list (cts, midTerm, final, assignments, then the renamed slots) with only performance's empty CO replaced by CO2; a performance entry always has a CO. |
| Attainment.GetAllAssessments | src/utils/comprehensiveCalculations.js:7-30 | The pushes build exactly `AllAssessments`. |
| Attainment.RelevantMembers | src/utils/comprehensiveCalculations.js:41 | The filter keeps exactly the assessments of that CO. |
| Attainment.CalculateStudentCO | src/utils/comprehensiveCalculations.js:37-70 | `calculateStudentCO` returns exactly `StudentCOOf`. |
| Attainment.CoPercentage | src/utils/comprehensiveCalculations.js:54-67 | The `forEach` accumulates exactly `CoSum`. |
| Attainment.TermClosedForm | src/utils/comprehensiveCalculations.js:58-66 | One assessment adds mark / T, and exactly 0 when its max is 0, despite the 1e-8 substitution. |
| Attainment.CoSumClosedForm | src/utils/comprehensiveCalculations.js:54-67 | The accumulated sum is (marks obtained on the nonzero-max assessments) / T. |
| Attainment.StudentCOClosedForm | src/utils/comprehensiveCalculations.js:37-70 | A CO score is 100 · Σ mark / T over the CO's assessments with nonzero max, and 0 when T is 0 or no assessment carries the CO. |
| Attainment.MarkSumBounded | src/utils/comprehensiveCalculations.js:56-67 | Marks between 0 and each max sum to between 0 and the total max. |
| Attainment.PercentageBounded | src/utils/comprehensiveCalculations.js:69 | 100 · s / t lies in [0, 100] when 0 ≤ s ≤ t. |
| Attainment.StudentCOBounded | src/utils/comprehensiveCalculations.js:56-69 | With every mark in [0, max], the CO score lies in [0, 100]. |
| Attainment.StudentCONotClamped | src/utils/comprehensiveCalculations.js:69 | The score is not clamped: 20 out of 10 on the only CO1 assessment gives 200. |
| Attainment.CalculateStudentPO | src/utils/comprehensiveCalculations.js:77-116 | `calculateStudentPO` returns exactly `StudentPOOf`. |
| Attainment.RelatedCOs | src/utils/comprehensiveCalculations.js:79-86 | The loop collects exactly CO1..CO12 whose cell for the PO is the number 1, in order. |
| Attainment.WeighCOs | src/utils/comprehensiveCalculations.js:94-111 | The `forEach` accumulates the total weight and weighted sum over the linked COs with positive total marks. |
| Attainment.WeightPositive | src/utils/comprehensiveCalculations.js:107-113 | The total weight is never negative, and positive exactly when some linked CO has positive total marks. |
| Attainment.StudentPOBetween | src/utils/comprehensiveCalculations.js:77-116 | A PO score lies between the lowest and highest score of its contributing COs, and is 0 when none contributes. |
| Attainment.StudentPOReadsOwnColumn | src/utils/comprehensiveCalculations.js:81-86 | The PO score reads only its own column of the matrix. |
| Attainment.AllStudentCOs | src/utils/comprehensiveCalculations.js:121-138 | `calculateAllStudentCOs` builds exactly `StudentCOsOf`. |
| Attainment.StudentCORow | src/utils/comprehensiveCalculations.js:126-134 | The inner loop builds exactly one student's CO row. |
| Attainment.CoRowFacts | src/utils/comprehensiveCalculations.js:124-134 | A student's CO row has exactly CO1..CO12, and COk is the student's score for COk. |
| Attainment.AllStudentPOs | src/utils/comprehensiveCalculations.js:143-161 | `calculateAllStudentPOs` builds exactly `StudentPOsOf`. |
| Attainment.StudentPORow | src/utils/comprehensiveCalculations.js:148-157 | The inner loop builds exactly one student's PO row. |
| Attainment.PoRowFacts | src/utils/comprehensiveCalculations.js:146-158 | A student's PO row has exactly PO1..PO12, and POk is the PO score. |
| Attainment.StudentPOInRange | src/utils/comprehensiveCalculations.js:97-115 | PO scores computed from CO scores in [0, 100] lie in [0, 100]. |
| Attainment.WeightedSumBounds | src/utils/comprehensiveCalculations.js:94-111 | When every positively weighted CO score lies in [lo, hi], the weighted sum lies between lo and hi times the total weight. |
| Attainment.LinkedCOsAgree | src/utils/comprehensiveCalculations.js:79-86 | Two matrices that link the same COs to a PO relate the same COs to it. |
| Attainment.CoRowInRange | src/utils/comprehensiveCalculations.js:124-134 | A student's CO row keeps every score in [0, 100] when the scores are. |
| Attainment.PoRowInRange | src/utils/comprehensiveCalculations.js:146-158 | From CO scores in [0, 100], every PO1..PO12 of the PO row is present and lies in [0, 100]. |
| Attainment.StudentPOBounded | src/utils/comprehensiveCalculations.js:121-161 | With every mark in [0, max], every student's PO scores lie in [0, 100]. |
| Attainment.CountAboveIsFilter | src/utils/comprehensiveCalculations.js:176-180 | The count is the size of the filter of students strictly above the threshold, so at most the class size. |
| Attainment.CountAboveAntitone | src/utils/comprehensiveCalculations.js:176-180 | Raising the threshold never counts more students. |
| Attainment.CountAboveExtremes | src/utils/comprehensiveCalculations.js:176-180 | A score equal to the threshold is not counted; if everyone is strictly above, everyone is counted. |
| Attainment.PercentAboveBounds | src/utils/comprehensiveCalculations.js:168-200 | The class-level attainment is 0 with no students and otherwise lies in [0, 100]. |
| Attainment.PercentAboveAntitone | src/utils/comprehensiveCalculations.js:168-200 | The attainment never increases when the threshold is raised. |
| Attainment.PercentAboveExtremes | src/utils/comprehensiveCalculations.js:168-200 | Nobody strictly above gives 0; everybody strictly above gives 100. |
| Attainment.CalculateAllAttainments | src/utils/comprehensiveCalculations.js:205-271 | `calculateAllAttainments` returns exactly `AttainmentsOf`. |
| Attainment.CoAttainments | src/utils/comprehensiveCalculations.js:226-238 | The CO loop builds CO1..CO12, each holding the pass-mark and KPI shares. |
| Attainment.PoAttainments | src/utils/comprehensiveCalculations.js:241-260 | The PO loop builds PO1..PO12, each holding the pass-mark and KPI shares of the PO scores. |
| Attainment.AttainmentsFacts | src/utils/comprehensiveCalculations.js:205-271 | Every student gets a CO row and a PO row with exactly the twelve keys. The class-level tables hold exactly CO1..CO12 and PO1..PO12 with every figure in [0, 100], and the thresholds are returned as given. |
| Attainment.COMarkAllocations | src/utils/comprehensiveCalculations.js:276-290 | The loop builds CO1..CO12, each holding its CO's total max marks. |
| Attainment.AllocationsAreDivisors | src/utils/comprehensiveCalculations.js:276-290 | Each CO's allocation is the total T its score divides by: score = 100 · Σ mark / allocation. |
| LegacyEngine.CoQuestions | src/utils/calculations.js:25 | The filter keeps at most all the questions. |
| LegacyEngine.CoQuestionsMembers | src/utils/calculations.js:25 | The filter keeps exactly the questions tagged with the CO. |
| LegacyEngine.CalculateCOScore | src/utils/calculations.js:21-44 | `calculateCOScore` returns exactly `Score`. |
| LegacyEngine.FilteredSums | src/utils/calculations.js:25-38 | The sums over the filtered questions are the tagged sums over all questions. |
| LegacyEngine.ScoreClosedForm | src/utils/calculations.js:21-44 | The score is 100 · Σ obtained / Σ max over the tagged questions. It is 0 with no tagged question or when the maxima sum to 0, and a missing or blank mark counts 0. |
| LegacyEngine.ObtainedBounded | src/utils/calculations.js:32-38 | Marks in [0, max] sum to between 0 and the summed maximum. |
| LegacyEngine.ScoreBounded | src/utils/calculations.js:21-44 | With every tagged mark in [0, max], the score lies in [0, 100]. |
| LegacyEngine.Scores | src/utils/calculations.js:57-59 | One score per student, in student order. |
| LegacyEngine.StudentScores | src/utils/calculations.js:57-59 | The map over the students builds exactly `Scores`. |
| LegacyEngine.AttainedCountIsFilter | src/utils/calculations.js:61-63 | The attained count is the size of the filter of attaining scores, so at most the number of students. |
| LegacyEngine.FiftyAttains | src/utils/calculations.js:46-49 | The threshold is inclusive: scores of exactly 50 attain. |
| LegacyEngine.CalculateCOAttainment | src/utils/calculations.js:52-77 | `calculateCOAttainment` builds exactly `CoAttainmentOf`. |
| LegacyEngine.CoAttainmentKeys | src/utils/calculations.js:53 | Exactly CO1..CO4 are evaluated, and COk holds COk's entry. |
| LegacyEngine.CoResultFacts | src/utils/calculations.js:56-73 | `totalStudents` is the class size, there is one score per student in order, attainedCount ≤ totalStudents, and the percentage is in [0, 100] and 0 without students. |
| LegacyEngine.AddToNew | src/utils/calculations.js:87-95 | A PO met for the first time gets a group of its one CO. |
| LegacyEngine.GroupByPo | src/utils/calculations.js:84-96 | The grouping loop builds exactly `Groups` over PO_MAPPING. |
| LegacyEngine.FirstGroups | src/utils/calculations.js:7-10 | The first three pairs give PO1, PO2 and PO9 one CO each. |
| LegacyEngine.GroupsFixed | src/utils/calculations.js:7-12 | PO1 gathers CO1, PO2 gathers CO2 then CO4, PO9 gathers CO3. |
| LegacyEngine.SumBetween | src/utils/calculations.js:104 | Values in [lo, hi] sum to between n·lo and n·hi. |
| LegacyEngine.MeanBetween | src/utils/calculations.js:102-105 | The mean of values in [lo, hi] lies in [lo, hi]. |
| LegacyEngine.CalculatePOAttainment | src/utils/calculations.js:80-115 | `calculatePOAttainment` builds exactly `PoAttainmentOf`. |
| LegacyEngine.PoEntry | src/utils/calculations.js:99-112 | Each of PO1, PO2 and PO9 has the entry of the fixed table. |
| LegacyEngine.PoAttainmentFixed | src/utils/calculations.js:80-115 | The PO table holds exactly PO1, PO2 and PO9 with their names. PO1 and PO9 take their single CO's percentage; PO2 takes the plain mean of CO2 and CO4. |
| LegacyEngine.GroupsAligned | src/utils/calculations.js:94-95 | Every grouped CO is paired with its own percentage. |
| LegacyEngine.PoBetween | src/utils/calculations.js:100-106 | A PO percentage lies between the lowest and highest percentage of its COs. |
| LegacyEngine.CalculateAllAttainments | src/utils/calculations.js:118-131 | `calculateAllAttainments` returns exactly `ReportOf`. |
| LegacyEngine.CoPercentsBounded | src/utils/calculations.js:95 | Every CO percentage the PO step reads lies in [0, 100]; a CO outside CO1..CO4 reads 0. |
| LegacyEngine.ReportBounded | src/utils/calculations.js:118-131 | Every CO and PO percentage lies in [0, 100], and the constants are 40, 50 and 80. |
| Results.GradeBands | src/components/Results.jsx:18-28 | A percentage gets exactly the grade of its band (80+ A+, 75 A, 70 A-, 65 B+, 60 B, 55 B-, 50 C+, 45 C, below F); negatives get F. |
| Results.GradeMonotone | src/components/Results.jsx:18-28 | A higher percentage never yields a lower grade. |
| Results.ColorKeys | src/components/Results.jsx:34-44 | The colour table's keys are exactly the nine grade labels. |
| Results.ColorDefault | src/components/Results.jsx:45 | Any text that is not a grade label gets the gray default. |
| Results.ObtainedTotal | src/components/Results.jsx:86-92 | The loop sums `marks[id]["<type>_<name>"]` over the assessments, missing or blank as 0. |
| Results.StudentRow | src/components/Results.jsx:84-108 | One student's row is exactly `ResultOf`. |
| Results.StudentResults | src/components/Results.jsx:50-110 | The memoised computation returns exactly `ResultsOf`. |
| Results.ResultsShape | src/components/Results.jsx:50-110 | No results when assessments, students or marks are absent. Otherwise there is one result per student, in order, with the student's id and name, the common maximum, and the grade of its own percentage; the percentage is 0 when the maximum is not positive. |
| Results.MaxTotalAppend | src/components/Results.jsx:75-81 | The maximum total adds over concatenation. |
| Results.MaxTotalTyped | src/components/Results.jsx:55-66 | Tagging a family's list keeps its summed maximum. |
| Results.TotalMaxIsSum | src/components/Results.jsx:54-81 | `totalMaxMarks` is the sum of the four lists' maxima plus attendance and performance when present. |
| Results.ObtainedBounded | src/components/Results.jsx:86-92 | Marks in [0, max] sum to between 0 and the maximum total. |
| Results.PercentageBounded | src/components/Results.jsx:95-97 | With every mark in [0, max], a student's percentage lies in [0, 100]. |
| CoPoMapping.InitialMapping | src/components/COPOMapping.jsx:35-48 | The initial matrix is the existing mapping unchanged, otherwise the zero matrix built by the nested loops. |
| CoPoMapping.ZeroMatrixFacts | src/components/COPOMapping.jsx:39-47 | The zero matrix has exactly the 144 cells CO1..CO12 × PO1..PO12, all 0, so nothing is linked. |
| CoPoMapping.LinkedCOsMembers | src/components/COPOMapping.jsx:64-69 | The COs listed for a PO are exactly those whose cell is the number 1. |
| CoPoMapping.LinkedCOsCount | src/components/COPOMapping.jsx:64-69 | The count equals the number of linked COs, at most 12. |
| CoPoMapping.Totals | src/components/COPOMapping.jsx:58-73 | The totals effect builds exactly `TotalsOf`. |
| CoPoMapping.TotalsFacts | src/components/COPOMapping.jsx:58-73 | Every PO1..PO12 gets the number of COs whose cell is exactly 1, which lies in [0, 12]. |
| CoPoMapping.InitialTotals | src/components/COPOMapping.jsx:50-56 | The initial totals loop builds PO1..PO12 holding 0. |
| CoPoMapping.InitialTotalsZero | src/components/COPOMapping.jsx:50-56 | The initial totals are PO1..PO12, all 0. |
| CoPoMapping.InitialTotalsAgree | src/components/COPOMapping.jsx:50-73 | The initial totals agree with the totals of the zero matrix. |
| CoPoMapping.Toggle | src/components/COPOMapping.jsx:75-83 | Only cell [co][po] changes; every other row and cell is unchanged. |
| CoPoMapping.ToggleFlips | src/components/COPOMapping.jsx:80 | A toggle flips whether (co, po) is linked and no other pair: 1 becomes 0, anything else (0, "1", missing) becomes 1. |
| CoPoMapping.ToggleTwice | src/components/COPOMapping.jsx:80 | Toggling a 0/1 cell twice restores the matrix. |
| CoPoMapping.ToggleTotal | src/components/COPOMapping.jsx:58-83 | After a toggle of (COk, po), po's total drops by one if the cell was linked and rises by one otherwise. |
| CoPoMapping.ToggleOtherTotals | src/components/COPOMapping.jsx:58-83 | A toggle leaves every other PO's linked COs as they were. |
| AssessmentConfig.WithItems | src/components/AssessmentConfig.jsx:22-25 | Writing one family's list changes that list only. |
| AssessmentConfig.WithOwnItems | src/components/AssessmentConfig.jsx:22-25 | Writing back a family's own list changes nothing. |
| AssessmentConfig.Add | src/components/AssessmentConfig.jsx:16-26 | `{name:'', maxMarks:0, co:''}` is appended to that family; the other lists and both slots are unchanged. |
| AssessmentConfig.DropIndexSlices | src/components/AssessmentConfig.jsx:31 | The filter cuts out exactly position `index` when it is a position of the list, and keeps the list otherwise. |
| AssessmentConfig.RemoveEffect | src/components/AssessmentConfig.jsx:28-33 | Removing index i drops exactly that item, keeping the order of the rest. An out-of-range index leaves the configuration unchanged, and the other families never change. |
| AssessmentConfig.RemoveUndoesAdd | src/components/AssessmentConfig.jsx:16-33 | Removing the item just added restores the configuration. |
| AssessmentConfig.SetField | src/components/AssessmentConfig.jsx:38 | The edit sets exactly the named field. |
| AssessmentConfig.MarksEdit | src/components/AssessmentConfig.jsx:97 | The marks input stores `parseFloat(text) \|\| 0`: text that does not parse stores 0. |
| AssessmentConfig.Update | src/components/AssessmentConfig.jsx:35-41 | One field of one item changes; every other item, family and slot is unchanged. |
| AssessmentConfig.UpdateSpecial | src/components/AssessmentConfig.jsx:43-48 | One field of attendance or performance changes (a null slot becomes a blank item with that field). The other slot and the lists are unchanged. |
| AssessmentConfig.SubmitAccepts | src/components/AssessmentConfig.jsx:50-65 | The configuration is handed on exactly when every list item has a name, maxMarks > 0 and a CO, and both slots are present with maxMarks > 0; the slots' CO is not required. |
| AssessmentConfig.DefaultAccepted | src/components/AssessmentConfig.jsx:5-14 | The default configuration (empty lists, both slots worth 10 with no CO) is accepted and lists only the two slots. |
| AssessmentConfig.AddBlocksSubmit | src/components/AssessmentConfig.jsx:16-26 | A freshly added item makes submission fail. |
| AssessmentConfig.ClearedNameBlocksSubmit | src/components/AssessmentConfig.jsx:35-56 | Clearing an item's name makes submission fail. |
| AssessmentConfig.RemoveKeepsAccepted | src/components/AssessmentConfig.jsx:28-65 | Removing an item from an accepted configuration keeps it accepted. |
| MarksTables.FillKeysCells | src/components/MarksEntry.jsx:29-34 | Filling a record adds exactly the missing keys, each holding `''`, and keeps every stored value. |
| MarksTables.KeysMissingStep | src/components/MarksEntry.jsx:29-34 | One more key is a new miss exactly when it is missing from the record filled so far. |
| MarksTables.FillKeysChanges | src/components/MarksEntry.jsx:29-34 | Filling changes a record exactly when one of the keys was missing. |
| MarksTables.CompleteRecord | src/components/ComprehensiveMarksEntry.jsx:46-52 | The inner loop yields the filled record, and `missing` records whether any key was missing. |
| MarksTables.StudentTurn | src/components/MarksEntry.jsx:25-34 | One student's turn creates the record when absent and completes it; the flag records whether anything was missing. |
| MarksTables.FillCells | src/components/MarksEntry.jsx:24-35 | Cell by cell, a stored mark stays, a missing cell of a listed student under a listed key becomes `''`, and nothing else appears. |
| MarksTables.FillSound | src/components/ComprehensiveMarksEntry.jsx:25-53 | After completion every student has every key, no stored mark is overwritten, and every added cell holds `''`. |
| MarksTables.FillIdentity | src/components/MarksEntry.jsx:24-39 | Completion leaves the table as it is exactly when every listed student already has every key. |
| MarksTables.FillRecordChanges | src/components/MarksEntry.jsx:25-34 | A student's turn changes the table exactly when it finds something missing. |
| MarksTables.FillRecordExtends | src/components/MarksEntry.jsx:25-34 | A student's turn keeps every stored record and cell. |
| MarksTables.ExtendsAntisymmetric | src/components/MarksEntry.jsx:24-35 | Two tables that each keep every record and cell of the other are equal. |
| MarksTables.HasChangesIff | src/components/MarksEntry.jsx:37-39 | `hasChanges` is raised exactly when the completed table differs from the old one, so state is replaced only when something was missing. |
| MarksTables.FillIdempotent | src/components/ComprehensiveMarksEntry.jsx:20-58 | Completing an already completed table changes nothing. |
| MarksTables.Entered | src/components/ComprehensiveMarksEntry.jsx:65 | A cell input stores `''` exactly for empty text, otherwise the parsed number, or 0 when it does not parse. |
| MarksTables.UpdateMark | src/components/ComprehensiveMarksEntry.jsx:60-68 | Only `marks[id][key]` changes; every other key and student is unchanged. |
| MarksTables.UpdateKeepsComplete | src/components/MarksEntry.jsx:42-50 | Editing a cell keeps a completed table complete. |
| MarksTables.UpdateReadBack | src/components/MarksEntry.jsx:42-50 | The calculations read an edited cell back as its number, or 0 for `''`. |
| MarksTables.InitialMarks | src/components/MarksEntry.jsx:12-17 | The initial table is the stored one when non-empty, else `{}`, so always the stored table or empty. |
| MarksEntry.QuestionNames | src/components/MarksEntry.jsx:29-33 | The keys are the question names, in order. |
| MarksEntry.Initialise | src/components/MarksEntry.jsx:19-40 | The effect's table is the completion over the question names. `hasChanges` holds exactly when the table was incomplete, and exactly when the table changed. |
| ComprehensiveMarksEntry.SlotKeys | src/components/ComprehensiveMarksEntry.jsx:39-51 | A present attendance or performance slot is keyed `attendance_Attendance` or `performance_Performance`, whatever its stored name. |
| ComprehensiveMarksEntry.SlotKeyTexts | src/components/ComprehensiveMarksEntry.jsx:47 | The slot keys spell out as `attendance_Attendance` and `performance_Performance`. |
| ComprehensiveMarksEntry.SlotEntriesListed | src/components/ComprehensiveMarksEntry.jsx:39-44 | A present slot's key is among the configuration's keys. |
| ComprehensiveMarksEntry.KeyListed | src/components/ComprehensiveMarksEntry.jsx:46-47 | Every entry's key is among the listed keys. |
| ComprehensiveMarksEntry.Initialise | src/components/ComprehensiveMarksEntry.jsx:20-58 | The effect's table is the completion over every configured assessment's key. `hasChanges` holds exactly when the table was incomplete, and exactly when it changed. |
| ComprehensiveMarksEntry.TabCountsMatch | src/components/ComprehensiveMarksEntry.jsx:153-160 | Every tab's count equals the length of the list its table shows. |
| ComprehensiveMarksEntry.SlotTabs | src/components/ComprehensiveMarksEntry.jsx:70-80 | A slot tab shows one row exactly when the slot is present; an unknown tab id shows `[]`. |
| ComprehensiveMarksEntry.TabsCoverEntries | src/components/ComprehensiveMarksEntry.jsx:70-80 | The six tabs, each typed with its family, join to exactly the list of entries the initialisation prepares. |
| ConfigurationStepper.ResizedShape | src/components/ConfigurationStepper.jsx:28-45 | The resized list has exactly numQuestions items (none if ≤ 0). Items below the old length are kept; item i beyond it is `{Q<i+1>, CO1, 10}`. |
| ConfigurationStepper.ResizeToLength | src/components/ConfigurationStepper.jsx:29 | Resizing to the current length changes nothing. |
| ConfigurationStepper.GrowThenShrink | src/components/ConfigurationStepper.jsx:28-45 | Growing the list and shrinking it back restores it. |
| ConfigurationStepper.CountInput | src/components/ConfigurationStepper.jsx:179 | `parseInt(text) \|\| 1`: unparseable text and 0 give 1, other numbers themselves. |
| ConfigurationStepper.PaddingReady | src/components/ConfigurationStepper.jsx:35-39 | Every padding question passes the step-2 check. |
| ConfigurationStepper.ResizeKeepsReady | src/components/ConfigurationStepper.jsx:28-45 | Resizing a list of ready questions leaves only ready questions. |
| ConfigurationStepper.Wizard.constructor | src/components/ConfigurationStepper.jsx:11-26 | Step 1, the stored type, and the stored questions, or `[{Q1, CO1, 10}]` when none; the count matches the list. |
| ConfigurationStepper.Wizard.SelectExamType | src/components/ConfigurationStepper.jsx:135 | An exam-type button sets the type and nothing else. |
| ConfigurationStepper.Wizard.Step1Complete | src/components/ConfigurationStepper.jsx:53-57 | Step 1→2 happens exactly when an exam type is chosen. |
| ConfigurationStepper.Wizard.SetNumQuestions | src/components/ConfigurationStepper.jsx:179 | The count input sets `parseInt(text) \|\| 1`, and the effect it triggers resizes the list to that count. |
| ConfigurationStepper.Wizard.ResizeEffect | src/components/ConfigurationStepper.jsx:28-45 | The effect leaves the old list cut or padded to the count; it rebuilds only when the length differs. |
| ConfigurationStepper.Wizard.UpdateQuestion | src/components/ConfigurationStepper.jsx:47-51 | One field of one question changes; the rest of the state is unchanged. |
| ConfigurationStepper.Wizard.Step2Complete | src/components/ConfigurationStepper.jsx:59-67 | Step 2→3 happens exactly when every question has a CO, maxMarks > 0 and a non-blank trimmed name. |
| ConfigurationStepper.Wizard.BackToStep1 | src/components/ConfigurationStepper.jsx:247 | Back in step 2 moves to step 1 and changes nothing else. |
| ConfigurationStepper.Wizard.BackToStep2 | src/components/ConfigurationStepper.jsx:270 | Back in step 3 moves to step 2 and changes nothing else. |
| ConfigurationStepper.Wizard.Config | src/components/ConfigurationStepper.jsx:69-75 | The configuration handed on has a chosen type and only ready questions. |
| ConfigurationStepper.CompletedFlags | src/components/ConfigurationStepper.jsx:77-81 | Step s is flagged completed exactly when s < 3 and the current step is past s. |
| Upload.Find | src/components/UploadComponent.jsx:32-41 | `find` returns the first key satisfying the test, or nothing when none does. |
| Upload.IdKeyRules | src/components/UploadComponent.jsx:32-41 | The ID column is a first-row key chosen by the primary rule when any key satisfies it, and by the "student" fallback only otherwise. There is none exactly when no key satisfies either rule. |
| Upload.NameKeyRules | src/components/UploadComponent.jsx:44-62 | The name column never contains "id" and is never the ID column. When some key contains "name" (and is not the ID column) it is the first such key; otherwise it is the first key containing "student" without "id". There is none exactly when no key satisfies either rule. |
| Upload.RosterShape | src/components/UploadComponent.jsx:21-69 | An empty sheet gives the error and no roster. Otherwise there is one student per row, in row order, with the trimmed cells of the chosen columns ('' for a missing cell), or `STUDENT-<i+1>` and `Student <i+1>` when a column is missing. |
| Upload.DefaultIdsDistinct | src/components/UploadComponent.jsx:65 | Without an ID column, every student gets a distinct id. |
| KpiConfig.HandleChange | src/components/KPIConfig.jsx:13-15 | `handleChange` stores `parseFloat(value) \|\| 0` in the named field only. |
| KpiConfig.DefaultsAccepted | src/components/KPIConfig.jsx:5-27 | The defaults are 40, 50 and 50 and are accepted; thresholds above 100 are accepted too. |
| KpiConfig.NonNumericRejected | src/components/KPIConfig.jsx:13-27 | Entering text that does not parse stores 0, and the thresholds are then rejected. |
| CourseInfo.Set | src/components/CourseInfo.jsx:16-18 | `handleChange` sets the named field only. |
| CourseInfo.ValidIff | src/components/CourseInfo.jsx:20-28 | Submission is accepted exactly when all six fields are non-blank after trim. |
| CourseInfo.BlankRejected | src/components/CourseInfo.jsx:5-22 | The default record of six empty fields is always rejected. |
| CourseInfo.SetValidity | src/components/CourseInfo.jsx:16-22 | Clearing any field makes the record invalid; filling a field of a valid record keeps it valid. |
| Assessments.PushAll | src/components/Results.jsx:55-66 | `forEach(a => all.push({...a, type}))` appends the family's items, tagged, in order. |
| Assessments.AllEntries | src/components/Results.jsx:54-72 | The pushes build exactly `Entries`: cts, midTerm, final, assignments, then the present slots renamed "Attendance" and "Performance". |
| Assessments.CoKeyInjective | src/utils/comprehensiveCalculations.js:126-127 | Distinct outcome numbers give distinct `CO${n}` keys. |
| Assessments.PoKeyInjective | src/utils/comprehensiveCalculations.js:148-149 | Distinct outcome numbers give distinct `PO${n}` keys. |
| Tables.NumberedFacts | src/utils/comprehensiveCalculations.js:126-134 | A table built by a numbered loop with distinct keys has exactly keys 1..n, and key(j) holds f(j). |
| Tables.CoTable | src/utils/comprehensiveCalculations.js:280-287 | A table over CO1..CO12 has exactly those keys, and COk holds f(k). |
| Tables.PoTable | src/utils/comprehensiveCalculations.js:242-260 | A table over PO1..PO12 has exactly those keys, and POk holds f(k). |
| Tables.IdsNext | src/utils/comprehensiveCalculations.js:124-125 | Each student's turn adds exactly that student's id to the table. |
| Cells.CellOrBlank | src/utils/excelParser.js:186 | `String(x \|\| '')` reads a falsy cell (blank, '' or 0) as ''. |
| Strings.NatToStringRoundTrip | src/components/ConfigurationStepper.jsx:36 | The decimal text of n reads back as n. |
| Strings.NatToStringInjective | src/components/UploadComponent.jsx:65 | Distinct numbers have distinct decimal texts. |

## Left out

- File reading, the XLSX and CSV libraries, and `parseComprehensiveExcel` (src/utils/excelParser.js:11-41) are I/O and a foreign library. The model starts from the grid of cells (parser) or the row objects (upload). The CSV branch of the upload computes the same columns as the XLSX branch modelled by `Upload`.
- src/components/UploadComponent.jsx:82 holds a duplicated `readAsArrayBuffer(file)` call with no separator, which is not valid JavaScript. It lies in the file-reading code that is not modelled.
- The report, dashboard, chart-download, storage, sidebar and app-wiring files only reshape engine output or touch the DOM, the clock and localStorage. Their code is not part of this model. One mismatch is worth recording: the engine and the mapping page link a CO to a PO only when the cell is the number 1 (`CoPoMapping.Linked`), while the report view (src/components/ComprehensiveReports.jsx:1011) also accepts the text '1'.
- `toFixed` formatting and IEEE rounding: every number is an exact real, so `Results.StudentResult` holds the values before formatting.
- Strings.Upper and Strings.Lower map only the ASCII letters; JavaScript's `toUpperCase`/`toLowerCase` apply the full Unicode case mapping, including special cases that yield ASCII letters (`"ß"` becomes `"SS"`, `"ſ"` becomes `"S"`, `"ı"` becomes `"I"`). A header such as "Aßignment 1" is an assignment in the source but is dropped by the model's classifier; header and name texts are assumed to need no such mapping.
- `parseFloat`, `parseInt` and `String(n)` are uninterpreted parameters. The model does not assume what `parseFloat` returns for blank text; where the source tests `''` itself, the model does too. `KpiConfig.NonNumericRejected` states its claim for text on which `parseFloat` gives NaN.
- Maximum marks in configurations are `real`. The `parseFloat(a.maxMarks) || 0` on a non-numeric stored max is therefore the identity here.
- Missing family lists (`assessments.cts || []`) are modelled as empty lists: `Config` always holds the four lists. `Results` and `ComprehensiveMarksEntry.AssessmentList` take an absent configuration as `None`. The engine's `getAllAssessments` (src/utils/comprehensiveCalculations.js:10-13) has no `|| []` and throws a TypeError on a missing list; that throw is not modelled, because a `Config` cannot lack a list.
- `Attainment.AllStudentPOs`: requires every student to have a row in the CO table, as every caller guarantees. `calculateStudentPO`'s unused `studentId` parameter is dropped, and a null `coMapping` is passed as the empty matrix.
- The `assessmentColPositions` that `extractAssessmentConfig` returns are computed (`ExcelConfig.Positions`); `extractStudentData` never reads them, so the model does not pass them on.
- JavaScript default parameters (thresholds 40, 50 and 50) are passed explicitly.
- AssessmentConfig.Update: requires an index inside the list. The page only edits shown items; writing past the end would create a sparse array, which is not modelled.
- The marks effects copy the table shallowly (`{ ...marks }`), so the new state shares nested records with the old one and the effect writes into them in place. The model treats the result as a fresh value and does not capture that aliasing.
- ConfigurationStepper.Wizard: each handler requires the step whose screen shows its control (for example `Step2Complete` requires step 2), because the page renders a control only in its own step.
- The default attendance and performance slots carry no name; the model gives them the name "". Every consumer renames them to "Attendance" and "Performance".
- CoPoMapping.Toggle: requires the CO's row to exist; toggling a cell of a missing row throws in the source.
- KPI and course-information defaults (`Initial`) are plain values; their properties are stated by `KpiConfig.DefaultsAccepted` and `CourseInfo.BlankRejected`.
