# Skills assessment: the deterministic core, in Dafny

The application is a skills-assessment tool for a manufacturing workforce. It has four parts:

- **Tests.** An employee opens a multiple-choice test for one skill at one level from the dashboard. The backend picks questions from a Google Sheet, with the difficulty tier set by the level. It stores the answers as one fixed-width sheet row and grades them against the answer column. It then turns the percentage into a status ("Eligible for L3", "Pass", "Fail").
- **Records.** Employee records live in MongoDB. So do the role → skill competency maps and the skill codes (`sk01`, `sk02`, …).
- **Routes.** Express routes allocate new ids and codes, validate and patch records, and serve a generic CSV-backed CRUD API.
- **Pages.** React pages combine the maps of an employee's roles into the skills they need, keeping the highest level per skill. They show a dashboard of tests with the submitted ones disabled, a per-role report of achieved levels, a radar chart of best scores, and a retest page.

This project models the rules inside that glue as Dafny values, functions, classes and methods, and proves what each promises. Sheet, database and HTTP I/O are parameters or class fields.

| module (file) | source |
|---|---|
| `Js` (jsvalues.dfy), `JsText` (jstext.dfy), `Dict` (dict.dfy), `Lists` (lists.dfy), `Wrappers` (wrappers.dfy) | the JavaScript semantics the rules rely on: values, truthiness, `Number`, `String`, `parseInt`, `\|\|`, `===`, `trim`, `toLowerCase`, `padStart`, insertion-ordered objects, `find` |
| `SkillNames` (skillnames.dfy) | src/utils/skillMaps.js, the normaliser copies in EmployeeSkillLevelsByPosition.jsx and TestWindow.jsx |
| `Sheets` (sheets.dfy) | backend/utils/sheets.js |
| `McqRoutes` (mcq.dfy) | backend/routes/mcqRoutes.js |
| `EntityRoutes` (backend_entities.dfy) | backend/routes/entityRoutes.js |
| `EmployeeModel` (employee_model.dfy) | backend/models/Employee.js, backend/models/CompetencyMap.js |
| `EmployeeRoutes` (employee_routes.dfy) | backend/routes/employeeRoutes.js |
| `SkillUnion` (skillunion.dfy), `EmployeeSkills` (employee_skills.dfy) | the role → skill union of backend/utils/employeeSkills.js, AddEmployee.jsx and EditEmployee.jsx |
| `EntityTables` (entity_tables.dfy) | routes/entityRoutes.js |
| `EmployeeForms` (employee_forms.dfy) | src/components/AddEmployee.jsx, src/components/EditEmployee.jsx |
| `AddRole` (add_role.dfy) | src/components/AddRole.jsx |
| `PositionReport` (position_report.dfy) | src/components/EmployeeSkillLevelsByPosition.jsx |
| `Performance` (performance.dfy) | src/components/EmployeePerformance.jsx |
| `Dashboard` (dashboard.dfy) | src/components/EmployeeDashboard.jsx |
| `Retest` (retest.dfy) | src/components/AssignRetest.jsx |
| `TestWindow` (testwindow.dfy) | src/components/TestWindow.jsx |

**JavaScript values.** A JavaScript value is a `Js.JsVal`: `undefined`, `null`, a boolean, an integer, a string, an array, or an object given as its ordered fields.

- `Truthy`, `ToNumber` (`Number(...)`), `ToStr` (`String(...)`), `Or` (`||`) and `StrictEquals` (`===`) follow the language's rules for these kinds of value.
- A sheet cell is a string, or `undefined` past the end of a short row.
- A JavaScript object used as a dictionary is a `Dict`: a sequence of key/value pairs in insertion order.
- React state becomes the fields of a class, and every handler is a method that states the whole new state.

## Model

| member | source | states |
|---|---|---|
| Js.StringToNumberOfInt | backend/routes/employeeRoutes.js:128-131 | `Number` of a printed integer is that integer again |
| Js.LeadingDigits | backend/routes/entityRoutes.js:75 | the prefix `parseInt` reads is the longest all-digit prefix of the string |
| Js.LeadingDigitsAll | backend/routes/entityRoutes.js:74-75 | on an all-digit string that prefix is the whole string |
| Js.ParseIntOfInt | src/components/AddEmployee.jsx:59 | `parseInt` of a printed integer is that integer again |
| Js.Cell | backend/utils/sheets.js:41-49 | a row cell is a string exactly when the row is long enough, `undefined` otherwise |
| Js.Entries | src/components/AddEmployee.jsx:58 | `Object.entries` of an object is its fields in order; a value that is not an object, array or string has none |
| Js.Field | src/components/EmployeeDashboard.jsx:133 | a property read gives the stored value for a present key and `undefined` for a missing one |
| Js.Coalesce | src/components/TestWindow.jsx:73-75 | an `\|\|` chain gives the first truthy operand, or the last operand when none is truthy; it is truthy exactly when some operand is |
| Js.OrChainIsCoalesce | src/components/TestWindow.jsx:73 | the left-nested `a \|\| b \|\| c \|\| d` equals that first-truthy choice over the four |
| JsText.TrimStart | src/utils/skillMaps.js:4 | all it drops is leading whitespace: it never lengthens, keeps the last character, and does not start with whitespace |
| JsText.TrimStartIsSuffix | src/utils/skillMaps.js:4 | what `trimStart` keeps is a suffix of the input |
| JsText.TrimEnd | src/utils/skillMaps.js:4 | the result is a prefix of the input; all it drops is whitespace, and it does not end with whitespace |
| JsText.Trim | src/utils/skillMaps.js:4 | `trim` leaves no whitespace at either end and never lengthens |
| JsText.TrimNoop | backend/routes/mcqRoutes.js:69 | a string with no whitespace at either end is left unchanged |
| JsText.TrimNoWhitespace | backend/routes/mcqRoutes.js:69 | a string without whitespace is left unchanged |
| JsText.TrimIdempotent | src/utils/skillMaps.js:4 | trimming twice is trimming once |
| JsText.LowerChar | backend/utils/sheets.js:64 | lower-casing a character keeps whether it is whitespace and whether it is a digit |
| JsText.ToLower | backend/utils/sheets.js:64 | `toLowerCase` keeps the length and maps every character on its own |
| JsText.LowerIdempotent | src/components/AssignRetest.jsx:6 | lower-casing twice is lower-casing once |
| JsText.TrimLowerCommute | backend/utils/sheets.js:64-65 | trimming and lower-casing commute |
| JsText.TrimStartLower | backend/utils/sheets.js:64 | trimming the start commutes with lower-casing |
| JsText.TrimEndLower | backend/utils/sheets.js:64 | trimming the end commutes with lower-casing |
| JsText.NatToDigits | backend/routes/employeeRoutes.js:131 | `String(n)` of a natural number is a non-empty digit string without a leading zero |
| JsText.DigitsRoundTrip | backend/routes/employeeRoutes.js:131 | reading back the printed digits gives the number |
| JsText.LeadingZeros | backend/routes/entityRoutes.js:75 | leading zeros do not change the value read from a digit string |
| JsText.AllZeros | backend/routes/entityRoutes.js:75 | a string of zeros reads as 0 |
| JsText.TrimIntToString | backend/routes/mcqRoutes.js:69 | a printed integer contains no whitespace, so trimming keeps it |
| JsText.PadStart | backend/routes/entityRoutes.js:77 | `padStart` only pads: the length is the larger of the two, the input ends the result, and the rest is the fill character |
| Dict.Get | src/components/AddEmployee.jsx:57 | a read finds a value exactly when the key is present, and with distinct keys it is that key's value |
| Dict.Put | src/components/AddRole.jsx:22 | after `{...d, [k]: v}` the key reads `v` and every other key reads as before; a new key goes last, an existing one keeps its place |
| Lists.FirstWhere | routes/entityRoutes.js:73 | `findIndex` gives the first index that satisfies the test, and none exactly when no element does |
| SkillNames.RemoveLineBreaks | src/utils/skillMaps.js:3 | no CR or LF remains, and a string without them is unchanged |
| SkillNames.CollapseWhitespace | src/utils/skillMaps.js:5 | every whitespace character left is a single space with no whitespace after it; empty only for empty input |
| SkillNames.NormalizeGivesNormalName | src/utils/skillMaps.js:1-5 | the normalised name has no line break, no whitespace at either end, and only single spaces inside |
| SkillNames.CollapseSingleSpaces | src/utils/skillMaps.js:5 | collapsing a string that already has only single spaces changes nothing |
| SkillNames.NormalNameFixed | src/utils/skillMaps.js:1-5 | a name already in normal form is its own normalisation |
| SkillNames.NormalizeIdempotent | src/utils/skillMaps.js:1-5 | normalising twice is normalising once |
| SkillNames.LineBreakJoins | src/utils/skillMaps.js:3 | line breaks between two non-space characters join them with no space ("a\nb" becomes "ab") |
| SkillNames.RemoveAllBreaks | src/utils/skillMaps.js:3 | leading line breaks vanish from the result |
| SkillNames.NormalizeValue | src/components/EmployeeSkillLevelsByPosition.jsx:7 | values that are not strings come back unchanged; a string comes back normalised, in normal form |
| SkillNames.SkillCodeFor | src/components/EmployeeSkillLevelsByPosition.jsx:134 | a truthy table entry for the normalised name is the code; a missing or falsy entry gives the name itself; so the result is truthy exactly when the entry is truthy or the name is non-empty |
| SkillNames.SameCodeForSameName | src/components/TestWindow.jsx:32-34 | two names with the same normal form and a truthy entry in the table get the same code, which is also the code of the normal form |
| Sheets.QuestionOfRow | backend/utils/sheets.js:41-49 | every field of the question is a cell; the answer is present exactly when the row has ten cells |
| Sheets.QuestionRowRoundTrip | backend/utils/sheets.js:41-49 | a fully present question written as a row reads back as itself |
| Sheets.Bank | backend/utils/sheets.js:41-49 | one question per sheet row, in row order |
| Sheets.StripKeepsAllButAnswer | backend/utils/sheets.js:70-71 | stripping drops only `correct_option`: putting the answer back gives the question again |
| Sheets.QuestionOverJson | backend/routes/mcqRoutes.js:35 | a question sent through `res.json` keeps its option count, id, skill and text and its string options; a missing option cell arrives as `null`, never `undefined` |
| Sheets.DifficultyFor | backend/utils/sheets.js:54 | the tier is always "advance" or "basic" |
| Sheets.DifficultyOfLevels | backend/utils/sheets.js:54 | 4 and "4" give "advance"; " 4", "3" and `undefined` give "basic" |
| Sheets.FilterQuestions | backend/utils/sheets.js:60-66 | keeps exactly the questions that have both fields, whose trimmed lower-cased skill id equals the request's and whose difficulty equals the tier |
| Sheets.FilterQuestionsAppend | backend/utils/sheets.js:60-66 | the filter keeps sheet order: filtering two runs of rows gives the two filtered runs in turn |
| Sheets.CandidatesFromBank | backend/utils/sheets.js:60-66 | every candidate is a question of the sheet |
| Sheets.SliceLength | backend/utils/sheets.js:71 | `slice(0, count)` keeps min(count, n) for a count ≥ 0 and drops from the end for a negative one |
| Sheets.GetRandomQuestions | backend/utils/sheets.js:53-72 | throws exactly when the skill id is not a string and some question has both fields; otherwise the slice's length (at most `count`), each item the stripped candidate at its shuffled place, matching skill and tier, taken from the sheet |
| Sheets.PicksAreDistinct | backend/utils/sheets.js:69-71 | no candidate is picked twice |
| Sheets.FindQuestion | backend/utils/sheets.js:80 | the question found is the earliest one in the sheet with `_id === id`; none exactly when no question has it |
| Sheets.ResultFor | backend/utils/sheets.js:79-90 | a result echoes the id and the answer; `correct` is `null` exactly when no question has that id |
| Sheets.LetterAnswerGrading | backend/utils/sheets.js:81-82 | an answer is correct exactly when its letter equals the stored answer; for an unknown question, exactly when the letter is "null" |
| Sheets.CountCorrect | backend/utils/sheets.js:83 | the count of correct results is at most the number of results |
| Sheets.CountCorrectIsCount | backend/utils/sheets.js:79-83 | the score is exactly the number of positions holding a correct result |
| Sheets.RoundPercentIsNearest | backend/utils/sheets.js:94 | the integer percent is the nearest integer to 100·score/max, with halves rounded up |
| Sheets.RoundPercentBounds | backend/utils/sheets.js:94 | the percent is within 0..100, 0 for no correct answer and 100 for all correct |
| Sheets.RoundPercentMonotonic | backend/utils/sheets.js:94 | a higher score never gives a lower percent |
| Sheets.GradeAnswers | backend/utils/sheets.js:75-97 | the loop computes `GradingOf`: `max_score` is the answer count; the results match the answers one to one, in order; `score` counts the correct results; `percent` is the rounded percentage (NaN when there are no answers) |
| Sheets.Letter | backend/utils/sheets.js:149 | `'A' + i` is an upper-case letter |
| Sheets.FindOption | backend/utils/sheets.js:147 | `findIndex` with `===` gives the first strictly equal option, and -1 exactly when none is equal |
| Sheets.LetterFor | backend/utils/sheets.js:145-151 | the submitted letter is "" or a single letter |
| Sheets.LetterRoundTrip | backend/utils/sheets.js:145-151 | a non-empty letter names an option equal to the answer; the letter is "" exactly when no option equals it |
| Sheets.LetterOfChosenOption | backend/utils/sheets.js:145-151 | with distinct string options, picking option i gives letter `'A' + i`, and that letter names option i |
| Sheets.SubmittedTestOfRow | backend/utils/sheets.js:109-116 | the six fields are cells; a long row gives the id from column 1 and the level from column 5 |
| Sheets.SubmittedLetter | backend/utils/sheets.js:145-151 | the letter is non-empty only for a found question and a truthy answer, and then it is the option letter |
| Sheets.JoinSubmission | backend/utils/sheets.js:140-158 | keeps the submission; the letter is always "" because the submission rows carry no answer; the question text is always `undefined`, and the options are four `undefined` exactly when the question sheet has an empty row, and [] otherwise |
| Sheets.Header | backend/utils/sheets.js:165-172 | the header has six cells |
| Sheets.Slot | backend/utils/sheets.js:173-183 | one submission takes seven cells |
| Sheets.SubmissionRow | backend/utils/sheets.js:162-187 | fails exactly for no submissions or one without options; otherwise the row has the answers-sheet layout: 6 + 7·max(n, 10) cells, the header, one slot per submission in order, then blanks |
| Sheets.HeaderReadsBack | backend/utils/sheets.js:165-172 | reading back the written header gives the first submission's identity, with "" for a missing id, name or position |
| McqRoutes.CountOrDefault | backend/routes/mcqRoutes.js:32 | the count is never 0; a non-zero number is kept, and NaN or 0 gives 10 |
| McqRoutes.CountDefaults | backend/routes/mcqRoutes.js:32 | a missing, empty, zero or non-numeric count gives 10 |
| McqRoutes.CountTaken | backend/routes/mcqRoutes.js:32 | a printed non-zero count is taken as is |
| McqRoutes.QuestionsRoute | backend/routes/mcqRoutes.js:16-39 | answers 500 exactly when the question filter throws; otherwise the first `Number(count) \|\| 10` candidates of the shuffle (as `slice` counts them), stripped of their answers, all of the requested skill; never more than the candidates, and at most 10 for a non-numeric count |
| McqRoutes.StatusOf | backend/routes/mcqRoutes.js:67-79 | a status is chosen exactly for level "2", "3" or "4"; "Eligible for L3" only for "2" |
| McqRoutes.StatusTable | backend/routes/mcqRoutes.js:71-78 | "2": ≥ 80 Eligible, ≥ 60 Pass, else Fail; "3": > 80 Pass, else Fail (80 fails); "4": ≥ 60 Pass, else Fail |
| McqRoutes.LevelIsTrimmed | backend/routes/mcqRoutes.js:69 | " 2 " is compared as "2" |
| McqRoutes.NumericLevel | backend/routes/mcqRoutes.js:69 | a numeric level is compared as its printed digits |
| McqRoutes.StatusMonotonic | backend/routes/mcqRoutes.js:71-79 | for a fixed level, a higher percent never gives a worse status (Fail < Pass < Eligible) |
| McqRoutes.NaNStatus | backend/routes/mcqRoutes.js:71-78 | a NaN percent (no answers) gives Fail for "2" and "4" but Pass for "3" |
| McqRoutes.AnswersOf | backend/routes/mcqRoutes.js:58-63 | one answer per submission, in order, pairing `question_id` with `selected_letter` |
| McqRoutes.ScoreLogEntryOfRow | backend/routes/mcqRoutes.js:108-119 | every field is a cell; status and percent come from columns 9 and 8, and the status is `undefined` for a short row |
| McqRoutes.NumberCell | backend/utils/sheets.js:217-219 | `n \|\| ""` is "" or a non-zero number |
| McqRoutes.ScoreLogRow | backend/utils/sheets.js:210-220 | the score-log row has ten cells, each truthy or "" |
| McqRoutes.ScoreLogReadsBack | backend/utils/sheets.js:210-220 | reading the row back through the score-log mapping gives the status label ("" for none) and the percent (a zero percent reads back as "") |
| McqRoutes.SubmitAnswers | backend/routes/mcqRoutes.js:52-97 | as written: always answers 500; the submission row is appended exactly when every submission has options, and it has the full answers-sheet layout (header, one slot per submission in order, blanks up to ten) |
| McqRoutes.SubmitAnswersFixed | backend/routes/mcqRoutes.js:52-97 | succeeds exactly when the submission row is appended, with the answers-sheet layout; the logged row is the score-log row of the grading of exactly these answers against the question sheet, with the status from the first submission's level and that grading's percent |
| EntityRoutes.RetestAllow | backend/routes/entityRoutes.js:9-22 | always fails: 400 exactly when `employee_id`, `skill` or `level` is falsy, 500 otherwise |
| EntityRoutes.SkillNumber | backend/routes/entityRoutes.js:74 | a code has a number exactly when it is "sk" followed by at least one digit and nothing else |
| EntityRoutes.MaxSkillNumberIsMax | backend/routes/entityRoutes.js:72-76 | the maximum bounds every matching code's number and is 0 or the number of one of them |
| EntityRoutes.SkillCode | backend/routes/entityRoutes.js:77 | the new code starts with "sk" and has at least four characters |
| EntityRoutes.SkillCodeNumber | backend/routes/entityRoutes.js:74-77 | the new code's number reads back as the number it was made from |
| EntityRoutes.SkillCodeKeepsDigits | backend/routes/entityRoutes.js:77 | padding never truncates: the code ends with the printed number, and from 10 on it is "sk" + that number |
| EntityRoutes.NewSkillCodeNumber | backend/routes/entityRoutes.js:71-77 | the new code's number is the largest stored number plus one |
| EntityRoutes.NewSkillCodeIsFresh | backend/routes/entityRoutes.js:71-77 | the new code differs from every existing code |
| EntityRoutes.FirstSkillCode | backend/routes/entityRoutes.js:72-77 | with no matching code the new code is "sk01" |
| EntityRoutes.PostSkill | backend/routes/entityRoutes.js:64-83 | 400 exactly when `name` is not a non-empty string; otherwise the skill is created with the new code |
| EntityRoutes.PostCompetencyMap | backend/routes/entityRoutes.js:86-97 | 400 exactly when `Role` is falsy or `Skills` is neither an object nor an array; 500 for a duplicate or unstorable role, or for skills the `Map` field refuses (a key with ".", a leading "$" or a reserved name, or an array element without a string key); otherwise the stored map has a non-empty role |
| EntityRoutes.NonEmptyName | backend/routes/entityRoutes.js:88 | a truthy role that is neither an object nor an array prints as a non-empty string |
| Lists.Distinct | backend/routes/entityRoutes.js:102 | `distinct` (and the `Set` of src/components/EmployeeDashboard.jsx:98) keeps every value of the input and no value twice |
| EntityRoutes.TruthyOnly | backend/routes/entityRoutes.js:103 | `filter(Boolean)` keeps exactly the truthy values and keeps them distinct |
| EntityRoutes.Roles | backend/routes/entityRoutes.js:100-107 | `/roles` gives exactly the truthy stored roles, each once |
| EmployeeModel.AdmitKeepsValid | backend/models/Employee.js:11-22 | adding a record that passes the schema, with a fresh id and a fresh email, keeps the store valid |
| EmployeeModel.RemoveKeepsValid | backend/models/Employee.js:11-22 | removing a record keeps the store valid |
| EmployeeRoutes.IdMatchesPrinted | backend/routes/employeeRoutes.js:22 | the path "n" finds both a numeric id n and a string id "n" |
| EmployeeRoutes.NonNumericIdMatchesItself | backend/routes/employeeRoutes.js:22 | a non-numeric path finds only the string id equal to it |
| EmployeeRoutes.IndexById | backend/routes/employeeRoutes.js:21-23 | the first record whose id equals the path string or its number; none exactly when no record matches |
| EmployeeRoutes.IndexByEmail | backend/routes/employeeRoutes.js:33-37 | the first record whose email matches ignoring case; none exactly when none matches |
| EmployeeRoutes.EmailLookupIgnoresCase | backend/routes/employeeRoutes.js:33-36 | looking up an email or its lower-cased form finds the same record |
| EmployeeRoutes.SameLowerSameIndex | backend/routes/employeeRoutes.js:33-36 | two emails that lower-case alike find the same record |
| EmployeeRoutes.NextEmployeeId | backend/routes/employeeRoutes.js:126-131 | the new id reads back as one more than the top record's numeric id (0 when there is none) |
| EmployeeRoutes.FirstEmployeeId | backend/routes/employeeRoutes.js:127-130 | no record, or a non-numeric top id, gives "1" |
| EmployeeRoutes.NextEmployeeIdFollows | backend/routes/employeeRoutes.js:128-131 | a top id with number n gives an id with number n + 1 |
| EmployeeRoutes.NonBlank | backend/routes/employeeRoutes.js:148-153 | a field is taken exactly when it is a string that is not blank, and then trimmed |
| EmployeeRoutes.BuildPatch | backend/routes/employeeRoutes.js:147-156 | the patch always sets `Roles`, sets `Employee` and `email` only when not blank (trimmed), and sets `Skills` only when it is an array |
| EmployeeRoutes.PatchIgnoresName | backend/routes/employeeRoutes.js:142-156 | the body's `name` field has no effect on the patch |
| EmployeeRoutes.Apply | backend/routes/employeeRoutes.js:157-160 | applying the patch changes only the fields it sets; id and department are kept |
| EmployeeRoutes.ApplyKeepsValid | backend/routes/employeeRoutes.js:157-161 | a patch with valid skills and a free email keeps the store valid |
| EmployeeRoutes.UpdateCanBreakSchema | backend/routes/employeeRoutes.js:154-156 | a `Skills` array is stored unchecked, so an update can store an empty level |
| EmployeeRoutes.EmployeeStore.constructor | backend/models/Employee.js:24 | the collection starts with the records given |
| EmployeeRoutes.EmployeeStore.GetEmployee | backend/routes/employeeRoutes.js:18-29 | found exactly when some record matches, and then it is the first match; 404 otherwise |
| EmployeeRoutes.EmployeeStore.GetByEmail | backend/routes/employeeRoutes.js:32-43 | found exactly when some email matches ignoring case, and then the earliest such record in store order; 404 otherwise |
| EmployeeRoutes.EmployeeStore.CreateEmployee | backend/routes/employeeRoutes.js:123-137 | the body's id is replaced by the allocated one; the record is added exactly when it is admissible; 500 and no change otherwise |
| EmployeeRoutes.EmployeeStore.UpdateEmployee | backend/routes/employeeRoutes.js:140-168 | 400 with no change when `Roles` is not an array; 404 with no change when no record matches; otherwise the first match is patched, or 500 when the email is taken |
| EmployeeRoutes.EmployeeStore.DeleteEmployee | backend/routes/employeeRoutes.js:171-183 | removes exactly the first match and returns it; 404 with no change when none matches |
| EmployeeRoutes.DeleteKeepsValid | backend/routes/employeeRoutes.js:174-179 | a delete keeps the store valid and shrinks it by one |
| EmployeeRoutes.NextAfterNine | backend/routes/employeeRoutes.js:128-131 | a top id "9" gives "10" |
| EmployeeRoutes.NineSortsLast | backend/routes/employeeRoutes.js:126 | with string ids, "9" sorts above "10" |
| EmployeeRoutes.TopStringIdRepeats | backend/routes/employeeRoutes.js:126-131 | with ids "9" and "10", the new id is "10" again and the record cannot be stored |
| EmployeeRoutes.MaxNumericId | backend/routes/employeeRoutes.js:127-130 | the largest numeric id (0 if none) bounds every numeric id |
| EmployeeRoutes.NextFreeIdIsFresh | backend/routes/employeeRoutes.js:126-131 | one more than the largest numeric id is not the id of any record |
| EmployeeRoutes.CreateEmployeeFixed | backend/routes/employeeRoutes.js:123-137 | with that id, creation succeeds exactly when the record passes the schema and its email is new |
| EmployeeSkills.RoleSkillsOf | backend/utils/employeeSkills.js:15-20 | one entry per role name of the rows |
| EmployeeSkills.LastRowWins | backend/utils/employeeSkills.js:19 | a later row with the same role replaces the earlier one |
| EmployeeSkills.SkillsOfRow | backend/utils/employeeSkills.js:39 | with distinct roles, a role's skills are its row's map |
| EmployeeSkills.SkillsOfUnmapped | backend/utils/employeeSkills.js:39 | a role without a row has no skills |
| EmployeeSkills.AddAll | backend/utils/employeeSkills.js:18 | adding keys to a set gives the union and keeps it free of repeats |
| EmployeeSkills.SkillListOf | backend/utils/employeeSkills.js:14-21 | `skillList` holds every skill of any map exactly once |
| EmployeeSkills.GetRoleSkills | backend/utils/employeeSkills.js:12-22 | the loop fills the role table and the skill list described above |
| EmployeeSkills.DepartmentOf | backend/utils/employeeSkills.js:34 | a missing department becomes "" |
| EmployeeSkills.EmployeeSkillsReport | backend/utils/employeeSkills.js:32-55 | one output row per employee, in input order, holding the union of their roles' skills |
| EmployeeSkills.ReportRows | backend/utils/employeeSkills.js:32-55 | the loop over the employees pushes, for each one in order, the record of that employee |
| EmployeeSkills.ReportSkillsExact | backend/utils/employeeSkills.js:37-45 | an employee's output skills are exactly the skills named in their roles' maps, each once |
| EmployeeSkills.ReportKeepsRawMax | backend/utils/employeeSkills.js:42 | each stored level is one role's original value, not a converted number |
| SkillUnion.Stored | src/components/AddEmployee.jsx:59 | the backend stores the raw level; the pages store a number only when it came from the level itself or from `parseInt` |
| SkillUnion.Step | backend/utils/employeeSkills.js:40-44 | one entry either changes nothing or sets that skill; other skills are untouched |
| SkillUnion.UnionSkills | src/components/AddEmployee.jsx:55-64 | the nested loops compute the union described by the lemmas below |
| SkillUnion.AbsorbEntries | src/components/AddEmployee.jsx:58-63 | the inner loop over one role's entries absorbs them in order |
| SkillUnion.AbsorbKeys | backend/utils/employeeSkills.js:40-44 | after a role's entries the keys are the old keys plus the role's skills, without repeats |
| SkillUnion.AbsorbHasKey | backend/utils/employeeSkills.js:40-44 | a skill has an entry after a role's entries exactly when it had one or the role names it |
| SkillUnion.AbsorbDistinct | backend/utils/employeeSkills.js:40-44 | absorbing a role's entries never repeats a skill |
| SkillUnion.UnionKeys | src/components/EditEmployee.jsx:61-71 | the union has exactly one entry per skill required by some selected role |
| SkillUnion.UnmappedRoleAddsNothing | src/components/EditEmployee.jsx:63 | a role missing from the map adds no skill |
| SkillUnion.ReplacesRanked | backend/utils/employeeSkills.js:41 | between numeric levels, the stored one is replaced exactly by a strictly larger one |
| SkillUnion.StepKeepsMax | backend/utils/employeeSkills.js:41-43 | one entry never lowers a stored level, and leaves one at least as high as its own |
| SkillUnion.AbsorbKeepsMax | backend/utils/employeeSkills.js:40-44 | after a role's entries every skill holds at least every level seen for it |
| SkillUnion.UnionSettled | src/components/AddEmployee.jsx:55-64 | with numeric levels, every stored level is a number that storing again leaves unchanged |
| SkillUnion.UnionCovers | src/components/AddEmployee.jsx:55-64 | with numeric levels, the union holds each selected role's skill at least at that role's level |
| SkillUnion.UnionIsMax | src/components/AddEmployee.jsx:55-64 | with numeric levels, each skill's stored level is at least the level of every selected role that requires it |
| SkillUnion.AbsorbOrigin | backend/utils/employeeSkills.js:40-44 | every stored level was there before or came from one of the role's entries |
| SkillUnion.UnionOrigin | backend/utils/employeeSkills.js:38-45 | every stored level is the level of some selected role for that skill, so with the bound above it is the maximum |
| SkillUnion.FrontendConversion | src/components/AddEmployee.jsx:59 | the pages store "3" as 3 and keep a number, but keep a string `parseInt` cannot read |
| SkillUnion.FrontendKeepsFirstNonNumber | src/components/AddEmployee.jsx:60 | a level that does not become a number never replaces the stored one |
| SkillUnion.BackendReplacesEmpty | backend/utils/employeeSkills.js:41 | the backend overwrites a falsy stored level |
| EntityTables.FindIndex | routes/entityRoutes.js:73 | the first row whose `String(id)` equals the path; none exactly when no row matches |
| EntityTables.Merge | routes/entityRoutes.js:75 | the merged row keeps distinct keys |
| EntityTables.MergeGet | routes/entityRoutes.js:75 | body fields win and every other field is kept |
| EntityTables.Without | routes/entityRoutes.js:85 | keeps exactly the rows whose id does not match |
| EntityTables.WithoutAbsent | routes/entityRoutes.js:85-87 | deleting an id no row has leaves the list unchanged |
| EntityTables.WithoutKeepsOrder | routes/entityRoutes.js:85 | the filter works piecewise, so the remaining rows keep their order |
| EntityTables.EntityTables.constructor | routes/entityRoutes.js:7-17 | one empty table per entity file |
| EntityTables.EntityTables.GetAll | routes/entityRoutes.js:51-56 | 404 exactly for an unknown entity; otherwise the whole table (a GET of `role_competencies` is answered by the earlier spreadsheet route at line 20 and never reaches this handler) |
| EntityTables.EntityTables.Post | routes/entityRoutes.js:59-66 | 404 with no write for an unknown entity; otherwise the body is appended and nothing else changes |
| EntityTables.EntityTables.Put | routes/entityRoutes.js:69-78 | succeeds exactly when the entity is known and some row matches; only the first match is merged; 404 leaves every table unchanged |
| EntityTables.EntityTables.Delete | routes/entityRoutes.js:81-88 | 404 exactly for an unknown entity; otherwise the matching rows go and the table is otherwise unchanged |
| EmployeeForms.SkillMapOf | src/components/AddEmployee.jsx:31-34 | the map has one entry per truthy role name and no others |
| EmployeeForms.SkillMapLastWins | src/components/EditEmployee.jsx:41 | the last row with a role name gives that role's skills |
| EmployeeForms.BuildSkillMap | src/components/EditEmployee.jsx:38-44 | the loop builds that map, or an empty one when the response is not an array |
| EmployeeForms.RoleOptionsOf | src/components/EditEmployee.jsx:40-43 | the options are exactly the truthy role names of the rows |
| EmployeeForms.RoleOptionsHaveSkills | src/components/EditEmployee.jsx:40-44 | every role option has an entry in the skill map |
| EmployeeForms.Selected | src/components/AddEmployee.jsx:42 | the selection is exactly the values of the selected options |
| EmployeeForms.SelectedKeepsOrder | src/components/EditEmployee.jsx:55 | the selection keeps option order |
| EmployeeForms.NoneSelected | src/components/EditEmployee.jsx:55 | nothing selected gives no roles |
| EmployeeForms.AddEmployeeForm.constructor | src/components/AddEmployee.jsx:7-16 | empty fields, no roles, an empty map, no success, no error |
| EmployeeForms.AddEmployeeForm.LoadCompetencyMap | src/components/AddEmployee.jsx:27-37 | the map is rebuilt from the response (empty when it is not an array) and nothing else changes |
| EmployeeForms.AddEmployeeForm.HandleChange | src/components/AddEmployee.jsx:39-47 | only the named text field takes the value |
| EmployeeForms.AddEmployeeForm.HandleRolesChange | src/components/AddEmployee.jsx:41-43 | the roles become exactly the selected values; nothing else changes |
| EmployeeForms.AddEmployeeForm.HandleSubmit | src/components/AddEmployee.jsx:49-83 | posts the form with the skill union; success resets the form; failure keeps it and sets the error |
| EmployeeForms.EditEmployeeForm.constructor | src/components/EditEmployee.jsx:7-10 | no employee, no roles, no options, an empty map |
| EmployeeForms.EditEmployeeForm.LoadEmployee | src/components/EditEmployee.jsx:49-52 | the roles become the loaded employee's roles |
| EmployeeForms.EditEmployeeForm.LoadCompetencyMap | src/components/EditEmployee.jsx:34-46 | options and map are rebuilt from the response |
| EmployeeForms.EditEmployeeForm.HandleRoleChange | src/components/EditEmployee.jsx:54-57 | the roles become exactly the selected values |
| EmployeeForms.EditEmployeeForm.EditField | src/components/EditEmployee.jsx:120-131 | an edit changes only the name or only the email, and the effect on `employee` (lines 49-52) resets the selected roles to the loaded employee's roles |
| EmployeeForms.EditEmployeeForm.ComputeSkillsArray | src/components/EditEmployee.jsx:60-72 | gives the skill union of the selected roles |
| EmployeeForms.EditEmployeeForm.HandleSubmit | src/components/EditEmployee.jsx:74-97 | the PUT body carries the roles, name, email and a freshly computed skill list |
| AddRole.PostedSkills | src/components/AddRole.jsx:34-36 | keeps exactly the entries whose level is non-empty and numeric |
| AddRole.PostedSkillsAppend | src/components/AddRole.jsx:34-36 | the posted levels keep entry order: two runs of entries are posted one after the other |
| AddRole.PostedSkillsDistinct | src/components/AddRole.jsx:34-36 | the filter keeps skill names distinct |
| AddRole.AddRoleForm.constructor | src/components/AddRole.jsx:8-11 | empty role, levels and message |
| AddRole.AddRoleForm.SetRole | src/components/AddRole.jsx:62 | the name input sets the role to the typed text and leaves the levels and the message unchanged |
| AddRole.AddRoleForm.HandleLevelChange | src/components/AddRole.jsx:21-23 | sets one skill's level and leaves every other entry unchanged |
| AddRole.AddRoleForm.HandleSubmit | src/components/AddRole.jsx:25-50 | a blank role posts nothing and asks for a name; otherwise it posts the trimmed role with the numeric levels and reports the response |
| AddRole.PostedRolePassesCheck | src/components/AddRole.jsx:32-43 | a posted new role whose skill names are all keys the `Map` field accepts passes the backend's competency-map check and is created |
| AddRole.PostedDottedSkillFails | src/components/AddRole.jsx:32-43 | a posted role listing the skill "Node.js" is refused by the create, so the form reports failure |
| EntityRoutes.DottedSkillRejected | backend/routes/entityRoutes.js:86-97 | a skills object with the key "Node.js" gives 500 |
| PositionReport.AchievedOf | src/components/EmployeeSkillLevelsByPosition.jsx:50-80 | a failed test has achieved level 0 |
| PositionReport.CalculateAchievedLevel | src/components/EmployeeSkillLevelsByPosition.jsx:50-80 | the branch chain computes `AchievedOf` |
| PositionReport.AchievedFailure | src/components/EmployeeSkillLevelsByPosition.jsx:51-73 | no test: (0, not failed); failed exactly for status "fail" in any case, or level 3 with a truthy percent ≤ 60 |
| PositionReport.AchievedNearLevel | src/components/EmployeeSkillLevelsByPosition.jsx:58-76 | otherwise 3 for level 2 at ≥ 80, 2 for level 3 strictly between 60 and 80, else the level |
| PositionReport.FailInAnyCase | src/components/EmployeeSkillLevelsByPosition.jsx:55 | status "FAIL" fails |
| PositionReport.DisplayOf | src/components/EmployeeSkillLevelsByPosition.jsx:145-159 | the display is one of "", L1 to L4, and "" exactly when the level is not 2, 3 or 4 |
| PositionReport.DisplayLevel | src/components/EmployeeSkillLevelsByPosition.jsx:143-160 | no test shows ""; `isFailed` holds exactly when "L1" is shown |
| PositionReport.DisplayTable | src/components/EmployeeSkillLevelsByPosition.jsx:148-159 | levels 2 and 3: ≥ 80 L3, ≥ 60 L2, else L1; level 4: ≥ 60 L4, else L1; a NaN percent shows L1 |
| PositionReport.DisplayMonotonic | src/components/EmployeeSkillLevelsByPosition.jsx:148-159 | a higher percent never shows a lower level |
| PositionReport.Level3StatusDisagrees | src/components/EmployeeSkillLevelsByPosition.jsx:152-155 | at level 3, 80 and 70 are logged as Fail but shown as L3 and L2 |
| PositionReport.Level3AchievedDisagrees | src/components/EmployeeSkillLevelsByPosition.jsx:63-73 | level 3 at 60 counts as failed but is shown as L2 |
| PositionReport.FindTest | src/components/EmployeeSkillLevelsByPosition.jsx:137-140 | the log row used is the earliest one that matches the name, trimmed and ignoring case, and the skill by code or by normalised name; none exactly when no row matches |
| PositionReport.CellFor | src/components/EmployeeSkillLevelsByPosition.jsx:132-160 | a cell is "" when no log row matches, and otherwise the display level of the earliest matching row |
| PositionReport.NameMatchIgnoresCase | src/components/EmployeeSkillLevelsByPosition.jsx:138 | the employee name matches regardless of case and surrounding whitespace |
| PositionReport.EmpName | src/components/EmployeeSkillLevelsByPosition.jsx:136 | the name is "Employee Name" when truthy, and "Employee" when the first three are all falsy |
| PositionReport.EmployeesWithRole | src/components/EmployeeSkillLevelsByPosition.jsx:113-115 | keeps exactly the employees holding the role |
| PositionReport.RoleEntry | src/components/EmployeeSkillLevelsByPosition.jsx:109 | the earliest map row whose role equals the selection; none exactly when no row has it |
| PositionReport.Table | src/components/EmployeeSkillLevelsByPosition.jsx:107-160 | no table without a selection or a map row; otherwise the header is the role's skill names in map order, row k is the k-th employee with the role under its display name, and cell j is that employee's cell for skill j, each "" or L1 to L4 |
| Performance.FilterScore | src/components/EmployeePerformance.jsx:23 | keeps exactly the score rows with `employee_id === empId` |
| Performance.FilterAnswers | src/components/EmployeePerformance.jsx:27-29 | keeps exactly the employee's answers, and only the given skill's when one is entered |
| Performance.NoSkillKeepsAll | src/components/EmployeePerformance.jsx:28 | with no skill entered, every answer of the employee is kept |
| Performance.Step | src/components/EmployeePerformance.jsx:35-36 | one row replaces the kept row of its skill only when there is none or it is strictly higher |
| Performance.BestOf | src/components/EmployeePerformance.jsx:33-38 | one entry per skill of the rows |
| Performance.KeepBest | src/components/EmployeePerformance.jsx:35 | the best row stays best when a row that does not beat it is added |
| Performance.NewBest | src/components/EmployeePerformance.jsx:35 | a row that beats every earlier row of its skill becomes the best |
| Performance.BestIsMax | src/components/EmployeePerformance.jsx:33-38 | with numeric percents the kept row is the earliest one with the highest percent |
| Performance.RadarOf | src/components/EmployeePerformance.jsx:39 | one point per entry, holding the skill and `Number(percent)` |
| Performance.RadarOnePointPerSkill | src/components/EmployeePerformance.jsx:33-39 | the radar has exactly one point per distinct skill |
| Performance.TieKeepsFirst | src/components/EmployeePerformance.jsx:35 | on equal percents the earlier row stays |
| Performance.BestPerSkill | src/components/EmployeePerformance.jsx:33-38 | the `forEach` computes `BestOf` |
| Performance.PerformanceView.constructor | src/components/EmployeePerformance.jsx:7-12 | empty inputs and lists, not loading |
| Performance.PerformanceView.SetEmpId | src/components/EmployeePerformance.jsx:53 | the employee-id input sets only `empId` |
| Performance.PerformanceView.SetSkillId | src/components/EmployeePerformance.jsx:60 | the skill-id input sets only `skillId` |
| Performance.PerformanceView.HandleFetch | src/components/EmployeePerformance.jsx:14-41 | an empty id does nothing; otherwise the filtered lists and the radar replace the old ones |
| Dashboard.OwnKeys | src/components/EmployeeDashboard.jsx:98-105 | exactly the `skill-level` keys of this employee's submissions that name both |
| Dashboard.SubmittedKeys | src/components/EmployeeDashboard.jsx:98-106 | the keys are distinct and are exactly those of own submissions (by id or by name) that have both skill and level |
| Dashboard.OtherEmployeesIgnored | src/components/EmployeeDashboard.jsx:100-103 | another employee's submission adds no key |
| Dashboard.CodeOrName | src/components/EmployeeDashboard.jsx:12-49 | a skill name in the fixed table gives its code, and any other skill is its own code |
| Dashboard.CodesAreNonEmpty | src/components/EmployeeDashboard.jsx:12-49 | every code of the fixed table is "sk" and two digits, so the `\|\| skill` fallback never hides a known code |
| Dashboard.SubmittedDisablesButton | src/components/EmployeeDashboard.jsx:202 | a submission whose key prints like the button's disables that button |
| Dashboard.NameSubmissionDoesNotDisable | src/components/EmployeeDashboard.jsx:202 | a submission recorded under the skill name does not disable a skill that has a code |
| Dashboard.FindRoleRow | src/components/EmployeeDashboard.jsx:130 | the earliest row whose role matches; none exactly when none matches |
| Dashboard.RequiredSkills | src/components/EmployeeDashboard.jsx:133 | exactly the headers other than "Role" whose cell is truthy and numeric |
| Dashboard.EntriesFor | src/components/EmployeeDashboard.jsx:134 | keeps exactly the employee's entries for required skills |
| Dashboard.EntriesForAppend | src/components/EmployeeDashboard.jsx:134 | the kept entries stay in the employee's order: two runs of entries are filtered one after the other |
| Dashboard.MissingEntries | src/components/EmployeeDashboard.jsx:137-138 | one entry with the map's level for each required skill with no entry |
| Dashboard.RoleSkills | src/components/EmployeeDashboard.jsx:133-140 | as written, only required skills are shown, each an existing entry or the map's level; all of them when the employee has fewer required entries than there are required skills, and otherwise only the employee's own required entries |
| Dashboard.RoleSkillsFixed | src/components/EmployeeDashboard.jsx:133-139 | the corrected branch covers exactly the required skills, the employee's own required entries first, then the missing ones at the map's level |
| Dashboard.RoleSkillsAgreeWhenShort | src/components/EmployeeDashboard.jsx:136 | when the count test fires, the page and the fixed version agree |
| Dashboard.ExampleRequired | src/components/EmployeeDashboard.jsx:133 | the example row requires A and B |
| Dashboard.DuplicateEntryHidesMissingSkill | src/components/EmployeeDashboard.jsx:136-139 | two entries for A hide the missing B; the fixed version shows it |
| Dashboard.FilteredSkills | src/components/EmployeeDashboard.jsx:126-143 | as written: no role or no table keeps the employee's skills; a role without a row gives none |
| Dashboard.FilteredSkillsShowRequired | src/components/EmployeeDashboard.jsx:126-140 | as written, with the role's first row found, only required skills are shown, and every one of them when the employee has fewer required entries than there are required skills |
| Dashboard.FilteredSkillsFixed | src/components/EmployeeDashboard.jsx:126-143 | the page with the corrected branch: the same results without a role, a table or a row |
| Dashboard.FilteredSkillsAreRequired | src/components/EmployeeDashboard.jsx:130-139 | with the corrected branch and the role's first row found, the skills shown are exactly the required ones |
| Dashboard.RoleMatchIgnoresCase | src/components/EmployeeDashboard.jsx:130 | role matching ignores case and surrounding whitespace |
| Dashboard.IsSuperUser | src/components/EmployeeDashboard.jsx:146-149 | holds exactly when some lower-cased role contains "ceo", "director" or "hr" |
| Dashboard.SuperUserExamples | src/components/EmployeeDashboard.jsx:146-149 | "HR Manager" and "Plant Director" are super users |
| Dashboard.SuperUserBySubstring | src/components/EmployeeDashboard.jsx:148 | "Synchronous Line Operator" is one too, through the "hr" inside it |
| Dashboard.SuperUserMonotonic | src/components/EmployeeDashboard.jsx:146 | more roles never remove super-user status |
| Dashboard.TestNav | src/components/EmployeeDashboard.jsx:117 | the state handed to the test page carries the button and employee data, and no mark that it came from the dashboard, so the test page redirects home |
| Dashboard.TestNavFixed | src/components/EmployeeDashboard.jsx:117 | with that mark the test page stays open and Back leads to the login page |
| Dashboard.DashboardState.constructor | src/components/EmployeeDashboard.jsx:72-75 | no submitted keys and no clicks |
| Dashboard.DashboardState.NoteSubmittedTest | src/components/EmployeeDashboard.jsx:80-87 | a test passed back by the test page appends its key |
| Dashboard.DashboardState.LoadSubmissions | src/components/EmployeeDashboard.jsx:89-109 | with neither id nor name nothing changes; otherwise the keys become the submitted keys |
| Dashboard.DashboardState.HandleTestClick | src/components/EmployeeDashboard.jsx:111-118 | that button's count goes up by one, every other count stays, and the test page is opened with `TestNav` |
| Retest.NormalizeSkill | src/components/AssignRetest.jsx:6 | trims and lower-cases non-empty strings and returns every other value unchanged |
| Retest.NormalizeSkillIdempotent | src/components/AssignRetest.jsx:6 | normalising twice is normalising once |
| Retest.StatusFlag | src/components/AssignRetest.jsx:44 | `status_flag`, else `status`, else "" |
| Retest.Record | src/components/AssignRetest.jsx:40-45 | a submission without an id is ignored; otherwise its key takes its status and every other entry stays |
| Retest.ByEmpKeys | src/components/AssignRetest.jsx:38-46 | the employees grouped are exactly those with a truthy id, keyed by `String(id)` |
| Retest.LastSubmissionWins | src/components/AssignRetest.jsx:45 | the last submission for a key gives its status |
| Retest.StatusComesFromASubmission | src/components/AssignRetest.jsx:38-46 | every stored status is some submission's status |
| Retest.GroupSubmissions | src/components/AssignRetest.jsx:37-46 | the `forEach` builds the grouping, or an empty one when there are no submissions |
| Retest.ActionFor | src/components/AssignRetest.jsx:136-146 | "submitted" offers a retest, "retest_allowed" and "retested" show labels, and everything else shows "Not submitted" |
| Retest.JoinedNeverOfferRetest | src/components/AssignRetest.jsx:128-146 | with the submissions the backend serves, every skill shows "Not submitted" |
| Retest.Joined | backend/utils/sheets.js:140-158 | the served submissions carry no status, so every status is "" |
| Retest.HandleReassign | src/components/AssignRetest.jsx:52-81 | the alert is always the backend's error message |
| Retest.RetestPage.constructor | src/components/AssignRetest.jsx:10-11 | no grouping yet; loading |
| Retest.RetestPage.LoadSubmissions | src/components/AssignRetest.jsx:35-49 | the grouping is rebuilt and loading ends |
| Retest.RetestPage.SkillActions | src/components/AssignRetest.jsx:128-146 | one action per skill of the employee, in order, from the status of its code and level |
| TestWindow.RedirectOnOpen | src/components/TestWindow.jsx:45-49 | the page sends its visitor home unless it was opened with a state marked as coming from the dashboard |
| TestWindow.RedirectOnBack | src/components/TestWindow.jsx:52-61 | Back leads to the login page exactly for a page opened from the dashboard |
| TestWindow.OneRedirectArmed | src/components/TestWindow.jsx:45-61 | exactly one of the two redirects can fire |
| TestWindow.QuestionRequest | src/components/TestWindow.jsx:30-42 | no request without a string skill, a level and the skill table; otherwise the level and the skill's code as SkillCodeFor gives it: the table's truthy entry, else the skill itself |
| TestWindow.EmployeeIdOf | src/components/TestWindow.jsx:73 | the id is the first truthy of the navigation id, `id`, `employee_id`, `emp_id` |
| TestWindow.EmployeeNameOf | src/components/TestWindow.jsx:74 | the name is the first truthy of `name`, `employee_name` |
| TestWindow.EmployeePositionOf | src/components/TestWindow.jsx:75 | the position is the first truthy of the first info role, the first navigation role, `position`, `role` |
| TestWindow.FirstRoleIsPosition | src/components/TestWindow.jsx:75 | an employee whose roles start with a named role has that role as position |
| TestWindow.SubmissionFor | src/components/TestWindow.jsx:77-91 | the entry carries the options, the question id and text, the skill and level and the identity; its letter names the chosen option and is "" exactly when no option is the chosen one |
| TestWindow.Submissions | src/components/TestWindow.jsx:77-91 | one entry per question, in question order |
| TestWindow.SubmissionsShareIdentity | src/components/TestWindow.jsx:86-89 | every entry has the same level, id, name and position, and has options; there are entries exactly when there are questions |
| TestWindow.PageAndJoinAgree | src/components/TestWindow.jsx:78-79 | the page's letter is the letter the backend's join computes for the same question and answer |
| TestWindow.PickedOptionGrading | src/components/TestWindow.jsx:78-79 | with distinct options, picking option i grades correct exactly when the stored answer is `'A' + i` |
| TestWindow.UnansweredGetsNoLetter | src/components/TestWindow.jsx:76-79 | an unanswered question (selection `undefined`) would be sent with an empty letter, whatever its row held, because no option read back from JSON is `undefined`; the radio inputs' `required` attribute (src/components/TestWindow.jsx:146) normally stops the browser from submitting such a form |
| TestWindow.TestWindowPage.constructor | src/components/TestWindow.jsx:10-15 | no questions, loading, no answers, not submitted |
| TestWindow.TestWindowPage.ReceiveQuestions | src/components/TestWindow.jsx:35-41 | the questions are the response's, each as read back from JSON, or none, and loading ends even on a failed fetch |
| TestWindow.TestWindowPage.HandleOptionChange | src/components/TestWindow.jsx:63-65 | the chosen answer is recorded for that question only |
| TestWindow.TestWindowPage.HandleSubmit | src/components/TestWindow.jsx:67-91 | a submit while submitted or loading does nothing; otherwise it marks the page submitted and sends one entry per question |
| TestWindow.TestWindowPage.HandleOutcome | src/components/TestWindow.jsx:99-119 | only a successful response passes the test back to the dashboard; a failure or a network error clears `submitted` so the user can retry |
| TestWindow.TestWindowPage.SubmitToRoute | src/components/TestWindow.jsx:93-119 | against the route as written, no submission ever succeeds and `submitted` is cleared again |
| TestWindow.TestWindowPage.SubmitToFixedRoute | src/components/TestWindow.jsx:93-119 | against the fixed route, a submit succeeds exactly when there are questions |

## Findings

| source | as written | input that shows it | evidently intended | confidence | as-written member | corrected member |
|---|---|---|---|---|---|---|
| backend/utils/sheets.js:221 | the score-log row reads `StrLevel`, which is never declared. The ReferenceError is thrown after the submission row is appended, so `POST /submit-answers` answers 500 and no score is logged | any submission list whose entries all have options | a ten-cell score-log row and `{ success: true }` | not executed; high | McqRoutes.SubmitAnswers, TestWindow.TestWindowPage.SubmitToRoute | McqRoutes.SubmitAnswersFixed, TestWindow.TestWindowPage.SubmitToFixedRoute |
| backend/routes/employeeRoutes.js:126-131 | the top record is picked by a descending sort on an id that the POST itself stores as a string, so "9" sorts above "10" | stored ids "9" and "10": the new id is "10" again, and the unique index rejects it | one more than the largest numeric id | not executed; high | EmployeeRoutes.TopStringIdRepeats | EmployeeRoutes.CreateEmployeeFixed |
| src/components/EmployeeDashboard.jsx:136-139 | missing skills are added only when fewer entries than required skills are shown | entries A level 2 and A level 3 for required A and B: B is never shown | every required skill shown | not executed; medium | Dashboard.DuplicateEntryHidesMissingSkill | Dashboard.FilteredSkillsAreRequired |
| src/components/EmployeeDashboard.jsx:117 | the test button navigates without `fromDashboard`, and the test page redirects every state without it home (src/components/TestWindow.jsx:45-49) | any click on a test button | the state marked `fromDashboard: true` | not executed; high | Dashboard.TestNav | Dashboard.TestNavFixed |

## Left out

- I/O. Google Sheets reads and appends, MongoDB queries, CSV files and HTTP requests are all left out. Their data is passed in as sequences of rows or held in class fields, and their failures are `Option`/`Result` parameters.
- Module loading. The root utils/csvUtils module that routes/entityRoutes.js:4 imports `readCsv` and `writeCsv` from is not part of this model, and neither is backend/models/Skill.js.
- Time and randomness. Timestamps are string parameters. The random shuffle in `getRandomQuestions` is a permutation parameter, so only counts, membership and stripping are stated.
- Numbers. Numbers are integers. Decimal fractions, exponents, hexadecimal, `Infinity` and `-0` are left out, so `Number`/`parseInt` of such text reads as NaN or as its integer prefix.
- Percents. The percent is an integer: `Math.round` applied to the exact quotient 100·score/max. The floating-point error of `(score / max_score) * 100` is not modelled, so where that product lands just below a half (29 of 200 gives 14.499999999999998, shown as 14) the model rounds up (15). Performance.BestIsMax is stated only for numeric percents.
- JSON. Only the questions' option arrays are taken through JSON, where an `undefined` element becomes `null`. The question's other fields are scalars, which JSON keeps, or drops when they are `undefined` so that they read back as `undefined`. Every other response and request body is taken as the value the sender built, without a JSON round trip.
- Characters. Lower-casing is ASCII only, and JavaScript's reordering of integer-like object keys is not modelled.
- Inherited keys. Js.Field, Dict.Get and the key tests built on them treat a key that names an `Object.prototype` member ("constructor", "toString", "valueOf", "hasOwnProperty", "__proto__", …) as absent, while JavaScript's `k in obj` and `obj[k]` find the inherited member. So a skill named "toString" is never added to the pages' union (src/components/AddEmployee.jsx:60), a score row for the skill "constructor" is never kept (src/components/EmployeePerformance.jsx:35), and the entity "constructor" is not answered 404 (routes/entityRoutes.js:52); the model treats all of them as ordinary keys.
- EmployeeSkills.GetRoleSkills: each competency row's `skills` is read as a plain object. backend/utils/employeeSkills.js:26 loads the rows without `.lean()`, and backend/models/CompetencyMap.js:5 declares `skills` as a Mongoose `Map`, so `Object.keys` (line 18) and `Object.entries` (line 40) list the Map document's own properties rather than its entries. What the program then lists depends on Mongoose internals that are not part of this model; the model computes the skill list and union over the map's entries, which is what the code evidently means to do.
- EmployeeSkills.EmployeeSkillsReport: reads each role's skills through the same plain-object view, so each employee's `Skills` is the union over the map entries, not over what `Object.entries` of a Mongoose `Map` would list (backend/utils/employeeSkills.js:40).
- MongoDB behaviour. Mongoose casting and validators on update, regular-expression metacharacters inside an email lookup, the second `decodeURIComponent` of an already decoded email (a path such as `a%25zz` throws outside the `try` at backend/routes/employeeRoutes.js:33 and gets no response), and BSON ordering beyond numbers, strings and the other modelled types are left out.
- EmployeeRoutes.EmployeeStore.CreateEmployee: takes the top record of the descending sort as a parameter with its sort property, instead of running the sort.
- Unmodelled routes. These are projections or listings with no rule beyond a query:
  - the employee list, email list, skills list, `/employee/:id/skills`, `GET /competency_map` and `GET /employee_skills_levels` routes;
  - `/role_competencies`, `/test-role-competencies` and `fetchRoleCompetencies`;
  - `GET /submitted-answers` beyond `fetchJoinedSubmissions`, and the `/employee_assessment_results/all` route beyond its row mapping.
- React. Rendering, alerts, timers, `navigate` calls other than the test page's redirects, the XLSX export and printing, the chart, and the login page are left out.
- EmployeeDashboard.jsx. After a successful fetch the app passes this page the raw array of competency rows, so the `data`/`headers` branch never fires. On the app's initial or fallback value `{ headers: [], data: [] }` (src/App.jsx:28, 35-37) it does fire, and with a role selected the page shows no skills. That branch is still modelled as written (Dashboard.FilteredSkills on Dashboard.RoleSkills), beside the corrected one (Dashboard.FilteredSkillsFixed).
- PositionReport.CalculateAchievedLevel: the page defines it but never calls it. It is modelled because it is part of the page.
- Non-string inputs. A role name or employee name that is not a string would make the page throw. The model treats it as no match.
- Retest.HandleReassign: `/retest-allow` calls `setRetestAllowed`, which backend/utils/sheets.js does not export. Every call therefore fails, and no retest state change exists to model.
- Sheets.LetterFor, TestWindow.SubmissionFor, TestWindow.TestWindowPage.HandleSubmit: require at most 26 options per question. The sheet always gives four; beyond 26, `String.fromCharCode(65 + i)` would produce characters other than letters.
- TestWindow.QuestionRequest: a truthy skill that is not a string makes the normaliser throw inside the effect. It is modelled as no request.
- src/utils/skillMaps.js:17-22 refer to an undeclared `skillNameToCode` and to a skills fetch. Only `normalizeSkillName` is modelled.
