/** The test routes of backend/routes/mcqRoutes.js: the question count of
    `GET /questions`, the `POST /submit-answers` handler with its
    level-to-status chain, and the reading of score-log rows. */
module McqRoutes {
  import opened Wrappers
  import opened JsText
  import opened Js
  import opened Sheets

  // ------------------------------------------------------------ GET /questions

  /** `Number(count) || 10`: a missing, zero or non-numeric count asks for
      ten questions; any other number is taken as it is, negative ones
      included. */
  function CountOrDefault(count: JsVal): (n: int)
    ensures n != 0
    ensures ToNumber(count).Int? && ToNumber(count).value != 0 ==> n == ToNumber(count).value
    ensures ToNumber(count).NaN? || ToNumber(count) == Int(0) ==> n == 10
  {
    match ToNumber(count)
    case NaN => 10
    case Int(v) => if v == 0 then 10 else v
  }

  /** A missing count, an empty one, a zero and a non-number all give 10. */
  lemma CountDefaults()
    ensures CountOrDefault(Undefined) == 10 && CountOrDefault(Str("")) == 10
    ensures CountOrDefault(Num(0)) == 10 && CountOrDefault(Str("abc")) == 10
  {
    assert StringToNumber("abc") == NaN by {
      TrimNoop("abc");
      assert "abc"[0] == 'a' && !IsDigit('a');
      assert !AllDigits("abc");
    }
  }

  /** A numeric count is taken as it is, a negative one included. */
  lemma CountTaken(n: int)
    requires n != 0
    ensures CountOrDefault(Str(IntToString(n))) == n
  {
    StringToNumberOfInt(n);
  }

  /** `GET /questions?skill_id=..&level=..&count=..`, with the random
      shuffle given as `order`; a throw becomes a 500 response. */
  function QuestionsRoute(rows: seq<seq<string>>, skillId: JsVal, level: JsVal, count: JsVal,
                          order: seq<nat>): (r: Result<seq<PublicQuestion>, HttpError>)
    requires IsPermutation(order, |Candidates(rows, skillId, level)|)
    ensures r.Err? <==> FilterThrows(rows, skillId)
    ensures r.Err? ==> r.error.status == 500
    ensures r.Ok? ==> |r.value| == SliceLength(|Candidates(rows, skillId, level)|, CountOrDefault(count))
    ensures r.Ok? ==> forall i :: 0 <= i < |r.value| ==> r.value[i] == Strip(Candidates(rows, skillId, level)[order[i]])
    ensures r.Ok? ==> forall i :: 0 <= i < |r.value| ==>
      r.value[i].skillId.Str? && Key(r.value[i].skillId.s) == Key(skillId.s)
    ensures r.Ok? ==> |r.value| <= |Candidates(rows, skillId, level)|
    ensures r.Ok? && ToNumber(count).NaN? ==> |r.value| <= 10
  {
    match GetRandomQuestions(rows, skillId, level, CountOrDefault(count), order)
    case Err(e) => Err(HttpError(500, e))
    case Ok(qs) => Ok(qs)
  }

  // --------------------------------------------------------- status of a test

  datatype Status = Fail | Pass | EligibleForL3

  function Label(s: Status): string {
    match s
    case Fail => "Fail"
    case Pass => "Pass"
    case EligibleForL3 => "Eligible for L3"
  }

  /** Fail < Pass < Eligible for L3. */
  function Rank(s: Status): nat {
    match s
    case Fail => 0
    case Pass => 1
    case EligibleForL3 => 2
  }

  /** `percent <= bound` between numbers; false when percent is NaN. */
  predicate AtMost(a: JsNumber, b: int) {
    a.Int? && a.value <= b
  }

  /** `String(first.level).trim()`. */
  function LevelString(level: JsVal): string {
    Trim(ToStr(level))
  }

  /** The status chosen for a test whose level reads `levelStr` once
      trimmed, with `percent`: levels other than 2, 3 and 4 choose no
      status. */
  function StatusOf(levelStr: string, percent: JsNumber): (r: Option<Status>)
    ensures r.Some? <==> levelStr == "2" || levelStr == "3" || levelStr == "4"
    ensures r == Some(EligibleForL3) ==> levelStr == "2"
  {
    if levelStr == "2" then
      if AtLeast(percent, Int(80)) then Some(EligibleForL3)
      else if AtLeast(percent, Int(60)) then Some(Pass)
      else Some(Fail)
    else if levelStr == "3" then
      Some(if AtMost(percent, 80) then Fail else Pass)
    else if levelStr == "4" then
      Some(if AtLeast(percent, Int(60)) then Pass else Fail)
    else None
  }

  function StatusFor(level: JsVal, percent: JsNumber): Option<Status> {
    StatusOf(LevelString(level), percent)
  }

  /** The threshold table, level by level. */
  lemma StatusTable(levelStr: string, p: int)
    ensures levelStr == "2" ==>
      StatusOf(levelStr, Int(p)) == if p >= 80 then Some(EligibleForL3) else if p >= 60 then Some(Pass) else Some(Fail)
    ensures levelStr == "3" ==>
      StatusOf(levelStr, Int(p)) == if p > 80 then Some(Pass) else Some(Fail)
    ensures levelStr == "4" ==>
      StatusOf(levelStr, Int(p)) == if p >= 60 then Some(Pass) else Some(Fail)
  {
  }

  /** Surrounding whitespace in the level does not matter, and neither does
      whether it arrives as a number or a string: " 2 " and 3 are levels 2
      and 3. */
  lemma LevelIsTrimmed()
    ensures LevelString(Str(" 2 ")) == "2"
  {
    assert !IsWhitespace('2');
    assert " 2 "[1..] == "2 ";
    assert TrimStart(" 2 ") == "2 ";
    assert "2 "[..1] == "2";
    assert TrimEnd("2 ") == "2";
  }

  lemma NumericLevel(n: int)
    ensures LevelString(Num(n)) == IntToString(n)
  {
    TrimIntToString(n);
  }

  /** For a fixed level the status never gets worse as the percentage
      rises. */
  lemma StatusMonotonic(levelStr: string, p: int, q: int)
    requires p <= q
    requires StatusOf(levelStr, Int(p)).Some?
    ensures StatusOf(levelStr, Int(q)).Some?
    ensures Rank(StatusOf(levelStr, Int(p)).value) <= Rank(StatusOf(levelStr, Int(q)).value)
  {
  }

  /** The level-3 comparison is the only one that lets a NaN percentage
      pass: `NaN <= 80` is false. */
  lemma NaNStatus()
    ensures StatusOf("2", NaN) == Some(Fail)
    ensures StatusOf("3", NaN) == Some(Pass)
    ensures StatusOf("4", NaN) == Some(Fail)
  {
  }

  // ------------------------------------------------------- POST /submit-answers

  /** The answers graded: each submission's question id with its selected
      letter. */
  function AnswersOf(submissions: seq<Submission>): (answers: seq<Answer>)
    ensures |answers| == |submissions|
    ensures forall i :: 0 <= i < |submissions| ==>
      answers[i].id == submissions[i].questionId && answers[i].selected == submissions[i].selectedLetter
  {
    seq(|submissions|, i requires 0 <= i < |submissions| => Answer(submissions[i].questionId, submissions[i].selectedLetter))
  }

  /** A row of the score-log sheet as `GET /employee_assessment_results/all`
      returns it (columns A..J). */
  datatype ScoreLogEntry = ScoreLogEntry(
    timestamp: JsVal, employeeId: JsVal, employeeName: JsVal, employeePosition: JsVal,
    skill: JsVal, level: JsVal, score: JsVal, maxScore: JsVal, percent: JsVal, status: JsVal)

  function ScoreLogEntryOfRow(row: seq<string>): (e: ScoreLogEntry)
    ensures IsCell(e.percent) && IsCell(e.status) && IsCell(e.skill) && IsCell(e.level)
    ensures IsCell(e.employeeId) && IsCell(e.employeeName)
    ensures |row| >= 10 ==> e.status == Str(row[9]) && e.percent == Str(row[8])
    ensures |row| < 10 ==> e.status == Undefined
  {
    ScoreLogEntry(Cell(row, 0), Cell(row, 1), Cell(row, 2), Cell(row, 3), Cell(row, 4),
                  Cell(row, 5), Cell(row, 6), Cell(row, 7), Cell(row, 8), Cell(row, 9))
  }

  /** A number written to a cell, with `n || ""` applied: 0 and NaN are
      written blank. */
  function NumberCell(n: JsNumber): (v: JsVal)
    ensures v == Str("") || (n.Int? && n.value != 0 && v == Num(n.value))
  {
    if n.Int? && n.value != 0 then Num(n.value) else Str("")
  }

  function StatusCell(s: Option<Status>): JsVal {
    if s.Some? then Str(Label(s.value)) else Str("")
  }

  /** The score-log row the submit handler means to append: the ten columns
      the score-log reader expects, every missing value written as "". */
  function ScoreLogRow(first: Submission, g: Grading, status: Option<Status>, timestamp: string): (row: seq<JsVal>)
    ensures |row| == 10
    ensures forall k :: 0 <= k < 10 ==> Truthy(row[k]) || row[k] == Str("")
  {
    [Str(timestamp), Or(first.employeeId, Str("")), Or(first.employeeName, Str("")),
     Or(first.employeePosition, Str("")), Or(first.skill, Str("")), Or(first.level, Str("")),
     NumberCell(Int(g.score)), NumberCell(Int(g.maxScore)), NumberCell(g.percent), StatusCell(status)]
  }

  /** How the sheet shows a string or a number written to it. */
  function Shown(v: JsVal): string {
    ToStr(v)
  }

  /** Read back through the score-log reader, the corrected log row gives
      the status label and a percentage whose `Number(..)` is the graded
      percentage; a percentage of 0 reads back blank. */
  lemma ScoreLogReadsBack(first: Submission, g: Grading, status: Option<Status>, timestamp: string)
    requires g.percent.Int?
    ensures var row := ScoreLogRow(first, g, status, timestamp);
      var e := ScoreLogEntryOfRow(seq(10, k requires 0 <= k < 10 => Shown(row[k])));
      && (status.Some? ==> e.status == Str(Label(status.value)))
      && (status.None? ==> e.status == Str(""))
      && (g.percent.value != 0 ==> e.percent.Str? && StringToNumber(e.percent.s) == g.percent)
      && (g.percent.value == 0 ==> e.percent == Str(""))
  {
    var row := ScoreLogRow(first, g, status, timestamp);
    var shown := seq(10, k requires 0 <= k < 10 => Shown(row[k]));
    var e := ScoreLogEntryOfRow(shown);
    assert e.status == Str(shown[9]) && e.percent == Str(shown[8]);
    assert shown[9] == ToStr(StatusCell(status));
    assert shown[8] == ToStr(NumberCell(g.percent));
    if g.percent.value != 0 {
      assert NumberCell(g.percent) == Num(g.percent.value);
      assert shown[8] == IntToString(g.percent.value);
      StringToNumberOfInt(g.percent.value);
    } else {
      assert NumberCell(g.percent) == Str("");
    }
  }

  /** `POST /submit-answers` as written. The submission row is appended,
      the answers are graded and a status chosen, but building the score-log
      row reads an undefined variable (`StrLevel`), so every request that
      gets that far, and every one that does not, ends in a 500 response. */
  method SubmitAnswers(questionRows: seq<seq<string>>, submissions: seq<Submission>, timestamp: string)
    returns (appended: Option<seq<JsVal>>, response: Result<bool, HttpError>)
    ensures response.Err? && response.error.status == 500
    ensures appended.Some? <==> submissions != [] && forall i :: 0 <= i < |submissions| ==> HasOptions(submissions[i])
    ensures appended.Some? ==> IsSubmissionRow(appended.value, submissions, timestamp)
  {
    var row := SubmissionRow(submissions, timestamp);
    if row.Err? {
      return None, Err(HttpError(500, row.error));
    }
    appended := Some(row.value);
    var grading := GradeAnswers(questionRows, AnswersOf(submissions));
    var first := submissions[0];
    var status := StatusFor(first.level, grading.percent);
    response := Err(HttpError(500, "ReferenceError: StrLevel is not defined"));
  }

  /** `POST /submit-answers` as intended: the same steps, with the
      score-log row of ten columns appended and a success response. */
  method SubmitAnswersFixed(questionRows: seq<seq<string>>, submissions: seq<Submission>, timestamp: string)
    returns (appended: Option<seq<JsVal>>, logged: Option<seq<JsVal>>, response: Result<bool, HttpError>)
    ensures response.Ok? <==> appended.Some?
    ensures response.Ok? ==> response.value && logged.Some?
    ensures response.Err? ==> response.error.status == 500 && logged.None?
    ensures appended.Some? <==> submissions != [] && forall i :: 0 <= i < |submissions| ==> HasOptions(submissions[i])
    ensures appended.Some? ==> IsSubmissionRow(appended.value, submissions, timestamp)
    ensures logged.Some? ==>
      var g := GradingOf(questionRows, AnswersOf(submissions));
      logged.value == ScoreLogRow(submissions[0], g, StatusFor(submissions[0].level, g.percent), timestamp)
  {
    var row := SubmissionRow(submissions, timestamp);
    if row.Err? {
      return None, None, Err(HttpError(500, row.error));
    }
    appended := Some(row.value);
    var grading := GradeAnswers(questionRows, AnswersOf(submissions));
    var first := submissions[0];
    var status := StatusFor(first.level, grading.percent);
    logged := Some(ScoreLogRow(first, grading, status, timestamp));
    response := Ok(true);
  }
}
