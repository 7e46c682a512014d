/** The question bank and the submission sheet of backend/utils/sheets.js:
    reading question rows, picking the questions of a test, grading the
    answers, the A..D letter of a chosen option, and the fixed-width row that
    records one submitted test. Sheet contents are passed in as rows of
    strings; the network calls that fetch and append them are not modelled. */
module Sheets {
  import opened Wrappers
  import opened JsText
  import opened Js

  // ---------------------------------------------------------------- questions

  /** A question as read from columns A..J of the question sheet. The same
      record serves `fetchAllQuestions`, where `id` is named `question_id`. */
  datatype Question = Question(
    id: JsVal,
    skillId: JsVal,
    difficulty: JsVal,
    questionNumber: JsVal,
    questionText: JsVal,
    options: seq<JsVal>,
    correctOption: JsVal)

  /** A question as sent to the test taker: everything but the answer. */
  datatype PublicQuestion = PublicQuestion(
    id: JsVal,
    skillId: JsVal,
    difficulty: JsVal,
    questionNumber: JsVal,
    questionText: JsVal,
    options: seq<JsVal>)

  /** Every field of a question read from a row is a sheet cell, and there
      are exactly four options. */
  predicate IsSheetQuestion(q: Question) {
    && IsCell(q.id) && IsCell(q.skillId) && IsCell(q.difficulty)
    && IsCell(q.questionNumber) && IsCell(q.questionText) && IsCell(q.correctOption)
    && |q.options| == 4 && forall i :: 0 <= i < 4 ==> IsCell(q.options[i])
  }

  /** The row-to-question mapping: columns A, B, C, D, E give the id, skill,
      difficulty, number and text, F..I the four options and J the answer. */
  function QuestionOfRow(row: seq<string>): (q: Question)
    ensures IsSheetQuestion(q)
    ensures |row| >= 10 <==> q.correctOption.Str?
  {
    Question(Cell(row, 0), Cell(row, 1), Cell(row, 2), Cell(row, 3), Cell(row, 4),
             [Cell(row, 5), Cell(row, 6), Cell(row, 7), Cell(row, 8)], Cell(row, 9))
  }

  /** The ten cells a question is stored as. */
  function RowOfQuestion(q: Question): seq<string>
    requires IsSheetQuestion(q)
    requires q.id.Str? && q.skillId.Str? && q.difficulty.Str? && q.questionNumber.Str?
    requires q.questionText.Str? && q.correctOption.Str?
    requires forall i :: 0 <= i < 4 ==> q.options[i].Str?
  {
    [q.id.s, q.skillId.s, q.difficulty.s, q.questionNumber.s, q.questionText.s,
     q.options[0].s, q.options[1].s, q.options[2].s, q.options[3].s, q.correctOption.s]
  }

  /** A full question row reads back as the question it stores. */
  lemma QuestionRowRoundTrip(q: Question)
    requires IsSheetQuestion(q)
    requires q.id.Str? && q.skillId.Str? && q.difficulty.Str? && q.questionNumber.Str?
    requires q.questionText.Str? && q.correctOption.Str?
    requires forall i :: 0 <= i < 4 ==> q.options[i].Str?
    ensures QuestionOfRow(RowOfQuestion(q)) == q
  {
    assert QuestionOfRow(RowOfQuestion(q)).options == q.options;
  }

  /** The whole question sheet. */
  function Bank(rows: seq<seq<string>>): (bank: seq<Question>)
    ensures |bank| == |rows|
    ensures forall i :: 0 <= i < |rows| ==> bank[i] == QuestionOfRow(rows[i])
  {
    seq(|rows|, i requires 0 <= i < |rows| => QuestionOfRow(rows[i]))
  }

  /** `rest` in `({ correct_option, ...rest }) => rest`. */
  function Strip(q: Question): PublicQuestion {
    PublicQuestion(q.id, q.skillId, q.difficulty, q.questionNumber, q.questionText, q.options)
  }

  /** An option as it reaches the page: the questions route sends the
      questions as JSON, where an `undefined` array element is written as
      `null`; strings and `null` come back unchanged. */
  function OptionOverJson(v: JsVal): (r: JsVal)
    ensures !r.Undefined?
    ensures v.Str? || v.Null? ==> r == v
  {
    if v.Undefined? then Null else v
  }

  /** A public question as the page receives it: the same question with
      its options sent through JSON. Missing scalar fields are left out of
      the JSON object and read back as `undefined` again. */
  function QuestionOverJson(q: PublicQuestion): (r: PublicQuestion)
    ensures |r.options| == |q.options|
    ensures forall j :: 0 <= j < |r.options| ==> !r.options[j].Undefined?
    ensures forall j :: 0 <= j < |q.options| && (q.options[j].Str? || q.options[j].Null?) ==> r.options[j] == q.options[j]
    ensures r.id == q.id && r.questionText == q.questionText && r.skillId == q.skillId
  {
    q.(options := seq(|q.options|, j requires 0 <= j < |q.options| => OptionOverJson(q.options[j])))
  }

  /** Puts an answer back on a public question. */
  function WithAnswer(p: PublicQuestion, answer: JsVal): Question {
    Question(p.id, p.skillId, p.difficulty, p.questionNumber, p.questionText, p.options, answer)
  }

  /** Stripping removes the answer and nothing else. */
  lemma StripKeepsAllButAnswer(q: Question)
    ensures WithAnswer(Strip(q), q.correctOption) == q
    ensures forall a :: Strip(WithAnswer(Strip(q), a)) == Strip(q)
  {
  }

  // ------------------------------------------------------------ test selection

  /** The difficulty tier asked for: "advance" for level 4, "basic" for every
      other level. The level is not trimmed here. */
  function DifficultyFor(level: JsVal): (d: string)
    ensures d == "advance" || d == "basic"
  {
    if ToStr(level) == "4" then "advance" else "basic"
  }

  /** Unlike the status chain, choosing the tier does not trim the level:
      only an exact "4" (or the number 4) selects the advanced questions. */
  lemma DifficultyOfLevels()
    ensures DifficultyFor(Num(4)) == "advance" && DifficultyFor(Str("4")) == "advance"
    ensures DifficultyFor(Str(" 4")) == "basic" && DifficultyFor(Str("3")) == "basic"
    ensures DifficultyFor(Undefined) == "basic"
  {
    assert IntToString(4) == "4";
  }

  /** How a skill id or a difficulty is compared: trimmed and lower-cased. */
  function Key(s: string): string {
    ToLower(Trim(s))
  }

  /** The guard of the filter: a question needs a non-empty skill id and a
      non-empty difficulty before anything is compared. */
  predicate HasBothFields(q: Question) {
    Truthy(q.skillId) && Truthy(q.difficulty)
  }

  predicate Matches(q: Question, skillId: string, difficulty: string) {
    && HasBothFields(q) && q.skillId.Str? && q.difficulty.Str?
    && Key(q.skillId.s) == Key(skillId)
    && Key(q.difficulty.s) == difficulty
  }

  /** `allQuestions.filter(..)`: the matching questions, in sheet order. */
  function FilterQuestions(bank: seq<Question>, skillId: string, difficulty: string): (r: seq<Question>)
    ensures forall q :: q in r <==> q in bank && Matches(q, skillId, difficulty)
    ensures |r| <= |bank|
  {
    if bank == [] then []
    else
      var rest := FilterQuestions(bank[1..], skillId, difficulty);
      assert forall q :: q in bank <==> q == bank[0] || q in bank[1..];
      if Matches(bank[0], skillId, difficulty) then [bank[0]] + rest else rest
  }

  /** The filter keeps sheet order: filtering two runs of rows one after
      the other gives the filtered runs one after the other. */
  lemma {:induction false} FilterQuestionsAppend(a: seq<Question>, b: seq<Question>, skillId: string, difficulty: string)
    ensures FilterQuestions(a + b, skillId, difficulty) == FilterQuestions(a, skillId, difficulty) + FilterQuestions(b, skillId, difficulty)
  {
    if a == [] {
      assert a + b == b;
    } else {
      assert (a + b)[1..] == a[1..] + b;
      FilterQuestionsAppend(a[1..], b, skillId, difficulty);
    }
  }

  /** The questions that survive the filter for a request. When the request
      has no string skill id there are none (or the filter throws). */
  function Candidates(rows: seq<seq<string>>, skillId: JsVal, level: JsVal): seq<Question> {
    if skillId.Str? then FilterQuestions(Bank(rows), skillId.s, DifficultyFor(level)) else []
  }

  lemma CandidatesFromBank(rows: seq<seq<string>>, skillId: JsVal, level: JsVal)
    ensures forall q :: q in Candidates(rows, skillId, level) ==> q in Bank(rows)
  {
  }

  /** Every candidate matches the request's skill id and tier, so there are
      none unless the skill id is a string. */
  lemma CandidatesMatch(rows: seq<seq<string>>, skillId: JsVal, level: JsVal)
    ensures forall q :: q in Candidates(rows, skillId, level) ==>
      skillId.Str? && Matches(q, skillId.s, DifficultyFor(level))
  {
  }

  /** `skill_id.trim()` is reached, and throws, when the skill id is not a
      string and some question passes the guard. */
  predicate FilterThrows(rows: seq<seq<string>>, skillId: JsVal) {
    !skillId.Str? && exists q :: q in Bank(rows) && HasBothFields(q)
  }

  /** A random reordering: each of the positions 0..n-1 exactly once. */
  predicate IsPermutation(order: seq<nat>, n: nat) {
    && |order| == n
    && (forall i :: 0 <= i < n ==> order[i] < n)
    && (forall i, j :: 0 <= i < j < n ==> order[i] != order[j])
  }

  /** The length of `xs.slice(0, count)` on `n` elements: a negative count
      counts back from the end. */
  function SliceLength(n: nat, count: int): (k: nat)
    ensures k <= n
    ensures count >= 0 ==> k <= count && (k == count || k == n)
    ensures count < 0 ==> k == if n + count > 0 then n + count else 0
  {
    if count >= 0 then (if count < n then count else n)
    else if n + count > 0 then n + count else 0
  }

  /** `getRandomQuestions(skill_id, level, count)` on the question rows, with
      the random shuffle given as `order`: the shuffled list is
      `candidates[order[0]], candidates[order[1]], ..`. */
  function GetRandomQuestions(rows: seq<seq<string>>, skillId: JsVal, level: JsVal, count: int,
                              order: seq<nat>): (r: Result<seq<PublicQuestion>, string>)
    requires IsPermutation(order, |Candidates(rows, skillId, level)|)
    ensures r.Err? <==> FilterThrows(rows, skillId)
    ensures r.Ok? ==> |r.value| == SliceLength(|Candidates(rows, skillId, level)|, count)
    ensures r.Ok? && count >= 0 ==> |r.value| <= count
    ensures r.Ok? ==> forall i :: 0 <= i < |r.value| ==>
      Strip(Candidates(rows, skillId, level)[order[i]]) == r.value[i]
    ensures r.Ok? ==> forall i :: 0 <= i < |r.value| ==>
      && r.value[i].skillId.Str? && Key(r.value[i].skillId.s) == Key(skillId.s)
      && r.value[i].difficulty.Str? && Key(r.value[i].difficulty.s) == DifficultyFor(level)
    ensures r.Ok? ==> forall i :: 0 <= i < |r.value| ==> Candidates(rows, skillId, level)[order[i]] in Bank(rows)
  {
    if FilterThrows(rows, skillId) then Err("TypeError: skill_id.trim is not a function")
    else
      var c := Candidates(rows, skillId, level);
      var k := SliceLength(|c|, count);
      var picked := seq(k, i requires 0 <= i < k => Strip(c[order[i]]));
      CandidatesFromBank(rows, skillId, level);
      CandidatesMatch(rows, skillId, level);
      assert forall i :: 0 <= i < k ==> c[order[i]] in c && picked[i] == Strip(c[order[i]]);
      assert forall i :: 0 <= i < k ==> c[order[i]] in Bank(rows);
      assert forall i :: 0 <= i < k ==> skillId.Str? && Matches(c[order[i]], skillId.s, DifficultyFor(level));
      Ok(picked)
  }

  /** No question is handed out twice in one test: the picks come from
      distinct positions of the candidate list. */
  lemma PicksAreDistinct(rows: seq<seq<string>>, skillId: JsVal, level: JsVal, count: int,
                         order: seq<nat>, i: nat, j: nat)
    requires IsPermutation(order, |Candidates(rows, skillId, level)|)
    requires GetRandomQuestions(rows, skillId, level, count, order).Ok?
    requires i < j < |GetRandomQuestions(rows, skillId, level, count, order).value|
    ensures order[i] != order[j]
  {
  }

  // ------------------------------------------------------------------ grading

  /** What `gradeAnswers` receives per submission: the question id and the
      selected letter. */
  datatype Answer = Answer(id: JsVal, selected: JsVal)

  datatype AnswerResult = AnswerResult(id: JsVal, correct: JsVal, yourAnswer: JsVal, isCorrect: bool)

  datatype Grading = Grading(score: nat, maxScore: nat, percent: JsNumber, results: seq<AnswerResult>)

  /** `allQuestions.find(q => q._id === id)`: the earliest question with
      that id, since ids in the sheet need not be unique. */
  function FindQuestion(bank: seq<Question>, id: JsVal): (r: Option<Question>)
    ensures r.Some? ==> r.value in bank && StrictEquals(r.value.id, id)
    ensures r.None? <==> forall q :: q in bank ==> !StrictEquals(q.id, id)
    ensures r.Some? ==> exists i :: (0 <= i < |bank| && bank[i] == r.value &&
      forall j :: 0 <= j < i ==> !StrictEquals(bank[j].id, id))
  {
    if bank == [] then None
    else if StrictEquals(bank[0].id, id) then Some(bank[0])
    else
      assert forall q :: q in bank ==> q == bank[0] || q in bank[1..];
      var rest := FindQuestion(bank[1..], id);
      if rest.Some? then
        var i :| (0 <= i < |bank[1..]| && bank[1..][i] == rest.value &&
          forall j :: 0 <= j < i ==> !StrictEquals(bank[1..][j].id, id));
        assert forall j :: 0 <= j < i + 1 ==> !StrictEquals(bank[j].id, id) by {
          forall j | 0 <= j < i + 1 ensures !StrictEquals(bank[j].id, id) {
            if j > 0 {
              assert bank[j] == bank[1..][j - 1];
            }
          }
        }
        assert bank[i + 1] == rest.value;
        rest
      else rest
  }

  /** The graded form of one answer: the answer key of its question (or
      `null` when the id is unknown) and whether the two print the same. */
  function ResultFor(bank: seq<Question>, a: Answer): (r: AnswerResult)
    ensures r.id == a.id && r.yourAnswer == a.selected
    ensures (forall q :: q in bank ==> IsCell(q.correctOption)) ==>
      (r.correct.Null? <==> forall q :: q in bank ==> !StrictEquals(q.id, a.id))
  {
    var question := FindQuestion(bank, a.id);
    var correct := if question.Some? then question.value.correctOption else Null;
    AnswerResult(a.id, correct, a.selected, ToStr(a.selected) == ToStr(correct))
  }

  /** For a letter answer: it is correct exactly when it equals the answer
      key of its question, and an answer to an unknown question is correct
      only if it is literally the text "null". */
  lemma LetterAnswerGrading(bank: seq<Question>, a: Answer)
    requires a.selected.Str?
    ensures FindQuestion(bank, a.id).Some? && FindQuestion(bank, a.id).value.correctOption.Str? ==>
      (ResultFor(bank, a).isCorrect <==> a.selected.s == FindQuestion(bank, a.id).value.correctOption.s)
    ensures FindQuestion(bank, a.id).None? ==> (ResultFor(bank, a).isCorrect <==> a.selected.s == "null")
  {
  }

  /** The positions of the correct results. */
  function CorrectPositions(results: seq<AnswerResult>): set<nat> {
    set i: nat | i < |results| && results[i].isCorrect
  }

  /** The number of correct results: `results.filter(r => r.isCorrect).length`. */
  function CountCorrect(results: seq<AnswerResult>): (n: nat)
    ensures n <= |results|
  {
    if results == [] then 0
    else CountCorrect(results[..|results| - 1]) + (if results[|results| - 1].isCorrect then 1 else 0)
  }

  /** The score counts exactly the positions holding a correct result. */
  lemma {:induction false} CountCorrectIsCount(results: seq<AnswerResult>)
    ensures CountCorrect(results) == |CorrectPositions(results)|
  {
    if results != [] {
      var init := results[..|results| - 1];
      var last := |results| - 1;
      CountCorrectIsCount(init);
      assert CorrectPositions(results) ==
        CorrectPositions(init) + (if results[last].isCorrect then {last} else {});
      assert last !in CorrectPositions(init);
    }
  }

  /** One more result adds one exactly when it is correct. */
  lemma CountCorrectSnoc(results: seq<AnswerResult>, r: AnswerResult)
    ensures CountCorrect(results + [r]) == CountCorrect(results) + if r.isCorrect then 1 else 0
  {
    assert (results + [r])[..|results|] == results;
  }

  /** `Math.round(score / max_score * 100)` on integers: NaN for an empty
      test, otherwise the percentage rounded half up. */
  function RoundPercent(score: nat, maxScore: nat): JsNumber {
    if maxScore == 0 then NaN else Int((200 * score + maxScore) / (2 * maxScore))
  }

  /** The rounded percentage is within one half of the exact one, ties
      going up: p - 1/2 <= 100 * score / max < p + 1/2. */
  lemma {:induction false} RoundPercentIsNearest(score: nat, maxScore: nat)
    requires maxScore > 0
    ensures RoundPercent(score, maxScore).Int?
    ensures var p := RoundPercent(score, maxScore).value;
      2 * maxScore * p <= 200 * score + maxScore < 2 * maxScore * (p + 1)
  {
    var a := 200 * score + maxScore;
    var b := 2 * maxScore;
    var p := a / b;
    assert a == b * p + a % b && 0 <= a % b < b;
    assert b * (p + 1) == b * p + b;
  }

  /** A percentage of a non-empty test lies in 0..100: 0 for no correct
      answer, 100 for all. */
  lemma {:induction false} RoundPercentBounds(score: nat, maxScore: nat)
    requires 0 < maxScore && score <= maxScore
    ensures RoundPercent(score, maxScore).Int?
    ensures 0 <= RoundPercent(score, maxScore).value <= 100
    ensures score == 0 ==> RoundPercent(score, maxScore).value == 0
    ensures score == maxScore ==> RoundPercent(score, maxScore).value == 100
  {
    RoundPercentIsNearest(score, maxScore);
    var p := RoundPercent(score, maxScore).value;
    var m := maxScore;
    assert 200 * score <= 200 * m;
    assert 2 * m * (101 - p) == 2 * m * 101 - 2 * m * p > 0;
    PositiveFactor(2 * m, 101 - p);
    assert 2 * m * (p + 1) > 0;
    PositiveFactor(2 * m, p + 1);
    if score == 0 {
      assert 2 * m * (1 - p) == 2 * m - 2 * m * p > 0;
      PositiveFactor(2 * m, 1 - p);
    }
    if score == m {
      assert 2 * m * (p - 99) == 2 * m * (p + 1) - 2 * m * 100 > 0;
      PositiveFactor(2 * m, p - 99);
    }
  }

  /** More correct answers never give a lower percentage. */
  lemma {:induction false} RoundPercentMonotonic(s1: nat, s2: nat, maxScore: nat)
    requires maxScore > 0 && s1 <= s2
    ensures RoundPercent(s1, maxScore).value <= RoundPercent(s2, maxScore).value
  {
    RoundPercentIsNearest(s1, maxScore);
    RoundPercentIsNearest(s2, maxScore);
    var p1 := RoundPercent(s1, maxScore).value;
    var p2 := RoundPercent(s2, maxScore).value;
    var m := maxScore;
    assert 2 * m * (p2 + 1 - p1) == 2 * m * (p2 + 1) - 2 * m * p1 > 0;
    PositiveFactor(2 * m, p2 + 1 - p1);
  }

  lemma PositiveFactor(a: int, x: int)
    requires a > 0 && a * x > 0
    ensures x > 0
  {
  }

  /** The grading of a set of answers: one result per answer in the same
      order, the score counting the correct ones out of one point per
      answer, and the rounded percentage. */
  function GradingOf(rows: seq<seq<string>>, answers: seq<Answer>): Grading {
    var results := seq(|answers|, i requires 0 <= i < |answers| => ResultFor(Bank(rows), answers[i]));
    Grading(CountCorrect(results), |answers|, RoundPercent(CountCorrect(results), |answers|), results)
  }

  /** `gradeAnswers(submittedAnswers)` against the question rows: one result
      per answer in the same order, the score counting the correct ones. */
  method GradeAnswers(rows: seq<seq<string>>, answers: seq<Answer>) returns (g: Grading)
    ensures g == GradingOf(rows, answers)
    ensures g.maxScore == |answers|
    ensures |g.results| == |answers|
    ensures forall i :: 0 <= i < |answers| ==> g.results[i] == ResultFor(Bank(rows), answers[i])
    ensures g.score == CountCorrect(g.results) && g.score <= g.maxScore
    ensures g.percent == RoundPercent(g.score, g.maxScore)
  {
    var bank := Bank(rows);
    var score := 0;
    var results: seq<AnswerResult> := [];
    var i := 0;
    while i < |answers|
      invariant 0 <= i <= |answers|
      invariant |results| == i
      invariant forall j :: 0 <= j < i ==> results[j] == ResultFor(bank, answers[j])
      invariant score == CountCorrect(results)
    {
      var r := ResultFor(bank, answers[i]);
      if r.isCorrect {
        score := score + 1;
      }
      CountCorrectSnoc(results, r);
      results := results + [r];
      i := i + 1;
    }
    g := Grading(score, |answers|, RoundPercent(score, |answers|), results);
    GradingResults(rows, answers, results);
  }

  /** Results computed one per answer are the results of `GradingOf`. */
  lemma GradingResults(rows: seq<seq<string>>, answers: seq<Answer>, results: seq<AnswerResult>)
    requires |results| == |answers|
    requires forall j :: 0 <= j < |answers| ==> results[j] == ResultFor(Bank(rows), answers[j])
    ensures results == GradingOf(rows, answers).results
  {
  }

  // ------------------------------------------------------------ option letters

  /** The letter of option `i`: 'A' for 0, 'B' for 1, and so on. */
  function Letter(i: nat): (c: char)
    requires i < 26
    ensures 'A' <= c <= 'Z'
  {
    ('A' as int + i) as char
  }

  /** `options.findIndex(opt => opt === x)`, -1 when there is none. */
  function FindOption(options: seq<JsVal>, x: JsVal): (r: int)
    ensures -1 <= r < |options|
    ensures r >= 0 ==> StrictEquals(options[r], x) && forall j :: 0 <= j < r ==> !StrictEquals(options[j], x)
    ensures r == -1 <==> forall j :: 0 <= j < |options| ==> !StrictEquals(options[j], x)
  {
    if options == [] then -1
    else if StrictEquals(options[0], x) then 0
    else
      var r := FindOption(options[1..], x);
      assert forall j :: 1 <= j < |options| ==> options[j] == options[1..][j - 1];
      if r == -1 then -1 else r + 1
  }

  /** The letter of the first option identical to `x`, or "" when there is
      none: the mapping shared by the test window (TestWindow.jsx) and the
      join of submitted answers. */
  function LetterFor(options: seq<JsVal>, x: JsVal): (r: string)
    requires |options| <= 26
    ensures r == "" || |r| == 1
  {
    var i := FindOption(options, x);
    if i == -1 then "" else [Letter(i)]
  }

  /** The option a letter names, if any. */
  function OptionOfLetter(options: seq<JsVal>, letter: string): Option<JsVal> {
    if |letter| == 1 && 'A' <= letter[0] && (letter[0] as int - 'A' as int) < |options|
    then Some(options[letter[0] as int - 'A' as int])
    else None
  }

  /** Decoding the letter gives back the chosen option; no letter means no
      option is identical to the choice. */
  lemma LetterRoundTrip(options: seq<JsVal>, x: JsVal)
    requires |options| <= 26
    ensures LetterFor(options, x) != "" ==>
      OptionOfLetter(options, LetterFor(options, x)) == Some(x) && StrictEquals(x, x)
    ensures LetterFor(options, x) == "" <==> forall j :: 0 <= j < |options| ==> !StrictEquals(options[j], x)
  {
  }

  /** With options that are pairwise different strings, choosing option `i`
      gives the `i`-th letter, and that letter names option `i`. */
  lemma {:induction false} LetterOfChosenOption(options: seq<JsVal>, i: nat)
    requires |options| <= 26 && i < |options|
    requires forall j :: 0 <= j < |options| ==> options[j].Str?
    requires forall j, k :: 0 <= j < k < |options| ==> options[j] != options[k]
    ensures LetterFor(options, options[i]) == [Letter(i)]
    ensures OptionOfLetter(options, [Letter(i)]) == Some(options[i])
  {
    assert StrictEquals(options[i], options[i]);
    assert forall j :: 0 <= j < |options| && j != i ==> !StrictEquals(options[j], options[i]);
  }

  // -------------------------------------------------- submitted-answers sheet

  /** `fetchSubmittedAnswers`: one record per submitted test, from the first
      six columns only. */
  datatype SubmittedTest = SubmittedTest(
    timestamp: JsVal, employeeId: JsVal, employeeName: JsVal,
    employeePosition: JsVal, skill: JsVal, level: JsVal)

  function SubmittedTestOfRow(row: seq<string>): (t: SubmittedTest)
    ensures IsCell(t.timestamp) && IsCell(t.employeeId) && IsCell(t.employeeName)
    ensures IsCell(t.employeePosition) && IsCell(t.skill) && IsCell(t.level)
    ensures |row| >= 6 ==> t.level == Str(row[5]) && t.employeeId == Str(row[1])
  {
    SubmittedTest(Cell(row, 0), Cell(row, 1), Cell(row, 2), Cell(row, 3), Cell(row, 4), Cell(row, 5))
  }

  /** A record of `fetchJoinedSubmissions`. */
  datatype JoinedSubmission = JoinedSubmission(
    test: SubmittedTest, questionText: JsVal, options: seq<JsVal>, submittedLetter: string)

  /** The letter mapping of the join: only with a question and a truthy
      selected answer is the option looked up. */
  function SubmittedLetter(q: Option<Question>, selected: JsVal): (r: string)
    requires q.Some? ==> |q.value.options| <= 26
    ensures r != "" ==> q.Some? && Truthy(selected) && r == LetterFor(q.value.options, selected)
    ensures q.Some? && Truthy(selected) ==> r == LetterFor(q.value.options, selected)
  {
    if q.Some? && Truthy(selected) then LetterFor(q.value.options, selected) else ""
  }

  /** The join of one submitted test with the question sheet. A submitted
      test record carries neither a question id nor a selected answer, so
      both read as `undefined`. */
  function JoinSubmission(questionRows: seq<seq<string>>, sub: SubmittedTest): (j: JoinedSubmission)
    ensures j.test == sub
    ensures j.submittedLetter == ""
    ensures j.questionText == Undefined
    ensures j.options == [] || j.options == [Undefined, Undefined, Undefined, Undefined]
    ensures j.options != [] <==> [] in questionRows
  {
    var questions := Bank(questionRows);
    var q := FindQuestion(questions, Undefined);
    var letter := SubmittedLetter(q, Undefined);
    if q.Some? then
      var k :| 0 <= k < |questions| && questions[k] == q.value;
      assert questionRows[k] == [] by {
        assert Cell(questionRows[k], 0) == Undefined;
      }
      JoinedSubmission(sub, q.value.questionText, q.value.options, letter)
    else
      assert [] !in questionRows by {
        forall k | 0 <= k < |questionRows| ensures questionRows[k] != [] {
          assert questions[k] in questions;
        }
      }
      JoinedSubmission(sub, Undefined, [], letter)
  }

  // ---------------------------------------------------------- submission row

  /** One entry of the `submissions` body built by the test window. */
  datatype Submission = Submission(
    questionId: JsVal, questionText: JsVal, options: JsVal, selectedLetter: JsVal,
    skill: JsVal, level: JsVal, employeeId: JsVal, employeeName: JsVal, employeePosition: JsVal)

  /** `sub.options[i]` throws when the options are null or undefined. */
  predicate HasOptions(sub: Submission) {
    !sub.options.Undefined? && !sub.options.Null?
  }

  /** The first six cells: timestamp, then the identity of the first
      submission (a missing id, name or position written as ""), skill and
      level. */
  function Header(first: Submission, timestamp: string): (h: seq<JsVal>)
    ensures |h| == 6
  {
    [Str(timestamp), Or(first.employeeId, Str("")), Or(first.employeeName, Str("")),
     Or(first.employeePosition, Str("")), first.skill, first.level]
  }

  /** The seven cells of one answered question. */
  function Slot(sub: Submission): (s: seq<JsVal>)
    requires HasOptions(sub)
    ensures |s| == 7
  {
    [sub.questionId, sub.questionText,
     Index(sub.options, 0).value, Index(sub.options, 1).value,
     Index(sub.options, 2).value, Index(sub.options, 3).value,
     sub.selectedLetter]
  }

  function Max(a: int, b: int): int {
    if a >= b then a else b
  }

  /** The row `appendSubmissionRows(submissions)` appends, stamped with
      `timestamp`: a header, seven cells per question and blank slots up to
      ten questions. It fails, and nothing is appended, on an empty list or
      an entry without options. */
  method SubmissionRow(submissions: seq<Submission>, timestamp: string) returns (r: Result<seq<JsVal>, string>)
    ensures r.Err? <==> submissions == [] || exists i :: 0 <= i < |submissions| && !HasOptions(submissions[i])
    ensures r.Ok? ==> IsSubmissionRow(r.value, submissions, timestamp)
  {
    if submissions == [] {
      return Err("TypeError: Cannot read properties of undefined (reading 'employee_id')");
    }
    var row := Header(submissions[0], timestamp);
    var i := 0;
    while i < |submissions|
      invariant 0 <= i <= |submissions|
      invariant |row| == 6 + 7 * i
      invariant row[..6] == Header(submissions[0], timestamp)
      invariant forall j :: 0 <= j < i ==> HasOptions(submissions[j]) && row[6 + 7 * j .. 13 + 7 * j] == Slot(submissions[j])
    {
      var sub := submissions[i];
      if !HasOptions(sub) {
        return Err("TypeError: Cannot read properties of undefined (reading '0')");
      }
      AppendKeepsSlots(row, Slot(sub), i);
      row := row + Slot(sub);
      i := i + 1;
    }
    var n := |submissions|;
    while i < 10
      invariant n <= i <= Max(n, 10)
      invariant |row| == 6 + 7 * i
      invariant row[..6] == Header(submissions[0], timestamp)
      invariant forall j :: 0 <= j < n ==> row[6 + 7 * j .. 13 + 7 * j] == Slot(submissions[j])
      invariant forall k :: 6 + 7 * n <= k < |row| ==> row[k] == Str("")
    {
      var blank := [Str(""), Str(""), Str(""), Str(""), Str(""), Str(""), Str("")];
      AppendKeepsSlots(row, blank, n);
      row := row + blank;
      i := i + 1;
    }
    return Ok(row);
  }

  /** The layout of an answers-sheet row: the header of the first entry,
      one slot of seven cells per entry, and blank slots up to ten. */
  predicate IsSubmissionRow(row: seq<JsVal>, submissions: seq<Submission>, timestamp: string)
    requires submissions != [] && forall i :: 0 <= i < |submissions| ==> HasOptions(submissions[i])
  {
    && |row| == 6 + 7 * Max(|submissions|, 10)
    && row[..6] == Header(submissions[0], timestamp)
    && (forall i :: 0 <= i < |submissions| ==> row[6 + 7 * i .. 13 + 7 * i] == Slot(submissions[i]))
    && (forall k :: 6 + 7 * |submissions| <= k < |row| ==> row[k] == Str(""))
  }

  /** Appending cells to a row keeps its header and its first `n` slots,
      and the appended cells follow them. */
  lemma AppendKeepsSlots(row: seq<JsVal>, extra: seq<JsVal>, n: nat)
    requires 6 + 7 * n <= |row|
    ensures (row + extra)[..6] == row[..6]
    ensures forall j :: 0 <= j < n ==> (row + extra)[6 + 7 * j .. 13 + 7 * j] == row[6 + 7 * j .. 13 + 7 * j]
    ensures (row + extra)[|row|..] == extra
  {
    forall j | 0 <= j < n
      ensures (row + extra)[6 + 7 * j .. 13 + 7 * j] == row[6 + 7 * j .. 13 + 7 * j]
    {
      assert 13 + 7 * j <= |row|;
    }
  }

  /** The header written for a test reads back, through the submitted-test
      mapping, as the identity of its first entry when all of those cells
      are strings. */
  lemma HeaderReadsBack(first: Submission, timestamp: string, cells: seq<string>)
    requires first.employeeId.Str? && first.employeeName.Str? && first.employeePosition.Str?
    requires first.skill.Str? && first.level.Str?
    requires |cells| >= 6
    requires forall k :: 0 <= k < 6 ==> Str(cells[k]) == Header(first, timestamp)[k]
    ensures SubmittedTestOfRow(cells) ==
      SubmittedTest(Str(timestamp), Or(first.employeeId, Str("")), Or(first.employeeName, Str("")),
                    Or(first.employeePosition, Str("")), first.skill, first.level)
  {
  }
}
