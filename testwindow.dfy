/** The test page of src/components/TestWindow.jsx: the question request
    made for the chosen skill and level, the answers picked per question,
    and the `submissions` body its submit handler builds, with the guard
    against a second submit and the reset after a failed one, and the
    redirects on opening and on the back button. The skills and questions
    fetches are parameters; rendering and alerts are left out. */
module TestWindow {
  import opened Wrappers
  import opened Js
  import opened Dict
  import opened SkillNames
  import opened Sheets
  import McqRoutes

  /** The navigation state the page is opened with. */
  datatype NavState = NavState(
    skill: JsVal, level: JsVal, employeeInfo: Option<Dict<JsVal>>, employeeRoles: JsVal, employeeId: JsVal,
    fromDashboard: JsVal)

  // ------------------------------------------------------------- navigation

  /** The redirect effect on opening: home, unless the page was opened with
      a state marked as coming from the dashboard. */
  function RedirectOnOpen(state: Option<NavState>): (r: Option<string>)
    ensures r.None? <==> state.Some? && Truthy(state.value.fromDashboard)
    ensures r.Some? ==> r.value == "/"
  {
    if state.None? || !Truthy(state.value.fromDashboard) then Some("/") else None
  }

  /** The `popstate` handler: back to the login page when the page was
      opened from the dashboard, nowhere otherwise. */
  function RedirectOnBack(state: Option<NavState>): (r: Option<string>)
    ensures r.Some? <==> state.Some? && Truthy(state.value.fromDashboard)
    ensures r.Some? ==> r.value == "/login"
  {
    if state.Some? && Truthy(state.value.fromDashboard) then Some("/login") else None
  }

  /** Exactly one of the two redirects is armed: a page that stays open
      sends the back button to the login page, and a page that sends its
      visitor home has no back handler that fires. */
  lemma OneRedirectArmed(state: Option<NavState>)
    ensures RedirectOnOpen(state).Some? <==> RedirectOnBack(state).None?
  {
  }

  // --------------------------------------------------------- question request

  /** The request of the question effect: nothing until a skill, a level
      and the skill table are there; then the skill's code (or the skill
      itself) and the level. A skill that is not a string makes the
      normalisation throw, and no request is made. */
  function QuestionRequest(nav: NavState, nameToCode: Dict<JsVal>, skillsLoaded: bool): (r: Option<(JsVal, JsVal)>)
    ensures r.None? <==> !Truthy(nav.skill) || !nav.skill.Str? || !Truthy(nav.level) || !skillsLoaded
    ensures r.Some? ==> r.value.1 == nav.level && Truthy(r.value.0)
    ensures r.Some? && !HasKey(nameToCode, NormalizeSkillName(nav.skill.s)) ==> r.value.0 == nav.skill
    ensures r.Some? && Truthy(Field(nameToCode, NormalizeSkillName(nav.skill.s))) ==>
      r.value.0 == Field(nameToCode, NormalizeSkillName(nav.skill.s))
    ensures r.Some? ==> r.value.0 == SkillCodeFor(nameToCode, nav.skill.s)
  {
    if !Truthy(nav.skill) || !nav.skill.Str? || !Truthy(nav.level) || !skillsLoaded then None
    else Some((SkillCodeFor(nameToCode, nav.skill.s), nav.level))
  }

  // ------------------------------------------------------ submitter identity

  /** `employeeInfo?.k`. */
  function InfoField(info: Option<Dict<JsVal>>, k: string): JsVal {
    if info.Some? then Field(info.value, k) else Undefined
  }

  /** The employee id sent: the first truthy of the navigation id and three
      id fields of the employee info. */
  function EmployeeIdOf(nav: NavState): (r: JsVal)
    ensures r == Coalesce([nav.employeeId, InfoField(nav.employeeInfo, "id"),
                           InfoField(nav.employeeInfo, "employee_id"), InfoField(nav.employeeInfo, "emp_id")])
  {
    var info := nav.employeeInfo;
    OrChainIsCoalesce(nav.employeeId, InfoField(info, "id"), InfoField(info, "employee_id"), InfoField(info, "emp_id"));
    Or(Or(Or(nav.employeeId, InfoField(info, "id")), InfoField(info, "employee_id")), InfoField(info, "emp_id"))
  }

  /** The name sent: the first truthy of two name fields of the employee info. */
  function EmployeeNameOf(nav: NavState): (r: JsVal)
    ensures r == Coalesce([InfoField(nav.employeeInfo, "name"), InfoField(nav.employeeInfo, "employee_name")])
  {
    Or(InfoField(nav.employeeInfo, "name"), InfoField(nav.employeeInfo, "employee_name"))
  }

  /** The first role of the employee info, when it has roles. */
  function InfoRolesHead(info: Option<Dict<JsVal>>): JsVal {
    var roles := InfoField(info, "roles");
    if Truthy(roles) then Index(roles, 0).value else roles
  }

  /** The first navigation role, when the roles are an array. */
  function RolesHead(roles: JsVal): JsVal {
    if roles.Arr? then Index(roles, 0).value else Bool(false)
  }

  /** The position: the first of the employee's roles, then the first of
      the roles passed along, then `position`, then `role`. */
  function EmployeePositionOf(nav: NavState): (r: JsVal)
    ensures r == Coalesce([InfoRolesHead(nav.employeeInfo), RolesHead(nav.employeeRoles),
                           InfoField(nav.employeeInfo, "position"), InfoField(nav.employeeInfo, "role")])
  {
    var info := nav.employeeInfo;
    OrChainIsCoalesce(InfoRolesHead(info), RolesHead(nav.employeeRoles), InfoField(info, "position"), InfoField(info, "role"));
    Or(Or(Or(InfoRolesHead(info), RolesHead(nav.employeeRoles)), InfoField(info, "position")), InfoField(info, "role"))
  }

  /** An employee whose `roles` is a list starting with a non-empty role
      submits under that role, whatever else is passed along. */
  lemma FirstRoleIsPosition(nav: NavState, role: string, more: seq<JsVal>)
    requires nav.employeeInfo.Some? && role != ""
    requires Get(nav.employeeInfo.value, "roles") == Some(Arr([Str(role)] + more))
    ensures EmployeePositionOf(nav) == Str(role)
  {
    assert Field(nav.employeeInfo.value, "roles") == Arr([Str(role)] + more);
  }

  /** The identity every entry of one submission carries. */
  datatype Identity = Identity(employeeId: JsVal, employeeName: JsVal, employeePosition: JsVal)

  function IdentityOf(nav: NavState): Identity {
    Identity(EmployeeIdOf(nav), EmployeeNameOf(nav), EmployeePositionOf(nav))
  }

  // ------------------------------------------------------------ submissions

  /** `selectedAnswers[i]`: the option picked for question `i`, `undefined`
      when none was. */
  function SelectedOf(selected: map<nat, JsVal>, i: nat): JsVal {
    if i in selected then selected[i] else Undefined
  }

  /** Every question has at most 26 options, so each has a letter. */
  predicate LettersFit(questions: seq<PublicQuestion>) {
    forall i :: 0 <= i < |questions| ==> |questions[i].options| <= 26
  }

  /** The entry for one question: its id (a public question has no
      `question_id`, so a blank id stays `undefined`), text and options,
      the letter of the picked option, the question's skill or the page's,
      the level and the submitter. */
  function SubmissionFor(q: PublicQuestion, choice: JsVal, skill: JsVal, level: JsVal, who: Identity): (sub: Submission)
    requires |q.options| <= 26
    ensures HasOptions(sub) && sub.options == Arr(q.options)
    ensures sub.questionId == Or(q.id, Undefined) && sub.questionText == q.questionText
    ensures sub.selectedLetter.Str? && |sub.selectedLetter.s| <= 1
    ensures sub.selectedLetter.s != "" ==> OptionOfLetter(q.options, sub.selectedLetter.s) == Some(choice)
    ensures sub.selectedLetter.s == "" <==> forall j :: 0 <= j < |q.options| ==> !StrictEquals(q.options[j], choice)
    ensures sub.skill == Or(q.skillId, skill) && sub.level == level
    ensures sub.employeeId == who.employeeId && sub.employeeName == who.employeeName
    ensures sub.employeePosition == who.employeePosition
  {
    LetterRoundTrip(q.options, choice);
    Submission(Or(q.id, Undefined), q.questionText, Arr(q.options), Str(LetterFor(q.options, choice)),
               Or(q.skillId, skill), level, who.employeeId, who.employeeName, who.employeePosition)
  }

  /** `questions.map(...)`: one entry per question, in question order. */
  function Submissions(questions: seq<PublicQuestion>, selected: map<nat, JsVal>, skill: JsVal, level: JsVal,
                       who: Identity): (r: seq<Submission>)
    requires LettersFit(questions)
    ensures |r| == |questions|
    ensures forall i :: 0 <= i < |r| ==> r[i] == SubmissionFor(questions[i], SelectedOf(selected, i), skill, level, who)
  {
    seq(|questions|, i requires 0 <= i < |questions| =>
      SubmissionFor(questions[i], SelectedOf(selected, i), skill, level, who))
  }

  /** Every entry names the same level and submitter, and has options, so
      the submit route appends a row exactly when there is a question. */
  lemma {:induction false} SubmissionsShareIdentity(questions: seq<PublicQuestion>, selected: map<nat, JsVal>,
                                                    skill: JsVal, level: JsVal, who: Identity)
    requires LettersFit(questions)
    ensures var r := Submissions(questions, selected, skill, level, who);
      && (forall i :: 0 <= i < |r| ==>
            (r[i].level == level && r[i].employeeId == who.employeeId &&
             r[i].employeeName == who.employeeName && r[i].employeePosition == who.employeePosition))
      && (forall i :: 0 <= i < |r| ==> HasOptions(r[i]))
      && (r != [] <==> questions != [])
  {
    var r := Submissions(questions, selected, skill, level, who);
    forall i | 0 <= i < |r|
      ensures r[i].level == level && r[i].employeeId == who.employeeId
      ensures r[i].employeeName == who.employeeName && r[i].employeePosition == who.employeePosition
      ensures HasOptions(r[i])
    {
      assert r[i] == SubmissionFor(questions[i], SelectedOf(selected, i), skill, level, who);
    }
  }

  /** The page and the join of submitted answers (sheets.js) map a picked
      option to the same letter. */
  lemma PageAndJoinAgree(q: Question, choice: JsVal, skill: JsVal, level: JsVal, who: Identity)
    requires |q.options| <= 26 && Truthy(choice)
    ensures SubmissionFor(Strip(q), choice, skill, level, who).selectedLetter == Str(SubmittedLetter(Some(q), choice))
  {
  }

  /** Picking option `i` of a question whose options are different strings
      is graded correct exactly when the question's key is the `i`-th
      letter. */
  lemma {:induction false} PickedOptionGrading(bank: seq<Question>, q: PublicQuestion, i: nat, skill: JsVal,
                                               level: JsVal, who: Identity)
    requires |q.options| <= 26 && i < |q.options| && Truthy(q.id)
    requires forall j :: 0 <= j < |q.options| ==> q.options[j].Str?
    requires forall j, k :: 0 <= j < k < |q.options| ==> q.options[j] != q.options[k]
    requires FindQuestion(bank, q.id).Some? && FindQuestion(bank, q.id).value.correctOption.Str?
    ensures var sub := SubmissionFor(q, q.options[i], skill, level, who);
      ResultFor(bank, Answer(sub.questionId, sub.selectedLetter)).isCorrect <==>
        FindQuestion(bank, q.id).value.correctOption.s == [Letter(i)]
  {
    var sub := SubmissionFor(q, q.options[i], skill, level, who);
    LetterOfChosenOption(q.options, i);
    assert sub.questionId == q.id;
    assert sub.selectedLetter == Str([Letter(i)]);
    LetterAnswerGrading(bank, Answer(sub.questionId, sub.selectedLetter));
  }

  /** The unanswered case: nothing was picked, so the selection is
      `undefined`, and no option read back from JSON is `undefined`; the
      entry carries an empty letter, whatever the question's row held. */
  lemma UnansweredGetsNoLetter(q: PublicQuestion, skill: JsVal, level: JsVal, who: Identity)
    requires |q.options| <= 26
    ensures SubmissionFor(QuestionOverJson(q), Undefined, skill, level, who).selectedLetter == Str("")
  {
    var p := QuestionOverJson(q);
    forall j | 0 <= j < |p.options| ensures !StrictEquals(p.options[j], Undefined) {
      assert !p.options[j].Undefined?;
    }
  }

  /** The questions of a response, each read back from JSON. */
  function JsonQuestions(qs: seq<PublicQuestion>): (r: seq<PublicQuestion>)
    ensures |r| == |qs|
    ensures forall i :: 0 <= i < |qs| ==> r[i] == QuestionOverJson(qs[i])
  {
    seq(|qs|, i requires 0 <= i < |qs| => QuestionOverJson(qs[i]))
  }

  // ---------------------------------------------------------------- the page

  /** The submit route's answer as the page reads it: `data.success`, or a
      request that failed outright. */
  datatype SubmitOutcome = Answered(success: bool) | NetworkError

  class TestWindowPage {
    var nav: NavState
    var questions: seq<PublicQuestion>
    var loading: bool
    var selectedAnswers: map<nat, JsVal>
    var submitted: bool

    constructor(nav: NavState)
      ensures this.nav == nav && questions == [] && loading && selectedAnswers == map[] && !submitted
    {
      this.nav := nav;
      questions, loading, selectedAnswers, submitted := [], true, map[], false;
    }

    /** The questions response arrives (`data.questions || []`), read back
        from the JSON the route sent, or the request fails and only
        `loading` ends. */
    method ReceiveQuestions(response: Option<Option<seq<PublicQuestion>>>)
      modifies this
      ensures response.Some? && response.value.Some? ==>
        |questions| == |response.value.value| &&
        forall i :: 0 <= i < |questions| ==> questions[i] == QuestionOverJson(response.value.value[i])
      ensures response.Some? && response.value.None? ==> questions == []
      ensures response.None? ==> questions == old(questions)
      ensures !loading && nav == old(nav) && selectedAnswers == old(selectedAnswers) && submitted == old(submitted)
    {
      if response.Some? {
        questions := if response.value.Some? then JsonQuestions(response.value.value) else [];
      }
      loading := false;
    }

    /** `handleOptionChange`: question `qIdx` gets `option`; every other
        question keeps its answer. */
    method HandleOptionChange(qIdx: nat, option: JsVal)
      modifies this
      ensures SelectedOf(selectedAnswers, qIdx) == option
      ensures forall j :: j != qIdx ==> SelectedOf(selectedAnswers, j) == SelectedOf(old(selectedAnswers), j)
      ensures selectedAnswers == old(selectedAnswers)[qIdx := option]
      ensures nav == old(nav) && questions == old(questions) && loading == old(loading) && submitted == old(submitted)
    {
      selectedAnswers := selectedAnswers[qIdx := option];
    }

    /** `handleSubmit` up to the request: a submit while one is pending or
        the questions are loading sends nothing and changes nothing;
        otherwise the button is disabled and the entries are sent. */
    method HandleSubmit() returns (sent: Option<seq<Submission>>)
      requires LettersFit(questions)
      modifies this
      ensures nav == old(nav) && questions == old(questions) && loading == old(loading)
      ensures selectedAnswers == old(selectedAnswers)
      ensures old(submitted) || old(loading) ==> sent.None? && submitted == old(submitted)
      ensures !old(submitted) && !old(loading) ==>
        sent == Some(Submissions(questions, selectedAnswers, nav.skill, nav.level, IdentityOf(nav))) && submitted
    {
      if submitted || loading {
        return None;
      }
      var entries := Submissions(questions, selectedAnswers, nav.skill, nav.level, IdentityOf(nav));
      submitted := true;
      sent := Some(entries);
    }

    /** The response is handled: on success the page leaves for the
        dashboard with the test just taken; on a failure or a network
        error the button is enabled again for a retry. */
    method HandleOutcome(outcome: SubmitOutcome) returns (submittedTest: Option<(JsVal, JsVal)>)
      modifies this
      ensures outcome == Answered(true) <==> submittedTest.Some?
      ensures submittedTest.Some? ==> submittedTest.value == (nav.skill, nav.level) && submitted == old(submitted)
      ensures submittedTest.None? ==> !submitted
      ensures nav == old(nav) && questions == old(questions) && loading == old(loading)
      ensures selectedAnswers == old(selectedAnswers)
    {
      if outcome == Answered(true) {
        return Some((nav.skill, nav.level));
      }
      submitted := false;
      submittedTest := None;
    }

    /** One submit against the submit route as written: the route answers
        500 to every request, so the page never moves on and the button is
        always enabled again. */
    method SubmitToRoute(questionRows: seq<seq<string>>, timestamp: string) returns (submittedTest: Option<(JsVal, JsVal)>)
      requires LettersFit(questions)
      modifies this
      ensures submittedTest.None?
      ensures !old(submitted) && !old(loading) ==> !submitted
      ensures old(submitted) || old(loading) ==> submitted == old(submitted)
      ensures nav == old(nav) && questions == old(questions) && selectedAnswers == old(selectedAnswers)
    {
      var sent := HandleSubmit();
      if sent.None? {
        return None;
      }
      var appended, response := McqRoutes.SubmitAnswers(questionRows, sent.value, timestamp);
      var outcome := Answered(response == Ok(true));
      submittedTest := HandleOutcome(outcome);
    }

    /** One submit against the corrected route: the page moves on, with the
        test just taken, exactly when there are questions. */
    method SubmitToFixedRoute(questionRows: seq<seq<string>>, timestamp: string)
      returns (submittedTest: Option<(JsVal, JsVal)>)
      requires LettersFit(questions)
      modifies this
      ensures !old(submitted) && !old(loading) ==>
        (submittedTest.Some? <==> old(questions) != []) &&
        (submittedTest.Some? ==> submittedTest.value == (nav.skill, nav.level) && submitted) &&
        (submittedTest.None? ==> !submitted)
      ensures old(submitted) || old(loading) ==> submittedTest.None? && submitted == old(submitted)
      ensures nav == old(nav) && questions == old(questions) && selectedAnswers == old(selectedAnswers)
    {
      var sent := HandleSubmit();
      if sent.None? {
        return None;
      }
      SubmissionsShareIdentity(questions, selectedAnswers, nav.skill, nav.level, IdentityOf(nav));
      var appended, logged, response := McqRoutes.SubmitAnswersFixed(questionRows, sent.value, timestamp);
      var outcome := Answered(response == Ok(true));
      submittedTest := HandleOutcome(outcome);
    }
  }
}
