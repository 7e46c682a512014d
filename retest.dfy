/** The retest page of src/components/AssignRetest.jsx: the submitted tests
    grouped by employee and by skill-and-level, the status of each of an
    employee's skills, and the action offered for it. The fetches are
    replaced by their results and the alerts by returned text. */
module Retest {
  import opened Wrappers
  import opened Js
  import opened Dict
  import Sheets
  import EmployeeModel
  import EntityRoutes

  /** `normalizeSkill`: a non-empty string trimmed and lower-cased; any other
      value unchanged. */
  function NormalizeSkill(v: JsVal): (r: JsVal)
    ensures !(v.Str? && v.s != "") ==> r == v
    ensures v.Str? && v.s != "" ==> r == Str(Sheets.Key(v.s))
  {
    if Truthy(v) && v.Str? then Str(Sheets.Key(v.s)) else v
  }

  /** Normalising twice is normalising once. */
  lemma NormalizeSkillIdempotent(v: JsVal)
    ensures NormalizeSkill(NormalizeSkill(v)) == NormalizeSkill(v)
  {
    if v.Str? && v.s != "" {
      var k := Sheets.Key(v.s);
      if k != "" {
        JsText.TrimLowerCommute(v.s);
        JsText.TrimIdempotent(JsText.ToLower(v.s));
        JsText.TrimLowerCommute(k);
        JsText.TrimIdempotent(JsText.Trim(JsText.ToLower(v.s)));
        JsText.LowerIdempotent(JsText.Trim(v.s));
        JsText.TrimIdempotent(v.s);
        assert JsText.Trim(k) == k;
        assert JsText.ToLower(k) == k;
      }
    }
  }

  /** A submission as the page reads it. */
  datatype RetestSub = RetestSub(employeeId: JsVal, skill: JsVal, level: JsVal, statusFlag: JsVal, status: JsVal)

  /** A record of the submitted-answers response seen by the page: the
      record has no `status_flag` and no `status`, so both are undefined. */
  function OfJoined(j: Sheets.JoinedSubmission): RetestSub {
    RetestSub(j.test.employeeId, j.test.skill, j.test.level, Undefined, Undefined)
  }

  /** `${normalizeSkill(skill)}-${level}`. */
  function SkillLevelKey(skill: JsVal, level: JsVal): string {
    ToStr(NormalizeSkill(skill)) + "-" + ToStr(level)
  }

  /** `sub.status_flag || sub.status || ''`. */
  function StatusFlag(sub: RetestSub): (r: JsVal)
    ensures Truthy(sub.statusFlag) ==> r == sub.statusFlag
    ensures !Truthy(sub.statusFlag) && Truthy(sub.status) ==> r == sub.status
    ensures !Truthy(sub.statusFlag) && !Truthy(sub.status) ==> r == Str("")
  {
    Or(Or(sub.statusFlag, sub.status), Str(""))
  }

  type ByEmp = map<string, map<string, JsVal>>

  /** One iteration of the `forEach`: a submission without an employee id
      is skipped; otherwise its status is written under the employee and
      the skill-level key, replacing what was there. */
  function Record(byEmp: ByEmp, sub: RetestSub): (r: ByEmp)
    ensures !Truthy(sub.employeeId) ==> r == byEmp
    ensures Truthy(sub.employeeId) ==> (ToStr(sub.employeeId) in r &&
      SkillLevelKey(sub.skill, sub.level) in r[ToStr(sub.employeeId)] &&
      r[ToStr(sub.employeeId)][SkillLevelKey(sub.skill, sub.level)] == StatusFlag(sub))
    ensures forall e :: e in byEmp ==> e in r
    ensures forall e, k :: e in byEmp && k in byEmp[e] && (e, k) != (ToStr(sub.employeeId), SkillLevelKey(sub.skill, sub.level)) ==>
      k in r[e] && r[e][k] == byEmp[e][k]
    ensures forall e :: e in r ==> e in byEmp || (Truthy(sub.employeeId) && e == ToStr(sub.employeeId))
  {
    if !Truthy(sub.employeeId) then byEmp
    else
      var key := ToStr(sub.employeeId);
      var inner := if key in byEmp then byEmp[key] else map[];
      byEmp[key := inner[SkillLevelKey(sub.skill, sub.level) := StatusFlag(sub)]]
  }

  /** `byEmp` after all the submissions, in order. */
  function ByEmpOf(subs: seq<RetestSub>): ByEmp {
    if subs == [] then map[] else Record(ByEmpOf(subs[..|subs| - 1]), subs[|subs| - 1])
  }

  /** An employee appears exactly when some submission carries that
      employee's id. */
  lemma {:induction false} ByEmpKeys(subs: seq<RetestSub>, e: string)
    ensures e in ByEmpOf(subs) <==> exists i :: 0 <= i < |subs| && Truthy(subs[i].employeeId) && ToStr(subs[i].employeeId) == e
  {
    if subs != [] {
      var init := subs[..|subs| - 1];
      ByEmpKeys(init, e);
      assert forall i :: 0 <= i < |init| ==> init[i] == subs[i];
    }
  }

  /** The status under a key is the one of the last submission with that
      employee and that skill-level key. */
  lemma {:induction false} LastSubmissionWins(subs: seq<RetestSub>, i: nat)
    requires i < |subs| && Truthy(subs[i].employeeId)
    requires forall j :: i < j < |subs| && Truthy(subs[j].employeeId) ==>
      (ToStr(subs[j].employeeId), SkillLevelKey(subs[j].skill, subs[j].level)) !=
      (ToStr(subs[i].employeeId), SkillLevelKey(subs[i].skill, subs[i].level))
    ensures ToStr(subs[i].employeeId) in ByEmpOf(subs)
    ensures SkillLevelKey(subs[i].skill, subs[i].level) in ByEmpOf(subs)[ToStr(subs[i].employeeId)]
    ensures ByEmpOf(subs)[ToStr(subs[i].employeeId)][SkillLevelKey(subs[i].skill, subs[i].level)] == StatusFlag(subs[i])
  {
    if i < |subs| - 1 {
      var init := subs[..|subs| - 1];
      assert forall j :: 0 <= j < |init| ==> init[j] == subs[j];
      LastSubmissionWins(init, i);
    }
  }

  /** Every recorded status is one of the submissions' status values. */
  lemma {:induction false} StatusComesFromASubmission(subs: seq<RetestSub>, e: string, k: string)
    requires e in ByEmpOf(subs) && k in ByEmpOf(subs)[e]
    ensures exists i :: 0 <= i < |subs| && ByEmpOf(subs)[e][k] == StatusFlag(subs[i])
  {
    var init := subs[..|subs| - 1];
    assert forall j :: 0 <= j < |init| ==> init[j] == subs[j];
    var last := subs[|subs| - 1];
    if Truthy(last.employeeId) && (e, k) == (ToStr(last.employeeId), SkillLevelKey(last.skill, last.level)) {
      assert ByEmpOf(subs)[e][k] == StatusFlag(subs[|subs| - 1]);
    } else {
      StatusComesFromASubmission(init, e, k);
      var i :| 0 <= i < |init| && ByEmpOf(init)[e][k] == StatusFlag(init[i]);
      assert ByEmpOf(subs)[e][k] == StatusFlag(subs[i]);
    }
  }

  /** The grouping loop, over `data.submissions || []`. */
  method GroupSubmissions(subs: Option<seq<RetestSub>>) returns (byEmp: ByEmp)
    ensures subs.None? ==> byEmp == map[]
    ensures subs.Some? ==> byEmp == ByEmpOf(subs.value)
  {
    byEmp := map[];
    var list := if subs.Some? then subs.value else [];
    var i := 0;
    while i < |list|
      invariant 0 <= i <= |list|
      invariant byEmp == ByEmpOf(list[..i])
    {
      assert list[..i + 1][..i] == list[..i];
      var sub := list[i];
      if Truthy(sub.employeeId) {
        var key := ToStr(sub.employeeId);
        if key !in byEmp {
          byEmp := byEmp[key := map[]];
        }
        var skillLevel := SkillLevelKey(sub.skill, sub.level);
        byEmp := byEmp[key := byEmp[key][skillLevel := StatusFlag(sub)]];
      }
      i := i + 1;
    }
    assert list[..|list|] == list;
  }

  // ------------------------------------------------------------ the actions

  /** What the page shows next to a skill. */
  datatype Action = AllowRetest | RetestAllowedLabel | AlreadyRetestedLabel | NotSubmitted

  /** The status-to-action chain; a missing status is `undefined`. */
  function ActionFor(status: Option<JsVal>): (a: Action)
    ensures a == AllowRetest <==> status == Some(Str("submitted"))
    ensures a == RetestAllowedLabel <==> status == Some(Str("retest_allowed"))
    ensures a == AlreadyRetestedLabel <==> status == Some(Str("retested"))
  {
    if status == Some(Str("submitted")) then AllowRetest
    else if status == Some(Str("retest_allowed")) then RetestAllowedLabel
    else if status == Some(Str("retested")) then AlreadyRetestedLabel
    else NotSubmitted
  }

  /** `submittedTests[empKey]?.[skillLevel]` for an employee's skill, whose
      key uses the skill's code when the skill table has one. */
  function StatusOfSkill(byEmp: ByEmp, empKey: string, nameToCode: Dict<JsVal>, s: EmployeeModel.SkillLevel): Option<JsVal> {
    var skillCode := Or(Field(nameToCode, s.skill), Str(s.skill));
    var k := SkillLevelKey(skillCode, Str(s.level));
    if empKey in byEmp && k in byEmp[empKey] then Some(byEmp[empKey][k]) else None
  }

  /** The submissions the page receives carry no status, so every recorded
      status is "" and no skill is ever offered a retest. */
  lemma JoinedNeverOfferRetest(joined: seq<Sheets.JoinedSubmission>, empKey: string, nameToCode: Dict<JsVal>,
                               s: EmployeeModel.SkillLevel)
    ensures ActionFor(StatusOfSkill(ByEmpOf(Joined(joined)), empKey, nameToCode, s)) == NotSubmitted
  {
    var subs := Joined(joined);
    var byEmp := ByEmpOf(subs);
    var st := StatusOfSkill(byEmp, empKey, nameToCode, s);
    if st.Some? {
      var k := SkillLevelKey(Or(Field(nameToCode, s.skill), Str(s.skill)), Str(s.level));
      StatusComesFromASubmission(subs, empKey, k);
      var i :| 0 <= i < |subs| && byEmp[empKey][k] == StatusFlag(subs[i]);
      assert st == Some(Str(""));
    }
  }

  function Joined(joined: seq<Sheets.JoinedSubmission>): (r: seq<RetestSub>)
    ensures |r| == |joined|
    ensures forall i :: 0 <= i < |r| ==> r[i] == OfJoined(joined[i]) && StatusFlag(r[i]) == Str("")
  {
    seq(|joined|, i requires 0 <= i < |joined| => OfJoined(joined[i]))
  }

  /** `handleReassign`: the request always fails, so the alert always
      reports the route's error and the table is not refetched. */
  method HandleReassign(employeeId: string, skill: string, level: string) returns (alertText: string)
    ensures alertText == "Error: " + EntityRoutes.RetestAllow(Str(employeeId), Str(skill), Str(level)).error.message
  {
    var res := EntityRoutes.RetestAllow(Str(employeeId), Str(skill), Str(level));
    if res.Err? {
      var message := res.error.message;
      alertText := "Error: " + (if message != "" then message else "Failed to allow retest");
      return;
    }
    alertText := "Retest allowed for Employee " + employeeId + ": " + skill + " (Level " + level + ")!";
  }

  /** The page's state: the grouped statuses. */
  class RetestPage {
    var submittedTests: ByEmp
    var loading: bool

    constructor()
      ensures submittedTests == map[] && loading
    {
      submittedTests, loading := map[], true;
    }

    /** The submissions response arrives: the statuses are replaced and
        loading ends. */
    method LoadSubmissions(subs: Option<seq<RetestSub>>)
      modifies this
      ensures subs.None? ==> submittedTests == map[]
      ensures subs.Some? ==> submittedTests == ByEmpOf(subs.value)
      ensures !loading
    {
      submittedTests := GroupSubmissions(subs);
      loading := false;
    }

    /** The action shown for each of an employee's skills, in order. */
    function SkillActions(empKey: string, nameToCode: Dict<JsVal>, skills: seq<EmployeeModel.SkillLevel>): (r: seq<Action>)
      reads this
      ensures |r| == |skills|
      ensures forall i :: 0 <= i < |skills| ==> r[i] == ActionFor(StatusOfSkill(submittedTests, empKey, nameToCode, skills[i]))
    {
      var byEmp := submittedTests;
      seq(|skills|, i requires 0 <= i < |skills| => ActionFor(StatusOfSkill(byEmp, empKey, nameToCode, skills[i])))
    }
  }
}
