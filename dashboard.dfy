/** The employee dashboard of src/components/EmployeeDashboard.jsx: the set
    of tests the employee has already submitted, the skills required for the
    selected role, the superuser check, the per-button click counter and the
    rule that disables a test button. The fetches and navigation are left
    out; their results are parameters. */
module Dashboard {
  import opened Wrappers
  import opened Lists
  import opened JsText
  import opened Js
  import opened Dict
  import Sheets
  import TestWindow

  // ---------------------------------------------------------- submitted keys

  /** The filter on the fetched submissions: the id matches and is truthy, or
      the name matches and is truthy. */
  predicate IsOwn(sub: Sheets.SubmittedTest, empId: JsVal, empName: JsVal) {
    (Truthy(sub.employeeId) && StrictEquals(sub.employeeId, empId)) ||
    (Truthy(sub.employeeName) && StrictEquals(sub.employeeName, empName))
  }

  /** A submission names a test when it has both a skill and a level. */
  predicate NamesTest(sub: Sheets.SubmittedTest) {
    Truthy(sub.skill) && Truthy(sub.level)
  }

  /** A submission of this employee naming a test gives the key `x`. */
  predicate Gives(sub: Sheets.SubmittedTest, empId: JsVal, empName: JsVal, x: string) {
    IsOwn(sub, empId, empName) && NamesTest(sub) && x == TestKey(sub.skill, sub.level)
  }

  /** `${skill}-${level}`. */
  function TestKey(skill: JsVal, level: JsVal): string {
    ToStr(skill) + "-" + ToStr(level)
  }

  /** The `filter`/`map`/`filter(Boolean)` pipeline, before the `Set`. */
  function OwnKeys(subs: seq<Sheets.JoinedSubmission>, empId: JsVal, empName: JsVal): (r: seq<string>)
    ensures forall x :: x in r <==> exists i :: 0 <= i < |subs| && Gives(subs[i].test, empId, empName, x)
  {
    if subs == [] then []
    else
      var rest := OwnKeys(subs[1..], empId, empName);
      assert forall i :: 1 <= i < |subs| ==> subs[1..][i - 1] == subs[i];
      var t := subs[0].test;
      if IsOwn(t, empId, empName) && NamesTest(t) then [TestKey(t.skill, t.level)] + rest else rest
  }

  /** The submitted keys: distinct, each from a submission of this employee
      naming both a skill and a level, and every such submission gives one. */
  function SubmittedKeys(subs: seq<Sheets.JoinedSubmission>, empId: JsVal, empName: JsVal): (r: seq<string>)
    ensures forall i, j :: 0 <= i < j < |r| ==> r[i] != r[j]
    ensures forall x :: x in r <==> exists i :: 0 <= i < |subs| && Gives(subs[i].test, empId, empName, x)
  {
    Distinct(OwnKeys(subs, empId, empName))
  }

  /** Another employee's submissions never add a key. */
  lemma OtherEmployeesIgnored(subs: seq<Sheets.JoinedSubmission>, other: Sheets.JoinedSubmission, empId: JsVal, empName: JsVal)
    requires !IsOwn(other.test, empId, empName)
    ensures forall x :: x in SubmittedKeys(subs + [other], empId, empName) <==> x in SubmittedKeys(subs, empId, empName)
  {
    var s := subs + [other];
    forall x | x in SubmittedKeys(s, empId, empName)
      ensures x in SubmittedKeys(subs, empId, empName)
    {
      var i :| 0 <= i < |s| && Gives(s[i].test, empId, empName, x);
      assert i < |subs| && s[i] == subs[i];
    }
    forall x | x in SubmittedKeys(subs, empId, empName)
      ensures x in SubmittedKeys(s, empId, empName)
    {
      var i :| 0 <= i < |subs| && Gives(subs[i].test, empId, empName, x);
      assert s[i] == subs[i];
    }
  }

  // --------------------------------------------------------- skill codes

  /** `skillNameToCode`: the fixed name-to-code table of the dashboard. */
  const SkillNameToCode: Dict<string> := [
    ("5S", "sk01"), ("Safety", "sk02"), ("Basics of Electronics", "sk03"),
    ("Basics of Quality", "sk04"), ("SMT Electronics Assembly", "sk05"),
    ("Manual Electronics Assembly", "sk06"), ("Mechanical Assembly", "sk07"),
    ("Testing - Electrical/ Electronic Parts", "sk08"), ("Testing - PCBA", "sk09"),
    ("Dimensional inspection (gauges)", "sk10"), ("Dimensional inspection (instruments)", "sk11"),
    ("Laser Printing", "sk12"), ("Wire Cutting-Stripping", "sk13"), ("Wire Crimping", "sk14"),
    ("Packing", "sk15"), ("Leadership & Team Management", "sk16"),
    ("Communication & Interpersonal Skill", "sk17"), ("Problem Solving & Critical Thinking", "sk18"),
    ("Planning & Time Management", "sk19"), ("IATF 16949/ISO 9001:2015 QMS Awareness", "sk20"),
    ("Material Planning & Inventory Control", "sk21"), ("Supply Chain Management", "sk22"),
    ("Data Analytics and Reporting", "sk23"), ("MS Excel", "sk24"), ("SPC", "sk25"), ("MSA", "sk26"),
    ("4M Change", "sk27"), ("FMEA", "sk28"), ("Abnormality Handling", "sk29"), ("PPAP & APQP", "sk30"),
    ("Kaizen", "sk31"), ("Poka Yoke", "sk32"), ("7 QC Tools", "sk33"),
    ("Compliance & Ethical Responsibility", "sk34"), ("Internal Auditor Certification*", "sk35"),
    ("FIFO", "sk36")
  ]

  /** Every code of the table is "sk" and two digits, so none is empty and
      the `|| skill` fallback never replaces a known code. */
  lemma CodesAreNonEmpty()
    ensures forall i :: 0 <= i < |SkillNameToCode| ==>
      |SkillNameToCode[i].1| == 4 && SkillNameToCode[i].1[..2] == "sk"
  {
  }

  /** `skillNameToCode[skill] || skill`: a known name gives its code, any
      other value is kept. */
  function CodeOrName(skill: JsVal): (r: JsVal)
    ensures Get(SkillNameToCode, ToStr(skill)).None? ==> r == skill
    ensures Get(SkillNameToCode, ToStr(skill)).Some? ==> r == Str(Get(SkillNameToCode, ToStr(skill)).value)
  {
    CodesAreNonEmpty();
    var c := Get(SkillNameToCode, ToStr(skill));
    if c.Some? && c.value != "" then Str(c.value) else skill
  }

  /** An entry of `employeeSkills` or `filteredSkills`. */
  datatype SkillEntry = SkillEntry(skill: JsVal, level: JsVal)

  /** The button's `disabled`: `(code or name)-String(level)` is among the
      submitted keys. */
  predicate ButtonDisabled(submitted: seq<string>, s: SkillEntry) {
    TestKey(CodeOrName(s.skill), s.level) in submitted
  }

  /** A submission of this employee recorded under the entry's code (or its
      name when it has no code) and level disables that entry's button. */
  lemma SubmittedDisablesButton(subs: seq<Sheets.JoinedSubmission>, empId: JsVal, empName: JsVal, i: nat, s: SkillEntry)
    requires i < |subs| && IsOwn(subs[i].test, empId, empName) && NamesTest(subs[i].test)
    requires ToStr(subs[i].test.skill) == ToStr(CodeOrName(s.skill)) && ToStr(subs[i].test.level) == ToStr(s.level)
    ensures ButtonDisabled(SubmittedKeys(subs, empId, empName), s)
  {
  }

  /** A skill with a code is disabled only by a submission under the code;
      one under the plain name does not count. */
  lemma NameSubmissionDoesNotDisable(submitted: seq<string>)
    requires submitted == ["Safety-2"]
    ensures !ButtonDisabled(submitted, SkillEntry(Str("Safety"), Str("2")))
    ensures ButtonDisabled(["sk02-2"], SkillEntry(Str("Safety"), Str("2")))
  {
    assert SkillNameToCode[1] == ("Safety", "sk02");
    assert SkillNameToCode[0].0 != "Safety";
    assert Get(SkillNameToCode, "Safety") == Some("sk02");
    assert TestKey(Str("sk02"), Str("2")) == "sk02-2";
    assert "sk02-2" != "Safety-2";
  }

  // ------------------------------------------------------- filtered skills

  /** `competencyMap` as the dashboard reads it: a table with `data` rows and
      `headers`, or any other value (such as the plain array of competency
      maps), for which the role filter is skipped. */
  datatype CompetencyTable = Table(data: seq<Dict<JsVal>>, headers: seq<string>) | Other

  /** A table row is the selected role's when its `Role` is truthy and equals
      the selection once both are trimmed and lower-cased. */
  predicate RoleRowMatches(row: Dict<JsVal>, selectedRole: string) {
    var role := Field(row, "Role");
    Truthy(role) && role.Str? && Sheets.Key(role.s) == Sheets.Key(selectedRole)
  }

  /** Row `i` is the earliest row of the table naming the role. */
  predicate IsFirstRoleRow(data: seq<Dict<JsVal>>, selectedRole: string, i: int) {
    && 0 <= i < |data|
    && RoleRowMatches(data[i], selectedRole)
    && forall j :: 0 <= j < i ==> !RoleRowMatches(data[j], selectedRole)
  }

  /** `competencyMap.data.find(...)`. */
  function FindRoleRow(data: seq<Dict<JsVal>>, selectedRole: string): (r: Option<Dict<JsVal>>)
    ensures r.None? <==> forall i :: 0 <= i < |data| ==> !RoleRowMatches(data[i], selectedRole)
    ensures r.Some? ==> r.value in data && RoleRowMatches(r.value, selectedRole)
    ensures r.Some? ==> exists i :: IsFirstRoleRow(data, selectedRole, i) && r.value == data[i]
  {
    var i := FirstWhere(data, row => RoleRowMatches(row, selectedRole));
    if i.Some? then
      assert IsFirstRoleRow(data, selectedRole, i.value);
      Some(data[i.value])
    else None
  }

  /** A header names a required skill: not "Role", and the row holds a
      truthy numeric value under it. */
  predicate Required(row: Dict<JsVal>, h: string) {
    h != "Role" && Truthy(Field(row, h)) && ToNumber(Field(row, h)).Int?
  }

  function RequiredSkills(headers: seq<string>, row: Dict<JsVal>): (r: seq<string>)
    ensures forall h :: h in r <==> h in headers && Required(row, h)
    ensures |r| <= |headers|
  {
    if headers == [] then []
    else
      var rest := RequiredSkills(headers[1..], row);
      assert forall h :: h in headers <==> h == headers[0] || h in headers[1..];
      if Required(row, headers[0]) then [headers[0]] + rest else rest
  }

  /** The employee's entries whose skill is one of the required ones, in order. */
  function EntriesFor(skills: seq<SkillEntry>, required: seq<string>): (r: seq<SkillEntry>)
    ensures forall s :: s in r <==> s in skills && s.skill.Str? && s.skill.s in required
    ensures |r| <= |skills|
  {
    if skills == [] then []
    else
      var rest := EntriesFor(skills[1..], required);
      assert forall s :: s in skills <==> s == skills[0] || s in skills[1..];
      if skills[0].skill.Str? && skills[0].skill.s in required then [skills[0]] + rest else rest
  }

  /** The entries keep the employee's order: the entries of two runs of
      skills are those of the first run, then those of the second. */
  lemma {:induction false} EntriesForAppend(a: seq<SkillEntry>, b: seq<SkillEntry>, required: seq<string>)
    ensures EntriesFor(a + b, required) == EntriesFor(a, required) + EntriesFor(b, required)
  {
    if a == [] {
      assert a + b == b;
    } else {
      assert (a + b)[1..] == a[1..] + b;
      EntriesForAppend(a[1..], b, required);
    }
  }

  /** Some entry names the skill. */
  predicate Covered(entries: seq<SkillEntry>, skill: string) {
    exists i :: 0 <= i < |entries| && entries[i].skill == Str(skill)
  }

  /** The entries the page adds: the required skills that have no entry,
      each at the row's level. */
  function MissingEntries(required: seq<string>, entries: seq<SkillEntry>, row: Dict<JsVal>): (r: seq<SkillEntry>)
    ensures forall s :: s in r <==> exists h :: h in required && !Covered(entries, h) && s == SkillEntry(Str(h), Field(row, h))
  {
    if required == [] then []
    else
      var rest := MissingEntries(required[1..], entries, row);
      assert forall h :: h in required <==> h == required[0] || h in required[1..];
      if !Covered(entries, required[0]) then [SkillEntry(Str(required[0]), Field(row, required[0]))] + rest else rest
  }

  /** The role branch as written: the missing skills are added only when the
      filtered list is shorter than the required list. Whatever it shows is
      a required skill; it shows every required skill when the filtered list
      is short, and otherwise only the employee's own required entries. */
  function RoleSkills(skills: seq<SkillEntry>, headers: seq<string>, row: Dict<JsVal>): (r: seq<SkillEntry>)
    ensures forall h :: Covered(r, h) ==> h in RequiredSkills(headers, row)
    ensures forall s :: s in r ==> ((s in skills && s.skill.Str? && s.skill.s in RequiredSkills(headers, row)) ||
      exists h :: h in RequiredSkills(headers, row) && s == SkillEntry(Str(h), Field(row, h)))
    ensures |EntriesFor(skills, RequiredSkills(headers, row))| < |RequiredSkills(headers, row)| ==>
      forall h :: Covered(r, h) <==> h in RequiredSkills(headers, row)
    ensures |EntriesFor(skills, RequiredSkills(headers, row))| >= |RequiredSkills(headers, row)| ==>
      forall s :: s in r <==> s in skills && s.skill.Str? && s.skill.s in RequiredSkills(headers, row)
  {
    var required := RequiredSkills(headers, row);
    var filtered := EntriesFor(skills, required);
    if |filtered| < |required| then
      var r := filtered + MissingEntries(required, filtered, row);
      assert r == RoleSkillsFixed(skills, headers, row);
      r
    else
      forall h | Covered(filtered, h) ensures h in required {
        var i :| 0 <= i < |filtered| && filtered[i].skill == Str(h);
        assert filtered[i] in filtered;
      }
      filtered
  }

  /** The role branch with the missing skills always added, after the
      employee's own required entries. */
  function RoleSkillsFixed(skills: seq<SkillEntry>, headers: seq<string>, row: Dict<JsVal>): (r: seq<SkillEntry>)
    ensures |EntriesFor(skills, RequiredSkills(headers, row))| <= |r|
    ensures r[..|EntriesFor(skills, RequiredSkills(headers, row))|] == EntriesFor(skills, RequiredSkills(headers, row))
    ensures forall h :: Covered(r, h) <==> h in RequiredSkills(headers, row)
    ensures forall s :: s in r ==> ((s in skills && s.skill.Str? && s.skill.s in RequiredSkills(headers, row)) ||
      exists h :: h in RequiredSkills(headers, row) && s == SkillEntry(Str(h), Field(row, h)))
  {
    var required := RequiredSkills(headers, row);
    var filtered := EntriesFor(skills, required);
    var missing := MissingEntries(required, filtered, row);
    var r := filtered + missing;
    forall h ensures Covered(r, h) <==> h in required {
      if Covered(r, h) {
        var i :| 0 <= i < |r| && r[i].skill == Str(h);
        if i < |filtered| {
          assert r[i] in filtered;
        } else {
          assert r[i] in missing;
        }
      }
      if h in required {
        if Covered(filtered, h) {
          var i :| 0 <= i < |filtered| && filtered[i].skill == Str(h);
          assert r[i] == filtered[i];
        } else {
          assert SkillEntry(Str(h), Field(row, h)) in missing;
          var k :| 0 <= k < |missing| && missing[k] == SkillEntry(Str(h), Field(row, h));
          assert r[|filtered| + k] == missing[k];
        }
      }
    }
    forall s | s in r
      ensures (s in skills && s.skill.Str? && s.skill.s in required) ||
        exists h :: h in required && s == SkillEntry(Str(h), Field(row, h))
    {
      if s !in filtered {
        assert s in missing;
      }
    }
    r
  }

  /** The two agree whenever the filtered list is short, which is always the
      case when some required skill has no entry and the employee's entries
      are for distinct skills. */
  lemma RoleSkillsAgreeWhenShort(skills: seq<SkillEntry>, headers: seq<string>, row: Dict<JsVal>)
    requires |EntriesFor(skills, RequiredSkills(headers, row))| < |RequiredSkills(headers, row)|
    ensures RoleSkills(skills, headers, row) == RoleSkillsFixed(skills, headers, row)
  {
  }

  /** The example competency row used below: role "Op" requiring "A" at
      level 2 and "B" at level 3. */
  const ExampleRow: Dict<JsVal> := [("Role", Str("Op")), ("A", Num(2)), ("B", Num(3))]

  lemma ExampleRequired()
    ensures RequiredSkills(["Role", "A", "B"], ExampleRow) == ["A", "B"]
  {
    var row := ExampleRow;
    assert DistinctKeys(row);
    assert row[1] == ("A", Num(2)) && row[2] == ("B", Num(3));
    assert Field(row, "A") == Num(2);
    assert Field(row, "B") == Num(3);
    assert Required(row, "A") && Required(row, "B");
    assert RequiredSkills(["B"], row) == ["B"];
    assert ["A", "B"][1..] == ["B"];
    assert RequiredSkills(["A", "B"], row) == ["A", "B"];
    assert ["Role", "A", "B"][1..] == ["A", "B"];
  }

  /** As written, two entries for one skill hide a required skill that has
      no entry: with "A" and "B" required and two entries for "A", "B" is
      never listed; the corrected branch lists it. */
  lemma DuplicateEntryHidesMissingSkill()
    ensures !Covered(RoleSkills([SkillEntry(Str("A"), Str("2")), SkillEntry(Str("A"), Str("3"))], ["Role", "A", "B"], ExampleRow), "B")
    ensures Covered(RoleSkillsFixed([SkillEntry(Str("A"), Str("2")), SkillEntry(Str("A"), Str("3"))], ["Role", "A", "B"], ExampleRow), "B")
  {
    var skills := [SkillEntry(Str("A"), Str("2")), SkillEntry(Str("A"), Str("3"))];
    ExampleRequired();
    var required := ["A", "B"];
    assert EntriesFor(skills[1..], required) == skills[1..];
    assert EntriesFor(skills, required) == skills;
    assert RoleSkills(skills, ["Role", "A", "B"], ExampleRow) == skills;
  }

  /** `filteredSkills` as written: the employee's skills unless a role is
      selected and the competency table has rows and headers; then the role
      branch as written, or nothing when no row names the role. */
  function FilteredSkills(skills: seq<SkillEntry>, selectedRole: string, competencyMap: Option<CompetencyTable>): (r: seq<SkillEntry>)
    ensures (selectedRole == "" || competencyMap.None? || competencyMap.value.Other?) ==> r == skills
    ensures (selectedRole != "" && competencyMap.Some? && competencyMap.value.Table? &&
      FindRoleRow(competencyMap.value.data, selectedRole).None?) ==> r == []
  {
    if selectedRole == "" || competencyMap.None? || competencyMap.value.Other? then skills
    else
      var row := FindRoleRow(competencyMap.value.data, selectedRole);
      if row.None? then []
      else RoleSkills(skills, competencyMap.value.headers, row.value)
  }

  /** As written, with a role row found, only required skills are listed,
      and all of them when the employee has fewer required entries than
      there are required skills. */
  lemma FilteredSkillsShowRequired(skills: seq<SkillEntry>, selectedRole: string, data: seq<Dict<JsVal>>, headers: seq<string>, i: nat)
    requires selectedRole != "" && IsFirstRoleRow(data, selectedRole, i)
    ensures forall h :: Covered(FilteredSkills(skills, selectedRole, Some(Table(data, headers))), h) ==>
      h in RequiredSkills(headers, data[i])
    ensures |EntriesFor(skills, RequiredSkills(headers, data[i]))| < |RequiredSkills(headers, data[i])| ==>
      forall h :: Covered(FilteredSkills(skills, selectedRole, Some(Table(data, headers))), h) <==>
        h in RequiredSkills(headers, data[i])
  {
    FirstWhereIs(data, row => RoleRowMatches(row, selectedRole), i);
  }

  /** `filteredSkills` with the corrected role branch. */
  function FilteredSkillsFixed(skills: seq<SkillEntry>, selectedRole: string, competencyMap: Option<CompetencyTable>): (r: seq<SkillEntry>)
    ensures (selectedRole == "" || competencyMap.None? || competencyMap.value.Other?) ==> r == skills
    ensures (selectedRole != "" && competencyMap.Some? && competencyMap.value.Table? &&
      FindRoleRow(competencyMap.value.data, selectedRole).None?) ==> r == []
  {
    if selectedRole == "" || competencyMap.None? || competencyMap.value.Other? then skills
    else
      var row := FindRoleRow(competencyMap.value.data, selectedRole);
      if row.None? then []
      else RoleSkillsFixed(skills, competencyMap.value.headers, row.value)
  }

  /** With the corrected branch and a role row found, the listed skills are
      exactly the row's required skills. */
  lemma FilteredSkillsAreRequired(skills: seq<SkillEntry>, selectedRole: string, data: seq<Dict<JsVal>>, headers: seq<string>, i: nat)
    requires selectedRole != "" && IsFirstRoleRow(data, selectedRole, i)
    ensures forall h :: Covered(FilteredSkillsFixed(skills, selectedRole, Some(Table(data, headers))), h) <==>
      h in RequiredSkills(headers, data[i])
  {
    FirstWhereIs(data, row => RoleRowMatches(row, selectedRole), i);
  }

  /** The role name is matched ignoring case and surrounding spaces. */
  lemma RoleMatchIgnoresCase(row: Dict<JsVal>, selectedRole: string)
    ensures RoleRowMatches(row, selectedRole) <==> RoleRowMatches(row, Sheets.Key(selectedRole))
  {
    TrimLowerCommute(selectedRole);
    TrimIdempotent(ToLower(selectedRole));
    LowerIdempotent(Trim(selectedRole));
  }

  // --------------------------------------------------------------- superuser

  /** `s.includes(t)`. */
  predicate Includes(s: string, t: string) {
    exists i :: 0 <= i <= |s| - |t| && At(s, t, i)
  }

  /** `t` occurs in `s` at position `i`. */
  predicate At(s: string, t: string, i: int) {
    0 <= i <= |s| - |t| && s[i..i + |t|] == t
  }

  /** The role, lower-cased, contains "ceo", "director" or "hr". */
  predicate SuperRole(role: string) {
    Includes(ToLower(role), "ceo") || Includes(ToLower(role), "director") || Includes(ToLower(role), "hr")
  }

  /** `isSuperUser`: some role, lower-cased, contains "ceo", "director" or
      "hr". */
  function IsSuperUser(roles: seq<string>): (r: bool)
    ensures r <==> exists i :: 0 <= i < |roles| && SuperRole(roles[i])
  {
    if roles == [] then false
    else
      assert forall i :: 1 <= i < |roles| ==> roles[1..][i - 1] == roles[i];
      SuperRole(roles[0]) || IsSuperUser(roles[1..])
  }

  /** The check ignores letter case: "HR Manager" and "Plant Director" are
      superusers. */
  lemma SuperUserExamples()
    ensures IsSuperUser(["HR Manager"])
    ensures IsSuperUser(["Plant Director"])
  {
    assert At(ToLower("HR Manager"), "hr", 0);
    assert At(ToLower("Plant Director"), "director", 6);
  }

  /** The check is a substring test, so "hr" inside a longer word also
      counts: "Synchronous Line Operator" is a superuser. */
  lemma SuperUserBySubstring()
    ensures IsSuperUser(["Synchronous Line Operator"])
  {
    var low := ToLower("Synchronous Line Operator");
    assert low[4] == 'h' && low[5] == 'r';
    assert low[4..6] == "hr";
    assert At(low, "hr", 4);
  }

  /** Adding roles never takes superuser rights away. */
  lemma SuperUserMonotonic(roles: seq<string>, more: seq<string>)
    requires IsSuperUser(roles)
    ensures IsSuperUser(roles + more)
  {
    var i :| 0 <= i < |roles| && SuperRole(roles[i]);
    assert (roles + more)[i] == roles[i];
  }

  // ------------------------------------------------------- the test page

  /** The navigation state a test button hands to the test page: the
      button's skill and level and the employee's data, and no mark that it
      comes from the dashboard, so the test page's redirect sends the
      visitor home. */
  function TestNav(skill: JsVal, level: JsVal, employeeInfo: Option<Dict<JsVal>>, employeeRoles: JsVal,
                   employeeId: JsVal): (nav: TestWindow.NavState)
    ensures nav.skill == skill && nav.level == level && nav.employeeInfo == employeeInfo
    ensures nav.employeeRoles == employeeRoles && nav.employeeId == employeeId
    ensures TestWindow.RedirectOnOpen(Some(nav)) == Some("/")
    ensures TestWindow.RedirectOnBack(Some(nav)).None?
  {
    TestWindow.NavState(skill, level, employeeInfo, employeeRoles, employeeId, Undefined)
  }

  /** The same state marked as coming from the dashboard: the test page
      stays open and the back button leads to the login page. */
  function TestNavFixed(skill: JsVal, level: JsVal, employeeInfo: Option<Dict<JsVal>>, employeeRoles: JsVal,
                        employeeId: JsVal): (nav: TestWindow.NavState)
    ensures nav.skill == skill && nav.level == level && nav.employeeInfo == employeeInfo
    ensures nav.employeeRoles == employeeRoles && nav.employeeId == employeeId
    ensures TestWindow.RedirectOnOpen(Some(nav)).None?
    ensures TestWindow.RedirectOnBack(Some(nav)) == Some("/login")
  {
    TestWindow.NavState(skill, level, employeeInfo, employeeRoles, employeeId, Bool(true))
  }

  // ------------------------------------------------------- dashboard state

  class DashboardState {
    var submittedTests: seq<string>
    /** `testClickCounts`: clicks per button index. */
    var testClickCounts: map<nat, nat>

    constructor()
      ensures submittedTests == [] && testClickCounts == map[]
    {
      submittedTests, testClickCounts := [], map[];
    }

    /** A test just submitted, passed back by the test page, is appended. */
    method NoteSubmittedTest(skill: JsVal, level: JsVal)
      modifies this
      ensures submittedTests == old(submittedTests) + [TestKey(skill, level)]
      ensures testClickCounts == old(testClickCounts)
    {
      submittedTests := submittedTests + [TestKey(skill, level)];
    }

    /** The submissions response arrives: nothing happens without an id or
      a name; otherwise the submitted keys are replaced. */
    method LoadSubmissions(employeeId: JsVal, employeeName: JsVal, subs: seq<Sheets.JoinedSubmission>)
      modifies this
      ensures !Truthy(employeeId) && !Truthy(employeeName) ==> submittedTests == old(submittedTests)
      ensures Truthy(employeeId) || Truthy(employeeName) ==> submittedTests == SubmittedKeys(subs, employeeId, employeeName)
      ensures testClickCounts == old(testClickCounts)
    {
      if !Truthy(employeeId) && !Truthy(employeeName) {
        return;
      }
      submittedTests := SubmittedKeys(subs, employeeId, employeeName);
    }

    /** `handleTestClick`: that button's count goes up by one, every other
        count stays, and the test page is opened with `TestNav`. */
    method HandleTestClick(idx: nat, skill: JsVal, level: JsVal, employeeInfo: Option<Dict<JsVal>>,
                           employeeRoles: JsVal, employeeId: JsVal)
      returns (nav: TestWindow.NavState)
      modifies this
      ensures nav == TestNav(skill, level, employeeInfo, employeeRoles, employeeId)
      ensures idx in testClickCounts
      ensures testClickCounts[idx] == (if idx in old(testClickCounts) then old(testClickCounts)[idx] else 0) + 1
      ensures forall j :: j != idx ==> (j in testClickCounts <==> j in old(testClickCounts))
      ensures forall j :: j != idx && j in testClickCounts ==> testClickCounts[j] == old(testClickCounts)[j]
      ensures submittedTests == old(submittedTests)
    {
      var prev := if idx in testClickCounts then testClickCounts[idx] else 0;
      testClickCounts := testClickCounts[idx := prev + 1];
      nav := TestWindow.NavState(skill, level, employeeInfo, employeeRoles, employeeId, Undefined);
    }
  }
}
