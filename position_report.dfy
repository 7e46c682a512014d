/** The skill-level table of src/components/EmployeeSkillLevelsByPosition.jsx:
    for a selected role, one row per employee holding it and one cell per
    skill the role requires, showing the level the employee's score-log
    entry for that skill earns. Also its `calculateAchievedLevel` helper.
    The fetched collections are parameters; export and printing are left
    out. */
module PositionReport {
  import opened Wrappers
  import opened Lists
  import opened JsText
  import opened Js
  import opened Dict
  import opened SkillNames
  import opened McqRoutes
  import Sheets
  import EmployeeForms

  /** A score-log entry as the score-log route sends it: every field a
      string or undefined. */
  predicate CellEntry(t: ScoreLogEntry) {
    && IsCell(t.timestamp) && IsCell(t.employeeId) && IsCell(t.employeeName) && IsCell(t.employeePosition)
    && IsCell(t.skill) && IsCell(t.level) && IsCell(t.score) && IsCell(t.maxScore) && IsCell(t.percent)
    && IsCell(t.status)
  }

  // ------------------------------------------------- calculateAchievedLevel

  /** A logged status counts as a failure when it is truthy and reads "fail"
      in any case. */
  predicate StatusIsFail(t: ScoreLogEntry)
    requires CellEntry(t)
  {
    Truthy(t.status) && ToLower(t.status.s) == "fail"
  }

  /** `test.level && Number(test.level) === n`. */
  predicate LevelIs(t: ScoreLogEntry, n: int) {
    Truthy(t.level) && ToNumber(t.level) == Int(n)
  }

  /** `a < b` between numbers; false when either is NaN. */
  predicate Less(a: JsNumber, b: int) {
    a.Int? && a.value < b
  }

  /** The achieved level and the failure flag for an optional test, as the
      branches of `calculateAchievedLevel` decide them. */
  function AchievedOf(test: Option<ScoreLogEntry>): (r: (int, bool))
    requires test.Some? ==> CellEntry(test.value)
    ensures r.1 ==> r.0 == 0
  {
    if test.None? then (0, false)
    else
      var t := test.value;
      var p := ToNumber(t.percent);
      if StatusIsFail(t) then (0, true)
      else if LevelIs(t, 2) && Truthy(t.percent) && AtLeast(p, Int(80)) then (3, false)
      else if LevelIs(t, 3) && Truthy(t.percent) && Less(p, 80) && Greater(p, Int(60)) then (2, false)
      else if LevelIs(t, 3) && Truthy(t.percent) && AtMost(p, 60) then (0, true)
      else if Truthy(t.level) && ToNumber(t.level).Int? then (ToNumber(t.level).value, false)
      else (0, false)
  }

  /** `calculateAchievedLevel`: `achieved` and `failed` assigned across the
      branches. */
  method CalculateAchievedLevel(test: Option<ScoreLogEntry>) returns (achieved: int, failed: bool)
    requires test.Some? ==> CellEntry(test.value)
    ensures (achieved, failed) == AchievedOf(test)
  {
    achieved := 0;
    failed := false;
    if test.Some? {
      var t := test.value;
      var p := ToNumber(t.percent);
      if Truthy(t.status) && ToLower(t.status.s) == "fail" {
        achieved := 0;
        failed := true;
      } else if LevelIs(t, 2) && Truthy(t.percent) && AtLeast(p, Int(80)) {
        achieved := 3;
      } else if LevelIs(t, 3) && Truthy(t.percent) && Less(p, 80) && Greater(p, Int(60)) {
        achieved := 2;
      } else if LevelIs(t, 3) && Truthy(t.percent) && AtMost(p, 60) {
        achieved := 0;
        failed := true;
      } else if Truthy(t.level) && !ToNumber(t.level).NaN? {
        achieved := ToNumber(t.level).value;
      }
    }
  }

  /** The failure flag is raised exactly by a "fail" status in any case, or
      by a level-3 test at or below 60 percent; with no test nothing is
      achieved and nothing failed. */
  lemma AchievedFailure(test: Option<ScoreLogEntry>)
    requires test.Some? ==> CellEntry(test.value)
    ensures test.None? ==> AchievedOf(test) == (0, false)
    ensures AchievedOf(test).1 <==> (test.Some? &&
      (StatusIsFail(test.value) ||
       (LevelIs(test.value, 3) && Truthy(test.value.percent) && AtMost(ToNumber(test.value.percent), 60))))
  {
  }

  /** Without a failure the achieved level is the tested level, one above
      it for a level-2 test at 80 percent or more, or one below it for a
      level-3 test strictly between 60 and 80 percent. */
  lemma AchievedNearLevel(t: ScoreLogEntry, n: int)
    requires CellEntry(t) && LevelIs(t, n) && !StatusIsFail(t)
    ensures !AchievedOf(Some(t)).1 ==>
      AchievedOf(Some(t)).0 == if n == 2 && Truthy(t.percent) && AtLeast(ToNumber(t.percent), Int(80)) then 3
        else if n == 3 && Truthy(t.percent) && Less(ToNumber(t.percent), 80) && Greater(ToNumber(t.percent), Int(60)) then 2
        else n
  {
  }

  /** Any letter case of "fail" counts as a failure. */
  lemma FailInAnyCase(t: ScoreLogEntry)
    requires CellEntry(t) && t.status == Str("FAIL")
    ensures AchievedOf(Some(t)) == (0, true)
  {
    assert ToLower("FAIL") == "fail";
  }

  // ----------------------------------------------------------- display level

  /** The cell text for a test with `Number(level)` and `Number(percent)`. */
  function DisplayOf(level: JsNumber, percent: JsNumber): (d: string)
    ensures d in {"", "L1", "L2", "L3", "L4"}
    ensures d == "" <==> !(level == Int(2) || level == Int(3) || level == Int(4))
  {
    if level == Int(2) then
      if AtLeast(percent, Int(60)) && Less(percent, 80) then "L2"
      else if AtLeast(percent, Int(80)) then "L3"
      else "L1"
    else if level == Int(3) then
      if AtLeast(percent, Int(80)) then "L3"
      else if AtLeast(percent, Int(60)) && Less(percent, 80) then "L2"
      else "L1"
    else if level == Int(4) then
      if AtLeast(percent, Int(60)) then "L4" else "L1"
    else ""
  }

  /** The cell's branches: `displayLevel` and `isFailed`. */
  method DisplayLevel(test: Option<ScoreLogEntry>) returns (displayLevel: string, isFailed: bool)
    ensures test.None? ==> displayLevel == "" && !isFailed
    ensures test.Some? ==> displayLevel == DisplayOf(ToNumber(test.value.level), ToNumber(test.value.percent))
    ensures isFailed <==> displayLevel == "L1"
  {
    displayLevel := "";
    isFailed := false;
    if test.Some? {
      var level := ToNumber(test.value.level);
      var percent := ToNumber(test.value.percent);
      if level == Int(2) {
        if AtLeast(percent, Int(60)) && Less(percent, 80) {
          displayLevel := "L2";
        } else if AtLeast(percent, Int(80)) {
          displayLevel := "L3";
        } else {
          displayLevel := "L1";
          isFailed := true;
        }
      } else if level == Int(3) {
        if AtLeast(percent, Int(80)) {
          displayLevel := "L3";
        } else if AtLeast(percent, Int(60)) && Less(percent, 80) {
          displayLevel := "L2";
        } else {
          displayLevel := "L1";
          isFailed := true;
        }
      } else if level == Int(4) {
        if AtLeast(percent, Int(60)) {
          displayLevel := "L4";
        } else {
          displayLevel := "L1";
          isFailed := true;
        }
      }
    }
  }

  /** The display table, level by level, for numeric percentages. */
  lemma DisplayTable(p: int)
    ensures DisplayOf(Int(2), Int(p)) == if p >= 80 then "L3" else if p >= 60 then "L2" else "L1"
    ensures DisplayOf(Int(3), Int(p)) == if p >= 80 then "L3" else if p >= 60 then "L2" else "L1"
    ensures DisplayOf(Int(4), Int(p)) == if p >= 60 then "L4" else "L1"
    ensures DisplayOf(Int(2), NaN) == "L1" && DisplayOf(Int(3), NaN) == "L1" && DisplayOf(Int(4), NaN) == "L1"
  {
  }

  function DisplayRank(d: string): nat {
    if d == "L1" then 1 else if d == "L2" then 2 else if d == "L3" then 3 else if d == "L4" then 4 else 0
  }

  /** For a fixed level the shown level never drops as the percentage
      rises. */
  lemma DisplayMonotonic(level: JsNumber, p: int, q: int)
    requires p <= q
    ensures DisplayRank(DisplayOf(level, Int(p))) <= DisplayRank(DisplayOf(level, Int(q)))
  {
  }

  /** The table and the status the backend logs disagree on level-3 tests:
      at 80 percent the backend logs "Fail" but the table shows L3, and at
      70 percent it logs "Fail" while the table shows L2. */
  lemma Level3StatusDisagrees()
    ensures StatusOf("3", Int(80)) == Some(Fail) && DisplayOf(Int(3), Int(80)) == "L3"
    ensures StatusOf("3", Int(70)) == Some(Fail) && DisplayOf(Int(3), Int(70)) == "L2"
  {
  }

  /** The table also disagrees with `calculateAchievedLevel`: a level-3 test
      at exactly 60 percent is a failure there and L2 in the table. */
  lemma Level3AchievedDisagrees(t: ScoreLogEntry)
    requires CellEntry(t) && !StatusIsFail(t) && Truthy(t.level) && Truthy(t.percent)
    requires ToNumber(t.level) == Int(3) && ToNumber(t.percent) == Int(60)
    ensures AchievedOf(Some(t)) == (0, true)
    ensures DisplayOf(ToNumber(t.level), ToNumber(t.percent)) == "L2"
  {
  }

  // -------------------------------------------------------- score-log lookup

  /** The `find` predicate: the entry's name, trimmed and lower-cased,
      equals the employee's; and its skill is the skill's code or
      normalises to the same name. */
  predicate TestMatches(row: ScoreLogEntry, empName: JsVal, skillName: string, skillCode: JsVal) {
    && Truthy(row.employeeName) && row.employeeName.Str?
    && Sheets.Key(row.employeeName.s) == Sheets.Key(ToStr(empName))
    && (StrictEquals(row.skill, skillCode) || StrictEquals(NormalizeValue(row.skill), NormalizeValue(Str(skillName))))
  }

  /** Entry `i` is the earliest entry of the log that matches. */
  predicate IsFirstTest(log: seq<ScoreLogEntry>, empName: JsVal, skillName: string, skillCode: JsVal, i: int) {
    && 0 <= i < |log|
    && TestMatches(log[i], empName, skillName, skillCode)
    && forall j :: 0 <= j < i ==> !TestMatches(log[j], empName, skillName, skillCode)
  }

  /** `allScoreLog.find(...)`: the first matching entry, if any. */
  function FindTest(log: seq<ScoreLogEntry>, empName: JsVal, skillName: string, skillCode: JsVal): (r: Option<ScoreLogEntry>)
    ensures r.None? <==> forall i :: 0 <= i < |log| ==> !TestMatches(log[i], empName, skillName, skillCode)
    ensures r.Some? ==> r.value in log && TestMatches(r.value, empName, skillName, skillCode)
    ensures r.Some? ==> exists i :: IsFirstTest(log, empName, skillName, skillCode, i) && r.value == log[i]
  {
    var i := FirstWhere(log, row => TestMatches(row, empName, skillName, skillCode));
    if i.Some? then
      assert IsFirstTest(log, empName, skillName, skillCode, i.value);
      Some(log[i.value])
    else None
  }

  /** The name comparison ignores surrounding spaces and letter case on
      both sides. */
  lemma NameMatchIgnoresCase(row: ScoreLogEntry, name: string, skillName: string, skillCode: JsVal)
    ensures TestMatches(row, Str(name), skillName, skillCode) <==>
      TestMatches(row, Str(Sheets.Key(name)), skillName, skillCode)
  {
    TrimIdempotent(name);
    TrimLowerCommute(name);
    TrimIdempotent(ToLower(name));
    LowerIdempotent(Trim(name));
  }

  // ------------------------------------------------------------- the table

  /** The name shown for an employee: the first truthy of four name fields. */
  function EmpName(e: Dict<JsVal>): (n: JsVal)
    ensures Truthy(Field(e, "Employee Name")) ==> n == Field(e, "Employee Name")
    ensures !Truthy(Field(e, "Employee Name")) && !Truthy(Field(e, "Name")) && !Truthy(Field(e, "EmployeeName")) ==>
      n == Field(e, "Employee")
  {
    Or(Or(Or(Field(e, "Employee Name"), Field(e, "Name")), Field(e, "EmployeeName")), Field(e, "Employee"))
  }

  /** An employee holds the role: `Roles` is an array containing it, or is
      the role itself. */
  predicate HasRole(e: Dict<JsVal>, role: string) {
    var r := Field(e, "Roles");
    if r.Arr? then Str(role) in r.items else StrictEquals(r, Str(role))
  }

  /** `allSkillsData.filter(...)`: the employees holding the role, in order. */
  function EmployeesWithRole(all: seq<Dict<JsVal>>, role: string): (r: seq<Dict<JsVal>>)
    ensures forall e :: e in r <==> e in all && HasRole(e, role)
    ensures |r| <= |all|
  {
    if all == [] then []
    else
      var rest := EmployeesWithRole(all[1..], role);
      assert forall e :: e in all <==> e == all[0] || e in all[1..];
      if HasRole(all[0], role) then [all[0]] + rest else rest
  }

  /** The first competency row for the selected role. */
  function RoleEntry(maps: seq<EmployeeForms.MapRow>, role: string): (r: Option<EmployeeForms.MapRow>)
    ensures r.None? <==> forall i :: 0 <= i < |maps| ==> maps[i].role != Str(role)
    ensures r.Some? ==> r.value in maps && r.value.role == Str(role)
    ensures r.Some? ==> exists i :: (0 <= i < |maps| && maps[i] == r.value &&
      forall j :: 0 <= j < i ==> maps[j].role != Str(role))
  {
    if maps == [] then None
    else if StrictEquals(maps[0].role, Str(role)) then Some(maps[0])
    else
      assert forall i :: 1 <= i < |maps| ==> maps[1..][i - 1] == maps[i];
      var rest := RoleEntry(maps[1..], role);
      if rest.Some? then
        var i :| (0 <= i < |maps[1..]| && maps[1..][i] == rest.value &&
          forall j :: 0 <= j < i ==> maps[1..][j].role != Str(role));
        assert maps[i + 1] == rest.value;
        rest
      else rest
  }

  /** One table row: the employee's name and one cell per required skill. */
  datatype TableRow = TableRow(name: JsVal, cells: seq<string>)

  /** The cell for one employee and one required skill: empty when no test
      of the log matches, otherwise the display level of the earliest
      matching test. */
  function CellFor(log: seq<ScoreLogEntry>, nameToCode: Dict<JsVal>, e: Dict<JsVal>, skillName: string): (r: string)
    ensures (forall i :: 0 <= i < |log| ==> !TestMatches(log[i], EmpName(e), skillName, SkillCodeFor(nameToCode, skillName)))
      ==> r == ""
    ensures forall i :: IsFirstTest(log, EmpName(e), skillName, SkillCodeFor(nameToCode, skillName), i) ==>
      r == DisplayOf(ToNumber(log[i].level), ToNumber(log[i].percent))
  {
    var test := FindTest(log, EmpName(e), skillName, SkillCodeFor(nameToCode, skillName));
    if test.None? then "" else DisplayOf(ToNumber(test.value.level), ToNumber(test.value.percent))
  }

  /** The rendered table, or None when no role is selected or the role has
      no competency row. */
  function Table(maps: seq<EmployeeForms.MapRow>, all: seq<Dict<JsVal>>, log: seq<ScoreLogEntry>,
                 nameToCode: Dict<JsVal>, selectedRole: string): (t: Option<(seq<string>, seq<TableRow>)>)
    ensures t.None? <==> selectedRole == "" || RoleEntry(maps, selectedRole).None?
    ensures t.Some? ==> |t.value.1| == |EmployeesWithRole(all, selectedRole)|
    ensures t.Some? ==> forall i :: 0 <= i < |t.value.1| ==> |t.value.1[i].cells| == |t.value.0|
    ensures t.Some? ==> forall i, j :: 0 <= i < |t.value.1| && 0 <= j < |t.value.0| ==>
      t.value.1[i].cells[j] in {"", "L1", "L2", "L3", "L4"}
    ensures t.Some? ==>
      var required := Entries(Or(RoleEntry(maps, selectedRole).value.skills, Obj([])));
      |t.value.0| == |required| && forall j :: 0 <= j < |required| ==> t.value.0[j] == required[j].0
    ensures t.Some? ==> forall k :: 0 <= k < |t.value.1| ==>
      t.value.1[k].name == EmpName(EmployeesWithRole(all, selectedRole)[k])
    ensures t.Some? ==> forall k, j :: 0 <= k < |t.value.1| && 0 <= j < |t.value.0| ==>
      t.value.1[k].cells[j] == CellFor(log, nameToCode, EmployeesWithRole(all, selectedRole)[k], t.value.0[j])
  {
    if selectedRole == "" then None
    else
      var entry := RoleEntry(maps, selectedRole);
      if entry.None? then None
      else
        var required := Entries(Or(entry.value.skills, Obj([])));
        var header := seq(|required|, i requires 0 <= i < |required| => required[i].0);
        var emps := EmployeesWithRole(all, selectedRole);
        var rows := seq(|emps|, k requires 0 <= k < |emps| =>
          TableRow(EmpName(emps[k]), seq(|required|, i requires 0 <= i < |required| =>
            CellFor(log, nameToCode, emps[k], required[i].0))));
        Some((header, rows))
  }
}
