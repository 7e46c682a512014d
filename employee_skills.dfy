/** The report of backend/utils/employeeSkills.js: every employee's required
    skills, the union of the competency maps of their roles with the highest
    level per skill. The two collections are passed in instead of being
    read from the database. */
module EmployeeSkills {
  import opened Wrappers
  import opened Js
  import opened Dict
  import opened EmployeeModel
  import opened SkillUnion

  // ------------------------------------------------------------ role skills

  /** `roleSkills`: each row's skills under its role name; a later row with
      the same role replaces the earlier one. */
  function RoleSkillsOf(maps: seq<CompetencyMap>): (d: Dict<JsVal>)
    ensures DistinctKeys(d)
    ensures forall role :: HasKey(d, role) <==> exists i :: 0 <= i < |maps| && maps[i].role == role
  {
    if maps == [] then []
    else
      var init := maps[..|maps| - 1];
      var last := maps[|maps| - 1];
      var prev := RoleSkillsOf(init);
      var d := Put(prev, last.role, Obj(last.skills));
      assert forall i :: 0 <= i < |init| ==> init[i] == maps[i];
      forall role ensures HasKey(d, role) <==> HasKey(prev, role) || role == last.role {
        PutHasKey(prev, last.role, Obj(last.skills), role);
      }
      d
  }

  /** The last row naming a role decides that role's skills. */
  lemma {:induction false} LastRowWins(maps: seq<CompetencyMap>, i: nat)
    requires i < |maps|
    requires forall j :: i < j < |maps| ==> maps[j].role != maps[i].role
    ensures Get(RoleSkillsOf(maps), maps[i].role) == Some(Obj(maps[i].skills))
  {
    if i < |maps| - 1 {
      var init := maps[..|maps| - 1];
      assert forall j :: 0 <= j < |init| ==> init[j] == maps[j];
      LastRowWins(init, i);
    }
  }

  /** With unique role names, a role's skills are those of its row. */
  lemma SkillsOfRow(maps: seq<CompetencyMap>, r: nat)
    requires ValidMaps(maps) && r < |maps|
    ensures SkillsOf(RoleSkillsOf(maps), maps[r].role) == maps[r].skills
  {
    var role := maps[r].role;
    forall j | r < j < |maps| ensures maps[j].role != role {
      assert maps[r].role != maps[j].role;
    }
    LastRowWins(maps, r);
    StoredSkills(RoleSkillsOf(maps), role, maps[r].skills);
  }

  /** A role stored with an object of skills has exactly those skills. */
  lemma StoredSkills(d: Dict<JsVal>, role: string, skills: seq<(string, JsVal)>)
    requires Get(d, role) == Some(Obj(skills))
    ensures SkillsOf(d, role) == skills
  {
    assert Field(d, role) == Obj(skills);
  }

  /** A role with no row has no skills. */
  lemma SkillsOfUnmapped(maps: seq<CompetencyMap>, role: string)
    requires forall r :: 0 <= r < |maps| ==> maps[r].role != role
    ensures SkillsOf(RoleSkillsOf(maps), role) == []
  {
  }

  /** `skillList`: adding the keys `ks` to a set kept in insertion order. */
  function AddAll(list: seq<string>, ks: seq<string>): (r: seq<string>)
    ensures forall x :: x in r <==> x in list || x in ks
    ensures (forall i, j :: 0 <= i < j < |list| ==> list[i] != list[j]) ==>
      forall i, j :: 0 <= i < j < |r| ==> r[i] != r[j]
    decreases ks
  {
    if ks == [] then list
    else
      var next := if ks[0] in list then list else list + [ks[0]];
      var r := AddAll(next, ks[1..]);
      assert forall x :: x in ks <==> x == ks[0] || x in ks[1..];
      r
  }

  /** Every skill name of every row, once each, in order of first mention. */
  function SkillListOf(maps: seq<CompetencyMap>): (r: seq<string>)
    ensures forall i, j :: 0 <= i < j < |r| ==> r[i] != r[j]
    ensures forall x :: x in r <==> exists i :: 0 <= i < |maps| && x in Keys(maps[i].skills)
  {
    if maps == [] then []
    else
      var init := maps[..|maps| - 1];
      assert forall i :: 0 <= i < |init| ==> init[i] == maps[i];
      AddAll(SkillListOf(init), Keys(maps[|maps| - 1].skills))
  }

  /** `getRoleSkills`: one pass over the rows filling both the role table
      and the skill set. */
  method GetRoleSkills(maps: seq<CompetencyMap>) returns (roleSkills: Dict<JsVal>, skillList: seq<string>)
    ensures roleSkills == RoleSkillsOf(maps)
    ensures skillList == SkillListOf(maps)
  {
    roleSkills := [];
    skillList := [];
    var i := 0;
    while i < |maps|
      invariant 0 <= i <= |maps|
      invariant roleSkills == RoleSkillsOf(maps[..i])
      invariant skillList == SkillListOf(maps[..i])
    {
      var row := maps[i];
      var keys := Keys(row.skills);
      ghost var before := skillList;
      var j := 0;
      while j < |keys|
        invariant 0 <= j <= |keys|
        invariant AddAll(skillList, keys[j..]) == AddAll(before, keys)
      {
        AddAllStep(skillList, keys, j);
        if keys[j] !in skillList {
          skillList := skillList + [keys[j]];
        }
        j := j + 1;
      }
      MapsPrefix(maps, i);
      roleSkills := Put(roleSkills, row.role, Obj(row.skills));
      i := i + 1;
    }
    assert maps[..|maps|] == maps;
  }

  /** One more row is one more step of both tables. */
  lemma MapsPrefix(maps: seq<CompetencyMap>, i: nat)
    requires i < |maps|
    ensures RoleSkillsOf(maps[..i + 1]) == Put(RoleSkillsOf(maps[..i]), maps[i].role, Obj(maps[i].skills))
    ensures SkillListOf(maps[..i + 1]) == AddAll(SkillListOf(maps[..i]), Keys(maps[i].skills))
  {
    assert maps[..i + 1][..i] == maps[..i];
  }

  /** Adding one key and then the rest is adding them all. */
  lemma AddAllStep(list: seq<string>, keys: seq<string>, j: nat)
    requires j < |keys|
    ensures AddAll(if keys[j] in list then list else list + [keys[j]], keys[j + 1..]) == AddAll(list, keys[j..])
  {
    assert keys[j..][1..] == keys[j + 1..];
  }

  // ------------------------------------------------------------ the report

  /** One output record: name, department, roles and the required skills
      as (skill, level) pairs in the order they were first added. */
  datatype EmployeeSkillsRow = EmployeeSkillsRow(
    employee: string,
    department: string,
    roles: seq<string>,
    skills: seq<(string, JsVal)>)

  /** `emp.Department || ""`. */
  function DepartmentOf(department: Option<string>): (d: string)
    ensures department.Some? ==> d == department.value
    ensures department.None? ==> d == ""
  {
    if department.Some? && department.value != "" then department.value else ""
  }

  /** The record the loop body pushes for one employee. */
  function RowFor(roleSkills: Dict<JsVal>, e: Employee): EmployeeSkillsRow {
    EmployeeSkillsRow(e.name, DepartmentOf(e.department), e.roles, UnionOf(Backend, roleSkills, e.roles))
  }

  /** `employeeSkills`: one record per employee, in input order. */
  method EmployeeSkillsReport(maps: seq<CompetencyMap>, employees: seq<Employee>) returns (out: seq<EmployeeSkillsRow>)
    ensures |out| == |employees|
    ensures forall i :: 0 <= i < |employees| ==> out[i] == RowFor(RoleSkillsOf(maps), employees[i])
  {
    var roleSkills, skillList := GetRoleSkills(maps);
    out := ReportRows(roleSkills, employees);
  }

  /** The loop over the employees that pushes one record each. */
  method ReportRows(roleSkills: Dict<JsVal>, employees: seq<Employee>) returns (out: seq<EmployeeSkillsRow>)
    ensures |out| == |employees|
    ensures forall i :: 0 <= i < |employees| ==> out[i] == RowFor(roleSkills, employees[i])
  {
    out := [];
    var i := 0;
    while i < |employees|
      invariant 0 <= i <= |employees|
      invariant |out| == i
      invariant forall k :: 0 <= k < i ==> out[k] == RowFor(roleSkills, employees[k])
    {
      var emp := employees[i];
      var department := DepartmentOf(emp.department);
      var skillLevels := UnionSkills(Backend, roleSkills, emp.roles);
      out := out + [EmployeeSkillsRow(emp.name, department, emp.roles, skillLevels)];
      i := i + 1;
    }
  }

  /** With unique role names, a skill is in an employee's record exactly
      when the row of one of the employee's roles names it; each skill is
      listed once. */
  lemma {:induction false} ReportSkillsExact(maps: seq<CompetencyMap>, e: Employee, k: string)
    requires ValidMaps(maps)
    ensures HasKey(RowFor(RoleSkillsOf(maps), e).skills, k) <==>
      exists i, r :: 0 <= i < |e.roles| && 0 <= r < |maps| && maps[r].role == e.roles[i] && Names(maps[r].skills, k)
    ensures DistinctKeys(RowFor(RoleSkillsOf(maps), e).skills)
  {
    var d := RoleSkillsOf(maps);
    UnionKeys(Backend, d, e.roles, k);
    if HasKey(RowFor(d, e).skills, k) {
      var i :| 0 <= i < |e.roles| && Names(SkillsOf(d, e.roles[i]), k);
      if forall r :: 0 <= r < |maps| ==> maps[r].role != e.roles[i] {
        SkillsOfUnmapped(maps, e.roles[i]);
      }
      var r :| 0 <= r < |maps| && maps[r].role == e.roles[i];
      SkillsOfRow(maps, r);
    }
    forall i, r | 0 <= i < |e.roles| && 0 <= r < |maps| && maps[r].role == e.roles[i] && Names(maps[r].skills, k)
      ensures HasKey(RowFor(d, e).skills, k)
    {
      SkillsOfRow(maps, r);
    }
  }

  /** In the report the kept level is a raw level taken from one of the
      roles' maps, never a converted number. */
  lemma ReportKeepsRawMax(roleSkills: Dict<JsVal>, e: Employee, k: string)
    requires HasKey(RowFor(roleSkills, e).skills, k)
    ensures exists i, j :: (0 <= i < |e.roles| && 0 <= j < |SkillsOf(roleSkills, e.roles[i])| &&
      SkillsOf(roleSkills, e.roles[i])[j] == (k, Get(RowFor(roleSkills, e).skills, k).value))
  {
    UnionOrigin(Backend, roleSkills, e.roles, k);
    var i, j :| 0 <= i < |e.roles| && 0 <= j < |SkillsOf(roleSkills, e.roles[i])| &&
      SkillsOf(roleSkills, e.roles[i])[j].0 == k &&
      Get(UnionOf(Backend, roleSkills, e.roles), k) == Some(Stored(Backend, SkillsOf(roleSkills, e.roles[i])[j].1));
  }
}
