/** The two employee forms, src/components/AddEmployee.jsx and
    src/components/EditEmployee.jsx: the role-to-skills table built from the
    competency maps, the multi-select role picker, and the bodies they send,
    whose `Skills` are the union of the selected roles' maps. The fetches
    are replaced by their results; rendering and navigation are left out. */
module EmployeeForms {
  import opened Wrappers
  import opened Js
  import opened Dict
  import opened SkillUnion
  import opened EmployeeModel
  import EntityRoutes

  // ------------------------------------------------------ competency table

  /** One row of the `/api/competency_map` response: `role` and `skills` as
      they arrive. */
  datatype MapRow = MapRow(role: JsVal, skills: JsVal)

  /** `skillMap`: for every row with a truthy role, its skills under
      `String(role)`; a later row with the same key replaces an earlier one.
      A response that is not an array (None) gives an empty table. */
  function SkillMapOf(rows: seq<MapRow>): (m: Dict<JsVal>)
    ensures DistinctKeys(m)
    ensures forall k :: HasKey(m, k) <==>
      exists i :: 0 <= i < |rows| && Truthy(rows[i].role) && ToStr(rows[i].role) == k
  {
    if rows == [] then []
    else
      var init := rows[..|rows| - 1];
      var last := rows[|rows| - 1];
      var prev := SkillMapOf(init);
      assert forall i :: 0 <= i < |init| ==> init[i] == rows[i];
      assert forall k :: HasKey(prev, k) <==> Get(prev, k).Some?;
      if !Truthy(last.role) then prev
      else
        var m := Put(prev, ToStr(last.role), last.skills);
        assert forall k :: HasKey(m, k) <==> Get(m, k).Some?;
        m
  }

  /** The last row with a truthy role printing as `k` decides the skills
      listed under `k`. */
  lemma {:induction false} SkillMapLastWins(rows: seq<MapRow>, i: nat)
    requires i < |rows| && Truthy(rows[i].role)
    requires forall j :: i < j < |rows| && Truthy(rows[j].role) ==> ToStr(rows[j].role) != ToStr(rows[i].role)
    ensures Get(SkillMapOf(rows), ToStr(rows[i].role)) == Some(rows[i].skills)
  {
    if i < |rows| - 1 {
      var init := rows[..|rows| - 1];
      assert forall j :: 0 <= j < |init| ==> init[j] == rows[j];
      SkillMapLastWins(init, i);
    }
  }

  /** The `forEach` that fills `skillMap`, after the `Array.isArray` check. */
  method BuildSkillMap(data: Option<seq<MapRow>>) returns (skillMap: Dict<JsVal>)
    ensures data.None? ==> skillMap == []
    ensures data.Some? ==> skillMap == SkillMapOf(data.value)
  {
    skillMap := [];
    if data.Some? {
      var rows := data.value;
      var i := 0;
      while i < |rows|
        invariant 0 <= i <= |rows|
        invariant skillMap == SkillMapOf(rows[..i])
      {
        assert rows[..i + 1][..i] == rows[..i];
        if Truthy(rows[i].role) {
          skillMap := Put(skillMap, ToStr(rows[i].role), rows[i].skills);
        }
        i := i + 1;
      }
      assert rows[..|rows|] == rows;
    }
  }

  /** `roles.filter(Boolean)` over `data.map(r => r.role)`: the role options
      of the edit form. */
  function RoleOptionsOf(data: Option<seq<MapRow>>): (r: seq<JsVal>)
    ensures forall x :: x in r <==> data.Some? && Truthy(x) && exists i :: 0 <= i < |data.value| && data.value[i].role == x
  {
    if data.None? then []
    else
      var roles := seq(|data.value|, i requires 0 <= i < |data.value| => data.value[i].role);
      assert forall i :: 0 <= i < |roles| ==> roles[i] == data.value[i].role;
      EntityRoutes.TruthyOnly(roles)
  }

  /** Every option of the edit form names a role with an entry in its skill
      table. */
  lemma RoleOptionsHaveSkills(data: Option<seq<MapRow>>)
    requires data.Some?
    ensures forall x :: x in RoleOptionsOf(data) ==> HasKey(SkillMapOf(data.value), ToStr(x))
  {
  }

  // ------------------------------------------------------ role multi-select

  datatype SelectOption = SelectOption(value: string, selected: bool)

  /** The values of the selected options of a multi-select, in option order. */
  function Selected(options: seq<SelectOption>): (r: seq<string>)
    ensures forall x :: x in r <==> exists i :: 0 <= i < |options| && options[i].selected && options[i].value == x
    ensures |r| <= |options|
  {
    if options == [] then []
    else
      var rest := Selected(options[1..]);
      assert forall i :: 1 <= i < |options| ==> options[1..][i - 1] == options[i];
      if options[0].selected then [options[0].value] + rest else rest
  }

  /** The selection keeps the options' order: selecting from two runs of
      options gives the first run's values, then the second's. */
  lemma {:induction false} SelectedKeepsOrder(a: seq<SelectOption>, b: seq<SelectOption>)
    ensures Selected(a + b) == Selected(a) + Selected(b)
  {
    if a != [] {
      assert (a + b)[1..] == a[1..] + b;
      assert (a + b)[0] == a[0];
      SelectedKeepsOrder(a[1..], b);
      var head := if a[0].selected then [a[0].value] else [];
      assert Selected(a + b) == head + Selected(a[1..] + b);
      assert Selected(a) == head + Selected(a[1..]);
    } else {
      assert a + b == b;
    }
  }

  /** With nothing selected the list is empty. */
  lemma {:induction false} NoneSelected(options: seq<SelectOption>)
    requires forall i :: 0 <= i < |options| ==> !options[i].selected
    ensures Selected(options) == []
  {
    if options != [] {
      NoneSelected(options[1..]);
    }
  }

  // --------------------------------------------------------- add employee

  /** The body of the `POST /api/employee_skills_levels` request. */
  datatype NewEmployeeBody = NewEmployeeBody(
    employee: string,
    department: string,
    roles: seq<string>,
    email: string,
    skills: seq<(string, JsVal)>)

  /** The state of the add-employee form. */
  class AddEmployeeForm {
    var employee: string
    var department: string
    var roles: seq<string>
    var email: string
    var roleSkillMap: Dict<JsVal>
    var success: bool
    var error: string

    constructor()
      ensures employee == "" && department == "" && roles == [] && email == ""
      ensures roleSkillMap == [] && !success && error == ""
    {
      employee, department, roles, email := "", "", [], "";
      roleSkillMap := [];
      success, error := false, "";
    }

    /** The competency-map response arrives. */
    method LoadCompetencyMap(data: Option<seq<MapRow>>)
      modifies this
      ensures data.Some? ==> roleSkillMap == SkillMapOf(data.value)
      ensures data.None? ==> roleSkillMap == []
      ensures employee == old(employee) && department == old(department) && roles == old(roles)
      ensures email == old(email) && success == old(success) && error == old(error)
    {
      roleSkillMap := BuildSkillMap(data);
    }

    /** `handleChange` on a text input: the field named `name` takes the
        value; a name that is not one of the form's fields changes nothing
        the form reads. */
    method HandleChange(name: string, value: string)
      modifies this
      ensures employee == (if name == "Employee" then value else old(employee))
      ensures department == (if name == "Department" then value else old(department))
      ensures email == (if name == "email" then value else old(email))
      ensures roles == old(roles) && roleSkillMap == old(roleSkillMap)
      ensures success == old(success) && error == old(error)
    {
      if name == "Employee" {
        employee := value;
      } else if name == "Department" {
        department := value;
      } else if name == "email" {
        email := value;
      }
    }

    /** `handleChange` on the role multi-select: the roles become exactly
        the selected values, in option order. */
    method HandleRolesChange(options: seq<SelectOption>)
      modifies this
      ensures roles == Selected(options)
      ensures employee == old(employee) && department == old(department) && email == old(email)
      ensures roleSkillMap == old(roleSkillMap) && success == old(success) && error == old(error)
    {
      roles := Selected(options);
    }

    /** `handleSubmit`: the body carries the form fields and the union of
        the selected roles' skills. On an ok response the form resets to
        empty; otherwise it keeps its fields and shows the error. */
    method HandleSubmit(responseOk: bool) returns (body: NewEmployeeBody)
      modifies this
      ensures body == NewEmployeeBody(old(employee), old(department), old(roles), old(email),
        UnionOf(Frontend, old(roleSkillMap), old(roles)))
      ensures roleSkillMap == old(roleSkillMap)
      ensures success == responseOk
      ensures responseOk ==> employee == "" && department == "" && roles == [] && email == "" && error == ""
      ensures !responseOk ==> (error == "Failed to add employee" && employee == old(employee) &&
        department == old(department) && roles == old(roles) && email == old(email))
    {
      error := "";
      success := false;
      var skillsArray := UnionSkills(Frontend, roleSkillMap, roles);
      body := NewEmployeeBody(employee, department, roles, email, skillsArray);
      if responseOk {
        success := true;
        employee, department, roles, email := "", "", [], "";
      } else {
        error := "Failed to add employee";
      }
    }
  }

  // -------------------------------------------------------- edit employee

  /** The body of the `PUT /api/employee/:id` request. */
  datatype EditBody = EditBody(roles: seq<string>, employee: string, email: string, skills: seq<(string, JsVal)>)

  /** The state of the edit form. */
  class EditEmployeeForm {
    var employee: Option<Employee>
    var roles: seq<string>
    var roleOptions: seq<JsVal>
    var roleSkillMap: Dict<JsVal>

    constructor()
      ensures employee.None? && roles == [] && roleOptions == [] && roleSkillMap == []
    {
      employee, roles, roleOptions, roleSkillMap := None, [], [], [];
    }

    /** The employee arrives: the selected roles become the stored ones. */
    method LoadEmployee(e: Employee)
      modifies this
      ensures employee == Some(e) && roles == e.roles
      ensures roleOptions == old(roleOptions) && roleSkillMap == old(roleSkillMap)
    {
      employee := Some(e);
      roles := e.roles;
    }

    /** The competency-map response arrives: the role options and the
        role-to-skills table. */
    method LoadCompetencyMap(data: Option<seq<MapRow>>)
      modifies this
      ensures roleOptions == RoleOptionsOf(data)
      ensures data.Some? ==> roleSkillMap == SkillMapOf(data.value)
      ensures data.None? ==> roleSkillMap == []
      ensures employee == old(employee) && roles == old(roles)
    {
      roleOptions := RoleOptionsOf(data);
      roleSkillMap := BuildSkillMap(data);
    }

    /** `handleRoleChange`. */
    method HandleRoleChange(options: seq<SelectOption>)
      modifies this
      ensures roles == Selected(options)
      ensures employee == old(employee) && roleOptions == old(roleOptions) && roleSkillMap == old(roleSkillMap)
    {
      roles := Selected(options);
    }

    /** Typing in the name or email field. Each keystroke replaces the
        `employee` object, so the effect that watches it runs again and
        resets the selected roles to the loaded employee's roles: a role
        choice made before the edit is lost. */
    method EditField(isName: bool, value: string)
      requires employee.Some?
      modifies this
      ensures employee.Some?
      ensures employee.value == if isName then old(employee.value).(name := value) else old(employee.value).(email := value)
      ensures roles == old(employee.value).roles
      ensures roleOptions == old(roleOptions) && roleSkillMap == old(roleSkillMap)
    {
      if isName {
        employee := Some(employee.value.(name := value));
      } else {
        employee := Some(employee.value.(email := value));
      }
      roles := employee.value.roles;
    }

    /** `computeSkillsArray`: one entry per skill of the selected roles'
        maps, at the highest level. */
    method ComputeSkillsArray() returns (skills: seq<(string, JsVal)>)
      ensures skills == UnionOf(Frontend, roleSkillMap, roles)
    {
      skills := UnionSkills(Frontend, roleSkillMap, roles);
    }

    /** `handleSubmit`: the body always carries the freshly computed skills,
        replacing the stored list. The form is shown only once the employee
        has loaded. */
    method HandleSubmit() returns (body: EditBody)
      requires employee.Some?
      ensures body == EditBody(roles, employee.value.name, employee.value.email, UnionOf(Frontend, roleSkillMap, roles))
    {
      var skillsArray := ComputeSkillsArray();
      body := EditBody(roles, employee.value.name, employee.value.email, skillsArray);
    }
  }
}
