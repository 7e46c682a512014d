/** The employee record of backend/models/Employee.js and the competency
    map of backend/models/CompetencyMap.js, with the constraints their
    schemas declare: required fields and unique keys. */
module EmployeeModel {
  import opened Wrappers
  import opened Js

  /** One entry of `Skills`: a skill name and its level, both strings. */
  datatype SkillLevel = SkillLevel(skill: string, level: string)

  /** A stored employee. The id is of mixed type (a string or a number);
      `name` is the `Employee` field. */
  datatype Employee = Employee(
    employeeId: JsVal,
    name: string,
    department: Option<string>,
    roles: seq<string>,
    skills: seq<SkillLevel>,
    email: string)

  /** The required fields: an id, a non-empty name and a non-empty email,
      and in every skill entry a non-empty skill and level. */
  predicate SchemaValid(e: Employee) {
    && !e.employeeId.Undefined? && !e.employeeId.Null?
    && e.name != ""
    && e.email != ""
    && forall k :: 0 <= k < |e.skills| ==> e.skills[k].skill != "" && e.skills[k].level != ""
  }

  /** The unique indexes: no two employees share an id or an email. */
  predicate UniqueKeys(store: seq<Employee>) {
    forall i, j :: 0 <= i < j < |store| ==>
      store[i].employeeId != store[j].employeeId && store[i].email != store[j].email
  }

  predicate ValidStore(store: seq<Employee>) {
    UniqueKeys(store) && forall i :: 0 <= i < |store| ==> SchemaValid(store[i])
  }

  /** Whether `e` can join the store: it satisfies the schema and takes
      neither an id nor an email already in use. */
  predicate Admissible(store: seq<Employee>, e: Employee) {
    && SchemaValid(e)
    && forall i :: 0 <= i < |store| ==> store[i].employeeId != e.employeeId && store[i].email != e.email
  }

  /** Adding an admissible employee keeps the store valid. */
  lemma AdmitKeepsValid(store: seq<Employee>, e: Employee)
    requires ValidStore(store) && Admissible(store, e)
    ensures ValidStore(store + [e])
  {
    assert forall i :: 0 <= i < |store| ==> (store + [e])[i] == store[i];
  }

  /** Removing an employee keeps the store valid. */
  lemma RemoveKeepsValid(store: seq<Employee>, k: nat)
    requires ValidStore(store) && k < |store|
    ensures ValidStore(store[..k] + store[k + 1..])
  {
    var s := store[..k] + store[k + 1..];
    assert forall i :: 0 <= i < |s| ==> s[i] == store[if i < k then i else i + 1];
  }

  /** A competency map: a unique, required role name and its skills, each
      skill name mapped to a required level (a value of any type). */
  datatype CompetencyMap = CompetencyMap(role: string, skills: seq<(string, JsVal)>)

  predicate ValidMaps(maps: seq<CompetencyMap>) {
    && (forall i :: 0 <= i < |maps| ==> maps[i].role != "")
    && forall i, j :: 0 <= i < j < |maps| ==> maps[i].role != maps[j].role
  }
}
