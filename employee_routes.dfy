/** The employee routes of backend/routes/employeeRoutes.js over the employee
    collection. The collection is the `records` field of `EmployeeStore`, in
    the order the database returns documents when no sort is asked for; a
    `findOne` takes the first match in that order. */
module EmployeeRoutes {
  import opened Wrappers
  import opened JsText
  import opened Js
  import opened EmployeeModel

  // ----------------------------------------------------------------- lookup

  /** The id query: the stored id is the path string itself, or the number
      it reads as. */
  predicate IdMatches(stored: JsVal, id: string) {
    stored == Str(id) || (ToNumber(Str(id)).Int? && stored == Num(ToNumber(Str(id)).value))
  }

  /** A numeric id is found both by its printed form and as a string. */
  lemma IdMatchesPrinted(n: int)
    ensures IdMatches(Num(n), IntToString(n))
    ensures IdMatches(Str(IntToString(n)), IntToString(n))
  {
    StringToNumberOfInt(n);
  }

  /** A string id that does not read as a number matches only itself. */
  lemma NonNumericIdMatchesItself(stored: JsVal, id: string)
    requires StringToNumber(id).NaN?
    ensures IdMatches(stored, id) <==> stored == Str(id)
  {
  }

  /** The position of the first record whose id matches. */
  function IndexById(records: seq<Employee>, id: string): (r: Option<nat>)
    ensures r.Some? ==> r.value < |records| && IdMatches(records[r.value].employeeId, id)
    ensures r.Some? ==> forall j :: 0 <= j < r.value ==> !IdMatches(records[j].employeeId, id)
    ensures r.None? <==> forall j :: 0 <= j < |records| ==> !IdMatches(records[j].employeeId, id)
  {
    if records == [] then None
    else if IdMatches(records[0].employeeId, id) then Some(0)
    else
      var rest := IndexById(records[1..], id);
      assert forall j :: 1 <= j < |records| ==> records[1..][j - 1] == records[j];
      if rest.Some? then Some(rest.value + 1) else None
  }

  /** The email filter: the path email, lower-cased, as a whole-string
      case-insensitive pattern. */
  predicate EmailMatches(stored: string, email: string) {
    ToLower(stored) == ToLower(email)
  }

  /** The position of the first record whose email matches. */
  function IndexByEmail(records: seq<Employee>, email: string): (r: Option<nat>)
    ensures r.Some? ==> r.value < |records| && EmailMatches(records[r.value].email, email)
    ensures r.Some? ==> forall j :: 0 <= j < r.value ==> !EmailMatches(records[j].email, email)
    ensures r.None? <==> forall j :: 0 <= j < |records| ==> !EmailMatches(records[j].email, email)
  {
    if records == [] then None
    else if EmailMatches(records[0].email, email) then Some(0)
    else
      var rest := IndexByEmail(records[1..], email);
      assert forall j :: 1 <= j < |records| ==> records[1..][j - 1] == records[j];
      if rest.Some? then Some(rest.value + 1) else None
  }

  /** Email lookup ignores the case of both sides. */
  lemma EmailLookupIgnoresCase(records: seq<Employee>, email: string)
    ensures IndexByEmail(records, email) == IndexByEmail(records, ToLower(email))
  {
    LowerIdempotent(email);
    SameLowerSameIndex(records, email, ToLower(email));
  }

  /** Two emails with the same lower-case form find the same record. */
  lemma {:induction false} SameLowerSameIndex(records: seq<Employee>, a: string, b: string)
    requires ToLower(a) == ToLower(b)
    ensures IndexByEmail(records, a) == IndexByEmail(records, b)
  {
    if records != [] {
      SameLowerSameIndex(records[1..], a, b);
    }
  }

  // ------------------------------------------------------------- new ids

  /** `maxId` from the record the descending id sort puts first: its id as a
      number when it reads as one, 0 when there is no record or it does not. */
  function MaxIdOf(top: Option<Employee>): int {
    if top.Some? && ToNumber(top.value.employeeId).Int? then ToNumber(top.value.employeeId).value else 0
  }

  /** `String(maxId + 1)`. */
  function NextEmployeeId(top: Option<Employee>): (id: string)
    ensures StringToNumber(id) == Int(MaxIdOf(top) + 1)
  {
    StringToNumberOfInt(MaxIdOf(top) + 1);
    IntToString(MaxIdOf(top) + 1)
  }

  /** With an empty collection, or a first record whose id is not a number,
      the new id is "1". */
  lemma FirstEmployeeId(top: Option<Employee>)
    requires top.None? || ToNumber(top.value.employeeId).NaN?
    ensures NextEmployeeId(top) == "1"
  {
  }

  /** The new id reads as one more than the first record's numeric id. */
  lemma NextEmployeeIdFollows(top: Employee, n: int)
    requires ToNumber(top.employeeId) == Int(n)
    ensures ToNumber(Str(NextEmployeeId(Some(top)))) == Int(n + 1)
  {
  }

  /** The order of the descending sort on `employee_id` for the id types a
      record can hold: null below numbers, numbers below strings, numbers by
      value and strings character by character. Ids of other types are not
      ordered. */
  predicate SortsAfter(a: JsVal, b: JsVal) {
    if a.Num? && b.Num? then a.n > b.n
    else if a.Str? && b.Str? then StrBefore(b.s, a.s)
    else TypeRank(a) > TypeRank(b)
  }

  function TypeRank(v: JsVal): nat {
    match v
    case Undefined => 1
    case Null => 1
    case Num(_) => 2
    case Str(_) => 3
    case Obj(_) => 4
    case Arr(_) => 5
    case Bool(_) => 8
  }

  /** Character-by-character string order, a proper prefix first. */
  predicate StrBefore(a: string, b: string) {
    if a == [] then b != []
    else if b == [] then false
    else if a[0] != b[0] then a[0] < b[0]
    else StrBefore(a[1..], b[1..])
  }

  /** The record the descending id sort puts first: nothing sorts after it. */
  predicate IsTop(records: seq<Employee>, top: Employee) {
    top in records && forall i :: 0 <= i < |records| ==> !SortsAfter(records[i].employeeId, top.employeeId)
  }

  // -------------------------------------------------------- update patch

  /** The fields of a `PUT /employee/:id` body the handler reads. `Roles`
      and `Skills` are None when they are not arrays. */
  datatype PutBody = PutBody(
    roles: Option<seq<string>>,
    employeeName: JsVal,
    name: JsVal,
    email: JsVal,
    skills: Option<seq<SkillLevel>>)

  /** The `$set` document: `Roles` always; the others only when present. */
  datatype Patch = Patch(
    roles: seq<string>,
    employeeName: Option<string>,
    email: Option<string>,
    skills: Option<seq<SkillLevel>>)

  /** A non-blank string, trimmed; None for anything else. */
  function NonBlank(v: JsVal): (r: Option<string>)
    ensures r.Some? <==> v.Str? && Trim(v.s) != ""
    ensures r.Some? ==> r.value == Trim(v.s) && r.value != ""
  {
    if TypeOf(v) == "string" && Truthy(Str(Trim(v.s))) then Some(Trim(v.s)) else None
  }

  /** The patch built from a body whose `Roles` is an array. */
  function BuildPatch(body: PutBody): (p: Patch)
    requires body.roles.Some?
    ensures p.roles == body.roles.value
    ensures p.employeeName == NonBlank(body.employeeName)
    ensures p.email == NonBlank(body.email)
    ensures p.skills == body.skills
  {
    var update := Patch(body.roles.value, None, None, None);
    var update := if TypeOf(body.employeeName) == "string" && Trim(body.employeeName.s) != ""
      then update.(employeeName := Some(Trim(body.employeeName.s))) else update;
    var update := if TypeOf(body.email) == "string" && Trim(body.email.s) != ""
      then update.(email := Some(Trim(body.email.s))) else update;
    if body.skills.Some? then update.(skills := body.skills) else update
  }

  /** The body's `name` field never reaches the patch. */
  lemma PatchIgnoresName(body: PutBody, other: JsVal)
    requires body.roles.Some?
    ensures BuildPatch(body) == BuildPatch(body.(name := other))
  {
  }

  /** `$set`: the patched fields replace the stored ones; the id, the
      department and every field the patch does not name are kept. */
  function Apply(e: Employee, p: Patch): (r: Employee)
    ensures r.employeeId == e.employeeId && r.department == e.department
    ensures r.roles == p.roles
    ensures r.name == (if p.employeeName.Some? then p.employeeName.value else e.name)
    ensures r.email == (if p.email.Some? then p.email.value else e.email)
    ensures r.skills == (if p.skills.Some? then p.skills.value else e.skills)
  {
    var r := e.(roles := p.roles);
    var r := if p.employeeName.Some? then r.(name := p.employeeName.value) else r;
    var r := if p.email.Some? then r.(email := p.email.value) else r;
    if p.skills.Some? then r.(skills := p.skills.value) else r
  }

  /** The unique email index admits the patched record at position `k`
      exactly when no other record holds its email. */
  predicate EmailFree(records: seq<Employee>, k: nat, email: string) {
    forall j :: 0 <= j < |records| && j != k ==> records[j].email != email
  }

  /** Validators do not run on update, so only skill entries with both
      fields keep the schema; with those, an update the unique index admits
      keeps the collection valid. */
  lemma ApplyKeepsValid(records: seq<Employee>, k: nat, body: PutBody)
    requires ValidStore(records) && k < |records| && body.roles.Some?
    requires EmailFree(records, k, Apply(records[k], BuildPatch(body)).email)
    requires body.skills.Some? ==> forall i :: 0 <= i < |body.skills.value| ==>
      body.skills.value[i].skill != "" && body.skills.value[i].level != ""
    ensures ValidStore(records[k := Apply(records[k], BuildPatch(body))])
  {
    var u := Apply(records[k], BuildPatch(body));
    var s := records[k := u];
    assert SchemaValid(u);
    assert forall i :: 0 <= i < |s| ==> s[i] == if i == k then u else records[i];
  }

  /** An update may leave a skill entry without its level: no validator
      rejects it. */
  lemma UpdateCanBreakSchema(e: Employee)
    requires SchemaValid(e)
    ensures !SchemaValid(Apply(e, Patch(e.roles, None, None, Some([SkillLevel("sk01", "")]))))
  {
    var r := Apply(e, Patch(e.roles, None, None, Some([SkillLevel("sk01", "")])));
    assert r.skills[0].level == "";
  }

  // --------------------------------------------------- the store and routes

  class EmployeeStore {
    var records: seq<Employee>

    constructor(records: seq<Employee>)
      ensures this.records == records
    {
      this.records := records;
    }

    /** `GET /employee/:id`: the first record whose id matches, or 404. */
    function GetEmployee(id: string): (r: Result<Employee, HttpError>)
      reads this
      ensures r.Ok? <==> exists j :: 0 <= j < |records| && IdMatches(records[j].employeeId, id)
      ensures r.Ok? ==> r.value == records[IndexById(records, id).value]
      ensures r.Err? ==> r.error.status == 404
    {
      var k := IndexById(records, id);
      if k.None? then Err(HttpError(404, "Employee not found")) else Ok(records[k.value])
    }

    /** `GET /employee-by-email/:email` and, projected to the id,
        `GET /employee-id-by-email/:email`: the first record whose email
        matches ignoring case, or 404. */
    function GetByEmail(email: string): (r: Result<Employee, HttpError>)
      reads this
      ensures r.Ok? <==> exists j :: 0 <= j < |records| && EmailMatches(records[j].email, email)
      ensures r.Ok? ==> r.value in records && ToLower(r.value.email) == ToLower(email)
      ensures r.Ok? ==> IndexByEmail(records, email).Some? && r.value == records[IndexByEmail(records, email).value]
      ensures r.Err? ==> r.error.status == 404
    {
      var k := IndexByEmail(records, ToLower(email));
      LowerIdempotent(email);
      EmailLookupIgnoresCase(records, email);
      if k.None? then Err(HttpError(404, "Employee not found")) else Ok(records[k.value])
    }

    /** `POST /employee_skills_levels`: the body with its id replaced by the
        next id, created when the schema and the unique indexes admit it and
        answered 500 otherwise. `top` is the record the descending id sort
        puts first. */
    method CreateEmployee(body: Employee, top: Option<Employee>) returns (r: Result<Employee, HttpError>)
      requires top.None? <==> records == []
      requires top.Some? ==> IsTop(records, top.value)
      modifies this
      ensures r.Ok? <==> Admissible(old(records), body.(employeeId := Str(NextEmployeeId(top))))
      ensures r.Ok? ==> r.value == body.(employeeId := Str(NextEmployeeId(top)))
      ensures r.Ok? ==> records == old(records) + [r.value]
      ensures r.Err? ==> r.error.status == 500 && records == old(records)
    {
      var maxId := 0;
      if top.Some? && !ToNumber(top.value.employeeId).NaN? {
        maxId := ToNumber(top.value.employeeId).value;
      }
      var newEmployee := body.(employeeId := Str(IntToString(maxId + 1)));
      assert maxId == MaxIdOf(top);
      assert newEmployee == body.(employeeId := Str(NextEmployeeId(top)));
      if !Admissible(records, newEmployee) {
        return Err(HttpError(500, "Failed to save new employee."));
      }
      records := records + [newEmployee];
      r := Ok(newEmployee);
    }

    /** `PUT /employee/:id`: 400 before any lookup when `Roles` is not an
        array; 404 when no record matches; 500 when the new email is held by
        another record; otherwise the first matching record is patched. */
    method UpdateEmployee(id: string, body: PutBody) returns (r: Result<Employee, HttpError>)
      modifies this
      ensures body.roles.None? ==> r == Err(HttpError(400, "Roles must be an array"))
      ensures r.Err? ==> records == old(records)
      ensures body.roles.Some? && IndexById(old(records), id).None? ==> r.Err? && r.error.status == 404
      ensures body.roles.Some? && IndexById(old(records), id).Some? ==>
        var k := IndexById(old(records), id).value;
        var updated := Apply(old(records)[k], BuildPatch(body));
        && (r.Ok? <==> EmailFree(old(records), k, updated.email))
        && (r.Ok? ==> r.value == updated && records == old(records)[k := updated])
        && (r.Err? ==> r.error.status == 500)
    {
      if body.roles.None? {
        return Err(HttpError(400, "Roles must be an array"));
      }
      var update := BuildPatch(body);
      var k := IndexById(records, id);
      if k.None? {
        return Err(HttpError(404, "Employee not found"));
      }
      var updated := Apply(records[k.value], update);
      if !EmailFree(records, k.value, updated.email) {
        return Err(HttpError(500, "Failed to save employee data"));
      }
      records := records[k.value := updated];
      r := Ok(updated);
    }

    /** `DELETE /employee/:id`: the first matching record is removed and
        returned; 404 and no change when none matches. */
    method DeleteEmployee(id: string) returns (r: Result<Employee, HttpError>)
      modifies this
      ensures r.Ok? <==> IndexById(old(records), id).Some?
      ensures r.Ok? ==>
        var k := IndexById(old(records), id).value;
        r.value == old(records)[k] && records == old(records)[..k] + old(records)[k + 1..]
      ensures r.Err? ==> r.error.status == 404 && records == old(records)
    {
      var k := IndexById(records, id);
      if k.None? {
        return Err(HttpError(404, "Employee not found"));
      }
      var i := k.value;
      r := Ok(records[i]);
      records := records[..i] + records[i + 1..];
    }
  }

  /** A deletion keeps the collection valid and drops exactly one record. */
  lemma DeleteKeepsValid(records: seq<Employee>, id: string)
    requires ValidStore(records) && IndexById(records, id).Some?
    ensures var k := IndexById(records, id).value;
      ValidStore(records[..k] + records[k + 1..]) && |records[..k] + records[k + 1..]| == |records| - 1
  {
    RemoveKeepsValid(records, IndexById(records, id).value);
  }

  // ------------------------------------------------- the id allocation bug

  /** The id "9" reads as 9, so the id after it is "10". */
  lemma NextAfterNine(e9: Employee)
    requires e9.employeeId == Str("9")
    ensures NextEmployeeId(Some(e9)) == "10"
  {
    assert IntToString(9) == "9";
    StringToNumberOfInt(9);
    assert MaxIdOf(Some(e9)) == 9;
    assert NatToDigits(10) == NatToDigits(1) + [DigitChar(0)];
  }

  /** "10" sorts before "9", character by character. */
  lemma NineSortsLast(e9: Employee, e10: Employee)
    requires e9.employeeId == Str("9") && e10.employeeId == Str("10")
    ensures IsTop([e9, e10], e9)
  {
    assert !StrBefore("9", "10");
    assert !StrBefore("9", "9") by { assert !StrBefore("", ""); }
  }

  /** With string ids "9" and "10" stored, the descending sort puts "9"
      first, so the next id is "10" again: the unique index rejects it and
      every later create fails. */
  lemma TopStringIdRepeats(e9: Employee, e10: Employee, body: Employee)
    requires e9.employeeId == Str("9") && e10.employeeId == Str("10")
    ensures IsTop([e9, e10], e9)
    ensures NextEmployeeId(Some(e9)) == "10"
    ensures !Admissible([e9, e10], body.(employeeId := Str(NextEmployeeId(Some(e9)))))
  {
    NineSortsLast(e9, e10);
    NextAfterNine(e9);
    assert [e9, e10][1].employeeId == Str("10");
  }

  /** The largest id among the records that reads as a number, at least 0. */
  function MaxNumericId(records: seq<Employee>): (m: int)
    ensures m >= 0
    ensures forall i :: 0 <= i < |records| && ToNumber(records[i].employeeId).Int? ==>
      ToNumber(records[i].employeeId).value <= m
  {
    if records == [] then 0
    else
      var rest := MaxNumericId(records[..|records| - 1]);
      assert forall i :: 0 <= i < |records| - 1 ==> records[..|records| - 1][i] == records[i];
      var last := ToNumber(records[|records| - 1].employeeId);
      if last.Int? && last.value > rest then last.value else rest
  }

  /** The id allocation the route evidently intends: one more than the
      largest numeric id in the whole collection. */
  function NextFreeId(records: seq<Employee>): string {
    IntToString(MaxNumericId(records) + 1)
  }

  /** The intended id is taken by no record, whatever the id types. */
  lemma NextFreeIdIsFresh(records: seq<Employee>)
    ensures forall i :: 0 <= i < |records| ==> records[i].employeeId != Str(NextFreeId(records))
  {
    StringToNumberOfInt(MaxNumericId(records) + 1);
  }

  /** Creation with the intended allocation: it fails only on the schema or
      on a taken email, never on the id. */
  method CreateEmployeeFixed(store: EmployeeStore, body: Employee) returns (r: Result<Employee, HttpError>)
    modifies store
    ensures r.Ok? <==> (SchemaValid(body.(employeeId := Str(NextFreeId(old(store.records))))) &&
      forall i :: 0 <= i < |old(store.records)| ==> old(store.records)[i].email != body.email)
    ensures r.Ok? ==> r.value == body.(employeeId := Str(NextFreeId(old(store.records))))
    ensures r.Ok? ==> store.records == old(store.records) + [r.value]
    ensures r.Err? ==> r.error.status == 500 && store.records == old(store.records)
  {
    var maxId := 0;
    var i := 0;
    while i < |store.records|
      invariant 0 <= i <= |store.records|
      invariant maxId == MaxNumericId(store.records[..i])
    {
      assert store.records[..i + 1][..i] == store.records[..i];
      var n := ToNumber(store.records[i].employeeId);
      if n.Int? && n.value > maxId {
        maxId := n.value;
      }
      i := i + 1;
    }
    assert store.records[..|store.records|] == store.records;
    var newEmployee := body.(employeeId := Str(IntToString(maxId + 1)));
    assert newEmployee.employeeId == Str(NextFreeId(store.records));
    NextFreeIdIsFresh(store.records);
    if !Admissible(store.records, newEmployee) {
      return Err(HttpError(500, "Failed to save new employee."));
    }
    store.records := store.records + [newEmployee];
    r := Ok(newEmployee);
  }
}
