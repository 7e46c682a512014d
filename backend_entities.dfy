/** The entity routes of backend/routes/entityRoutes.js: the input checks of
    `POST /retest-allow` and `POST /competency_map`, the allocation of a new
    skill code in `POST /skills`, and the role list of `GET /roles`. The
    database calls are replaced by their inputs and results; the skill model
    (backend/models/Skill.js) is not part of this model, so a stored code may
    be any value. */
module EntityRoutes {
  import opened Wrappers
  import opened Lists
  import opened JsText
  import opened Js

  // ------------------------------------------------------ POST /retest-allow

  /** `POST /retest-allow`: 400 when the employee id, skill or level is
      missing. The function it then calls, `setRetestAllowed`, is not
      exported by the sheets module, so calling it throws and every
      complete request gets a 500 response. */
  function RetestAllow(employeeId: JsVal, skill: JsVal, level: JsVal): (r: Result<bool, HttpError>)
    ensures r.Err?
    ensures r.error.status == 400 <==> !Truthy(employeeId) || !Truthy(skill) || !Truthy(level)
    ensures r.error.status == 400 || r.error.status == 500
  {
    if !Truthy(employeeId) || !Truthy(skill) || !Truthy(level) then
      Err(HttpError(400, "Missing employee_id, skill, or level"))
    else
      Err(HttpError(500, "TypeError: setRetestAllowed is not a function"))
  }

  // ------------------------------------------------------------- POST /skills

  /** The number `n` of a code of the form `sk<digits>` (the pattern
      `^sk(\d+)$`), or None for any other code. */
  function SkillNumber(code: string): (r: Option<nat>)
    ensures r.Some? <==> |code| > 2 && code[..2] == "sk" && AllDigits(code[2..])
  {
    if |code| > 2 && code[..2] == "sk" && AllDigits(code[2..]) then Some(DigitsValue(code[2..])) else None
  }

  /** The largest number among the codes that have one, 0 when none do. */
  function MaxSkillNumber(codes: seq<JsVal>): nat {
    if codes == [] then 0
    else
      var rest := MaxSkillNumber(codes[..|codes| - 1]);
      var last := SkillNumber(ToStr(codes[|codes| - 1]));
      if last.Some? && last.value > rest then last.value else rest
  }

  /** The maximum bounds the number of every code that has one, and it is
      0 or the number of one of them. */
  lemma {:induction false} MaxSkillNumberIsMax(codes: seq<JsVal>)
    ensures forall i :: 0 <= i < |codes| && SkillNumber(ToStr(codes[i])).Some? ==>
      SkillNumber(ToStr(codes[i])).value <= MaxSkillNumber(codes)
    ensures MaxSkillNumber(codes) == 0 ||
      exists i :: 0 <= i < |codes| && SkillNumber(ToStr(codes[i])) == Some(MaxSkillNumber(codes))
  {
    if codes != [] {
      var init := codes[..|codes| - 1];
      MaxSkillNumberIsMax(init);
      assert forall i :: 0 <= i < |init| ==> init[i] == codes[i];
      var m := MaxSkillNumber(init);
      var last := SkillNumber(ToStr(codes[|codes| - 1]));
      if !(last.Some? && last.value > m) && m != 0 {
        var i :| 0 <= i < |init| && SkillNumber(ToStr(init[i])) == Some(m);
        assert SkillNumber(ToStr(codes[i])) == Some(m);
      }
    }
  }

  /** One more stored code is one more comparison. */
  lemma MaxPrefix(codes: seq<JsVal>, i: nat)
    requires i < |codes|
    ensures var m := SkillNumber(ToStr(codes[i]));
      MaxSkillNumber(codes[..i + 1]) ==
        if m.Some? && m.value > MaxSkillNumber(codes[..i]) then m.value else MaxSkillNumber(codes[..i])
  {
    assert codes[..i + 1][..i] == codes[..i];
  }

  /** `sk` followed by the number, padded with zeros to two digits. */
  function SkillCode(n: nat): (code: string)
    ensures |code| >= 4 && code[..2] == "sk"
  {
    "sk" + PadStart(IntToString(n), 2, '0')
  }

  /** A generated code reads back as its number: padding only prepends
      zeros. */
  lemma {:induction false} SkillCodeNumber(n: nat)
    ensures SkillNumber(SkillCode(n)) == Some(n)
  {
    var s := IntToString(n);
    var p := PadStart(s, 2, '0');
    var z := p[..|p| - |s|];
    assert p == z + s;
    DigitsRoundTrip(n);
    LeadingZeros(z, s);
    assert SkillCode(n)[2..] == p;
  }

  /** The padding never truncates: the number is printed in full. */
  lemma SkillCodeKeepsDigits(n: nat)
    ensures SkillCode(n)[|SkillCode(n)| - |IntToString(n)|..] == IntToString(n)
    ensures n >= 10 ==> SkillCode(n) == "sk" + IntToString(n)
  {
    if n >= 10 {
      assert |IntToString(n)| >= 2 by {
        assert IntToString(n) == NatToDigits(n / 10) + [DigitChar(n % 10)];
      }
    }
  }

  /** The code chosen for a new skill given the stored codes. */
  function NewSkillCode(codes: seq<JsVal>): string {
    SkillCode(MaxSkillNumber(codes) + 1)
  }

  /** The new code reads back as one more than the largest stored number. */
  lemma NewSkillCodeNumber(codes: seq<JsVal>)
    ensures SkillNumber(NewSkillCode(codes)) == Some(MaxSkillNumber(codes) + 1)
  {
    SkillCodeNumber(MaxSkillNumber(codes) + 1);
  }

  /** The new code is fresh: its number exceeds every stored number, so it
      differs from every stored code. */
  lemma NewSkillCodeIsFresh(codes: seq<JsVal>)
    ensures forall i :: 0 <= i < |codes| ==> ToStr(codes[i]) != NewSkillCode(codes)
  {
    NewSkillCodeNumber(codes);
    MaxSkillNumberIsMax(codes);
    AboveAllIsFresh(codes, NewSkillCode(codes), MaxSkillNumber(codes));
  }

  /** A code whose number exceeds every stored number is none of them. */
  lemma AboveAllIsFresh(codes: seq<JsVal>, code: string, m: nat)
    requires SkillNumber(code) == Some(m + 1)
    requires forall i :: 0 <= i < |codes| && SkillNumber(ToStr(codes[i])).Some? ==>
      SkillNumber(ToStr(codes[i])).value <= m
    ensures forall i :: 0 <= i < |codes| ==> ToStr(codes[i]) != code
  {
    forall i | 0 <= i < |codes|
      ensures ToStr(codes[i]) != code
    {
      NumberTellsApart(ToStr(codes[i]), code);
    }
  }

  /** Codes with different numbers are different codes. */
  lemma NumberTellsApart(a: string, b: string)
    requires SkillNumber(a) != SkillNumber(b)
    ensures a != b
  {
  }

  /** With no stored code of the form `sk<digits>` the first code is sk01. */
  lemma FirstSkillCode(codes: seq<JsVal>)
    requires forall i :: 0 <= i < |codes| ==> SkillNumber(ToStr(codes[i])).None?
    ensures NewSkillCode(codes) == "sk01"
  {
    MaxSkillNumberIsMax(codes);
    assert MaxSkillNumber(codes) == 0;
    assert IntToString(1) == "1";
  }

  datatype Skill = Skill(name: string, code: string)

  /** `POST /skills` with body field `name`, given the codes of the stored
      skills: 400 unless the name is a non-empty string, otherwise the new
      skill with the next free code. */
  method PostSkill(name: JsVal, codes: seq<JsVal>) returns (r: Result<Skill, HttpError>)
    ensures r.Err? <==> !(name.Str? && name.s != "")
    ensures r.Err? ==> r.error.status == 400
    ensures r.Ok? ==> r.value == Skill(name.s, NewSkillCode(codes))
  {
    if !Truthy(name) || TypeOf(name) != "string" {
      return Err(HttpError(400, "Skill name is required."));
    }
    var maxNum := 0;
    var i := 0;
    while i < |codes|
      invariant 0 <= i <= |codes|
      invariant maxNum == MaxSkillNumber(codes[..i])
    {
      MaxPrefix(codes, i);
      var m := SkillNumber(ToStr(codes[i]));
      if m.Some? && m.value > maxNum {
        maxNum := m.value;
      }
      i := i + 1;
    }
    assert codes[..|codes|] == codes;
    return Ok(Skill(name.s, SkillCode(maxNum + 1)));
  }

  // ----------------------------------------------------- POST /competency_map

  datatype CompetencyMap = CompetencyMap(role: string, skills: JsVal)

  /** A key a Mongoose `Map` field stores (backend/models/CompetencyMap.js:5
      declares `skills` as one): not starting with "$", without ".", and not
      one of the reserved names "__proto__", "constructor", "prototype". */
  predicate MapKeyAccepted(k: string) {
    !(|k| > 0 && k[0] == '$') && '.' !in k &&
    k != "__proto__" && k != "constructor" && k != "prototype"
  }

  /** The key the `Map` constructor reads from one element of an array:
      the element's item or property "0" when it is a string. */
  function EntryKey(e: JsVal): (r: Option<string>)
    ensures r.Some? ==> (e.Arr? && |e.items| > 0 && e.items[0] == Str(r.value)) ||
                        (e.Obj? && Field(e.fields, "0") == Str(r.value))
    ensures (e.Arr? && |e.items| > 0 && e.items[0].Str?) ==> r.Some?
  {
    if e.Arr? && |e.items| > 0 && e.items[0].Str? then Some(e.items[0].s)
    else if e.Obj? && Field(e.fields, "0").Str? then Some(Field(e.fields, "0").s)
    else None
  }

  /** The `skills` value casts to the `Map` field on create: an object
      whose every key is accepted, or an array of entries whose every key
      is a string that is accepted. */
  predicate CastsToMap(skills: JsVal) {
    (skills.Obj? && forall i :: 0 <= i < |skills.fields| ==> MapKeyAccepted(skills.fields[i].0)) ||
    (skills.Arr? && forall i :: 0 <= i < |skills.items| ==>
       EntryKey(skills.items[i]).Some? && MapKeyAccepted(EntryKey(skills.items[i]).value))
  }

  /** `POST /competency_map` given the role names already stored: 400 when
      the role or the skills are missing or the skills are not an object
      (arrays count as objects here); then the create casts the role to a
      string, which fails for objects and arrays, casts the skills to the
      `Map` field, which fails on a key it does not accept, and the unique
      index on the role rejects a name already stored; each gives 500. */
  function PostCompetencyMap(role: JsVal, skills: JsVal, storedRoles: seq<string>): (r: Result<CompetencyMap, HttpError>)
    ensures r.Ok? <==> (Truthy(role) && (skills.Obj? || skills.Arr?) && !role.Obj? && !role.Arr? &&
                        CastsToMap(skills) && ToStr(role) !in storedRoles)
    ensures r.Err? ==> (r.error.status == 400 <==> !Truthy(role) || !(skills.Obj? || skills.Arr?))
    ensures r.Err? ==> r.error.status == 400 || r.error.status == 500
    ensures r.Ok? ==> r.value == CompetencyMap(ToStr(role), skills) && r.value.role != ""
  {
    if !Truthy(role) || !Truthy(skills) || TypeOf(skills) != "object" then
      Err(HttpError(400, "Role and Skills are required."))
    else if role.Obj? || role.Arr? || !CastsToMap(skills) || ToStr(role) in storedRoles then
      Err(HttpError(500, "Failed to update competency map"))
    else
      assert ToStr(role) != "" by { NonEmptyName(role); }
      Ok(CompetencyMap(ToStr(role), skills))
  }

  /** A skill named with a dot, such as "Node.js", makes the create fail. */
  lemma DottedSkillRejected()
    ensures PostCompetencyMap(Str("Developer"), Obj([("Node.js", Str("2"))]), []).Err?
    ensures PostCompetencyMap(Str("Developer"), Obj([("Node.js", Str("2"))]), []).error.status == 500
  {
    var skills := Obj([("Node.js", Str("2"))]);
    assert "Node.js"[4] == '.';
    assert !MapKeyAccepted(skills.fields[0].0);
    assert !CastsToMap(skills);
  }

  /** A truthy primitive prints as a non-empty string. */
  lemma NonEmptyName(v: JsVal)
    requires Truthy(v) && !v.Obj? && !v.Arr?
    ensures ToStr(v) != ""
  {
    if v.Num? {
      assert |NatToDigits(if v.n < 0 then -v.n else v.n)| > 0;
    }
  }

  // ---------------------------------------------------------------- GET /roles

  /** `roles.filter(Boolean)`. */
  function TruthyOnly(xs: seq<JsVal>): (r: seq<JsVal>)
    ensures forall x :: x in r <==> x in xs && Truthy(x)
    ensures |r| <= |xs|
    ensures (forall i, j :: 0 <= i < j < |xs| ==> xs[i] != xs[j]) ==>
      forall i, j :: 0 <= i < j < |r| ==> r[i] != r[j]
  {
    if xs == [] then []
    else
      var rest := TruthyOnly(xs[1..]);
      assert forall x :: x in xs <==> x == xs[0] || x in xs[1..];
      if Truthy(xs[0]) then [xs[0]] + rest else rest
  }

  /** `GET /roles`: every role named by some map, once, without the empty
      ones. */
  function Roles(storedRoles: seq<JsVal>): (r: seq<JsVal>)
    ensures forall x :: x in r <==> x in storedRoles && Truthy(x)
    ensures forall i, j :: 0 <= i < j < |r| ==> r[i] != r[j]
  {
    TruthyOnly(Distinct(storedRoles))
  }
}
