/** The union of the skills required by several roles, keeping the highest
    level per skill. The application computes it in three places with two
    different rules: the backend report (backend/utils/employeeSkills.js)
    keeps the raw level and replaces a stored level that is empty or
    numerically lower; the two employee forms (src/components/AddEmployee.jsx
    and src/components/EditEmployee.jsx) first convert a level with
    `parseInt` and replace only with a number strictly greater. */
module SkillUnion {
  import opened Wrappers
  import opened JsText
  import opened Js
  import opened Dict

  datatype Rule = Backend | Frontend

  /** The value stored for a level: the level itself in the backend;
      in the forms a number is kept, and a string becomes the integer
      `parseInt` reads from it when that is a non-zero number, or stays as it is. */
  function Stored(rule: Rule, level: JsVal): (v: JsVal)
    ensures rule.Backend? ==> v == level
    ensures v.Num? ==> level.Num? || ParseInt(ToStr(level)) == Int(v.n)
  {
    match rule
    case Backend => level
    case Frontend =>
      if level.Num? then level
      else match ParseInt(ToStr(level))
        case Int(n) => if n != 0 then Num(n) else level
        case NaN => level
  }

  /** Whether a level replaces what is stored for its skill (None when the
      skill has no entry yet). The backend replaces a falsy stored level,
      or one the new level exceeds as numbers. The forms replace only a
      missing entry, or one below a new level that became a number. */
  predicate Replaces(rule: Rule, current: Option<JsVal>, level: JsVal) {
    match rule
    case Backend =>
      current.None? || !Truthy(current.value) || Greater(ToNumber(level), ToNumber(current.value))
    case Frontend =>
      current.None? || (Stored(rule, level).Num? && Greater(Int(Stored(rule, level).n), ToNumber(current.value)))
  }

  /** One entry absorbed: its skill gets an entry, no other skill changes. */
  function Step(rule: Rule, a: Dict<JsVal>, e: (string, JsVal)): (r: Dict<JsVal>)
    ensures r == a || r == Put(a, e.0, Stored(rule, e.1))
    ensures Get(r, e.0).Some?
    ensures forall k :: k != e.0 ==> Get(r, k) == Get(a, k)
    ensures forall k :: HasKey(r, k) <==> HasKey(a, k) || k == e.0
    ensures DistinctKeys(a) ==> DistinctKeys(r)
  {
    if Replaces(rule, Get(a, e.0), e.1) then
      var r := Put(a, e.0, Stored(rule, e.1));
      assert forall k :: HasKey(r, k) <==> Get(r, k).Some?;
      assert forall k :: HasKey(a, k) <==> Get(a, k).Some?;
      r
    else a
  }

  /** The union so far after absorbing the entries of one role's map, one
      entry at a time. */
  function Absorb(rule: Rule, acc: Dict<JsVal>, entries: seq<(string, JsVal)>): Dict<JsVal>
  {
    if entries == [] then acc
    else Step(rule, Absorb(rule, acc, entries[..|entries| - 1]), entries[|entries| - 1])
  }

  /** `Object.entries(roleMaps[role] || {})`. */
  function SkillsOf(roleMaps: Dict<JsVal>, role: string): seq<(string, JsVal)> {
    Entries(Or(Field(roleMaps, role), Obj([])))
  }

  /** Absorbing one more entry of a list is one more step. */
  lemma AbsorbPrefix(rule: Rule, acc: Dict<JsVal>, es: seq<(string, JsVal)>, j: nat)
    requires j < |es|
    ensures Absorb(rule, acc, es[..j + 1]) == Step(rule, Absorb(rule, acc, es[..j]), es[j])
  {
    assert es[..j + 1][..j] == es[..j];
  }

  /** The union over the roles, in role order. */
  function UnionOf(rule: Rule, roleMaps: Dict<JsVal>, roles: seq<string>): Dict<JsVal> {
    if roles == [] then []
    else Absorb(rule, UnionOf(rule, roleMaps, roles[..|roles| - 1]), SkillsOf(roleMaps, roles[|roles| - 1]))
  }

  /** The union over one more role absorbs that role's entries. */
  lemma UnionPrefix(rule: Rule, roleMaps: Dict<JsVal>, roles: seq<string>, i: nat)
    requires i < |roles|
    ensures UnionOf(rule, roleMaps, roles[..i + 1]) ==
      Absorb(rule, UnionOf(rule, roleMaps, roles[..i]), SkillsOf(roleMaps, roles[i]))
  {
    assert roles[..i + 1][..i] == roles[..i];
  }

  /** The nested loops over the roles and over each role's entries. */
  method UnionSkills(rule: Rule, roleMaps: Dict<JsVal>, roles: seq<string>) returns (u: Dict<JsVal>)
    ensures u == UnionOf(rule, roleMaps, roles)
  {
    u := [];
    var i := 0;
    while i < |roles|
      invariant 0 <= i <= |roles|
      invariant u == UnionOf(rule, roleMaps, roles[..i])
    {
      var skills := SkillsOf(roleMaps, roles[i]);
      UnionPrefix(rule, roleMaps, roles, i);
      u := AbsorbEntries(rule, u, skills);
      i := i + 1;
    }
    assert roles[..|roles|] == roles;
  }

  /** The inner loop over one role's entries. */
  method AbsorbEntries(rule: Rule, acc: Dict<JsVal>, skills: seq<(string, JsVal)>) returns (u: Dict<JsVal>)
    ensures u == Absorb(rule, acc, skills)
  {
    u := acc;
    var j := 0;
    while j < |skills|
      invariant 0 <= j <= |skills|
      invariant u == Absorb(rule, acc, skills[..j])
    {
      var skill := skills[j].0;
      var level := skills[j].1;
      AbsorbPrefix(rule, acc, skills, j);
      if Replaces(rule, Get(u, skill), level) {
        u := Put(u, skill, Stored(rule, level));
      }
      j := j + 1;
    }
    assert skills[..|skills|] == skills;
  }

  // ------------------------------------------------------------------ keys

  /** Whether some entry names skill `k`. */
  predicate Names(es: seq<(string, JsVal)>, k: string) {
    exists j :: 0 <= j < |es| && es[j].0 == k
  }

  /** A skill has an entry after absorbing exactly when it had one before or
      some absorbed entry names it. */
  lemma {:induction false} AbsorbKeys(rule: Rule, acc: Dict<JsVal>, es: seq<(string, JsVal)>, k: string)
    ensures HasKey(Absorb(rule, acc, es), k) <==> HasKey(acc, k) || Names(es, k)
    ensures DistinctKeys(acc) ==> DistinctKeys(Absorb(rule, acc, es))
  {
    if DistinctKeys(acc) {
      AbsorbDistinct(rule, acc, es);
    }
    AbsorbHasKey(rule, acc, es, k);
  }

  /** The keys after absorbing: the old ones and the named skills. */
  lemma {:induction false} AbsorbHasKey(rule: Rule, acc: Dict<JsVal>, es: seq<(string, JsVal)>, k: string)
    ensures HasKey(Absorb(rule, acc, es), k) <==> HasKey(acc, k) || Names(es, k)
  {
    if es != [] {
      var init := es[..|es| - 1];
      var e := es[|es| - 1];
      var a := Absorb(rule, acc, init);
      AbsorbHasKey(rule, acc, init, k);
      assert Absorb(rule, acc, es) == Step(rule, a, e);
      assert HasKey(Step(rule, a, e), k) <==> HasKey(a, k) || k == e.0;
      NamesLast(es, k);
    }
  }

  /** Absorbing keeps the union free of repeated skills. */
  lemma {:induction false} AbsorbDistinct(rule: Rule, acc: Dict<JsVal>, es: seq<(string, JsVal)>)
    requires DistinctKeys(acc)
    ensures DistinctKeys(Absorb(rule, acc, es))
  {
    if es != [] {
      AbsorbDistinct(rule, acc, es[..|es| - 1]);
    }
  }

  /** A list names a skill when the entries before its last one do or the
      last one does. */
  lemma NamesLast(es: seq<(string, JsVal)>, k: string)
    requires es != []
    ensures Names(es, k) <==> Names(es[..|es| - 1], k) || es[|es| - 1].0 == k
  {
    var init := es[..|es| - 1];
    if Names(es, k) {
      var j :| 0 <= j < |es| && es[j].0 == k;
      if j < |init| {
        assert init[j].0 == k;
      }
    }
    if Names(init, k) {
      var j :| 0 <= j < |init| && init[j].0 == k;
      assert es[j].0 == k;
    }
  }

  /** Whether some role among `roles` has a map naming skill `k`. */
  predicate Required(roleMaps: Dict<JsVal>, roles: seq<string>, k: string) {
    exists i :: 0 <= i < |roles| && Names(SkillsOf(roleMaps, roles[i]), k)
  }

  /** Exactly the skills named in the maps of the given roles have an
      entry, each once; roles without a map contribute nothing. */
  lemma {:induction false} UnionKeys(rule: Rule, roleMaps: Dict<JsVal>, roles: seq<string>, k: string)
    ensures HasKey(UnionOf(rule, roleMaps, roles), k) <==> Required(roleMaps, roles, k)
    ensures DistinctKeys(UnionOf(rule, roleMaps, roles))
  {
    if roles != [] {
      var init := roles[..|roles| - 1];
      var last := roles[|roles| - 1];
      UnionKeys(rule, roleMaps, init, k);
      AbsorbKeys(rule, UnionOf(rule, roleMaps, init), SkillsOf(roleMaps, last), k);
      RequiredSnoc(roleMaps, roles, k);
    }
  }

  /** The roles with one more at the end require a skill exactly when the
      earlier roles or the last one do. */
  lemma RequiredSnoc(roleMaps: Dict<JsVal>, roles: seq<string>, k: string)
    requires roles != []
    ensures Required(roleMaps, roles, k) <==>
      Required(roleMaps, roles[..|roles| - 1], k) || Names(SkillsOf(roleMaps, roles[|roles| - 1]), k)
  {
    var init := roles[..|roles| - 1];
    if Required(roleMaps, roles, k) {
      var i :| 0 <= i < |roles| && Names(SkillsOf(roleMaps, roles[i]), k);
      if i < |init| {
        assert init[i] == roles[i];
      }
    }
    if Required(roleMaps, init, k) {
      var i :| 0 <= i < |init| && Names(SkillsOf(roleMaps, init[i]), k);
      assert init[i] == roles[i];
      assert Names(SkillsOf(roleMaps, roles[i]), k);
    }
    if Names(SkillsOf(roleMaps, roles[|roles| - 1]), k) {
      assert 0 <= |roles| - 1 < |roles|;
    }
  }

  /** A role that has no map contributes nothing. */
  lemma UnmappedRoleAddsNothing(rule: Rule, roleMaps: Dict<JsVal>, acc: Dict<JsVal>, role: string)
    requires !HasKey(roleMaps, role)
    ensures Absorb(rule, acc, SkillsOf(roleMaps, role)) == acc
  {
  }

  // ------------------------------------------------------------ max levels

  /** A level the comparison can rank: in the backend a non-empty numeric
      level, in the forms one that converts to a number. */
  predicate Ranked(rule: Rule, level: JsVal) {
    match rule
    case Backend => Truthy(level) && ToNumber(level).Int?
    case Frontend => Stored(rule, level).Num?
  }

  /** A stored value that is ranked and stays as it is when stored again. */
  predicate Settled(rule: Rule, v: JsVal) {
    Ranked(rule, v) && Stored(rule, v) == v
  }

  /** Every skill in the union holds a settled level. */
  ghost predicate AllSettled(rule: Rule, d: Dict<JsVal>) {
    forall k :: HasKey(d, k) ==> Settled(rule, Get(d, k).value)
  }

  /** The union holds the entry's skill at least at the entry's level. */
  predicate Covers(rule: Rule, u: Dict<JsVal>, e: (string, JsVal)) {
    HasKey(u, e.0) && NumberOf(Stored(rule, e.1)) <= NumberOf(Get(u, e.0).value)
  }

  /** Between ranked levels, a level replaces a stored one exactly when its
      number is strictly greater. */
  lemma ReplacesRanked(rule: Rule, current: JsVal, level: JsVal)
    requires Settled(rule, current) && Ranked(rule, level)
    ensures Replaces(rule, Some(current), level) <==> NumberOf(Stored(rule, level)) > NumberOf(current)
    ensures Settled(rule, Stored(rule, level))
  {
  }

  /** One ranked entry absorbed: no stored level drops and the entry's skill
      ends at least at the entry's level. */
  lemma StepKeepsMax(rule: Rule, a: Dict<JsVal>, e: (string, JsVal))
    requires AllSettled(rule, a) && Ranked(rule, e.1)
    ensures AllSettled(rule, Step(rule, a, e))
    ensures forall k :: HasKey(a, k) ==> NumberOf(Get(a, k).value) <= NumberOf(Get(Step(rule, a, e), k).value)
    ensures NumberOf(Stored(rule, e.1)) <= NumberOf(Get(Step(rule, a, e), e.0).value)
  {
    var r := Step(rule, a, e);
    if HasKey(a, e.0) {
      ReplacesRanked(rule, Get(a, e.0).value, e.1);
    } else {
      assert Settled(rule, Stored(rule, e.1)) by { ReplacesRanked(rule, Stored(rule, e.1), e.1); }
    }
    assert Get(r, e.0).value == Stored(rule, e.1) || Get(r, e.0) == Get(a, e.0);
  }

  /** Absorbing ranked entries never lowers a stored level and leaves each
      absorbed skill at least at the absorbed level. */
  lemma {:induction false} AbsorbKeepsMax(rule: Rule, acc: Dict<JsVal>, es: seq<(string, JsVal)>)
    requires AllSettled(rule, acc)
    requires forall j :: 0 <= j < |es| ==> Ranked(rule, es[j].1)
    ensures AllSettled(rule, Absorb(rule, acc, es))
    ensures forall k :: HasKey(acc, k) ==>
      HasKey(Absorb(rule, acc, es), k) && NumberOf(Get(acc, k).value) <= NumberOf(Get(Absorb(rule, acc, es), k).value)
    ensures forall j :: 0 <= j < |es| ==> Covers(rule, Absorb(rule, acc, es), es[j])
  {
    if es != [] {
      var init := es[..|es| - 1];
      var e := es[|es| - 1];
      assert forall j :: 0 <= j < |init| ==> init[j] == es[j];
      AbsorbKeepsMax(rule, acc, init);
      var a := Absorb(rule, acc, init);
      var r := Step(rule, a, e);
      assert Absorb(rule, acc, es) == r;
      StepKeepsMax(rule, a, e);
      forall j | 0 <= j < |es|
        ensures Covers(rule, r, es[j])
      {
        if j < |init| {
          assert HasKey(a, init[j].0);
          assert NumberOf(Stored(rule, init[j].1)) <= NumberOf(Get(a, init[j].0).value);
        }
      }
    }
  }

  /** Every level in the maps of the given roles can be ranked. */
  predicate AllRanked(rule: Rule, roleMaps: Dict<JsVal>, roles: seq<string>) {
    forall i, j :: 0 <= i < |roles| && 0 <= j < |SkillsOf(roleMaps, roles[i])| ==>
      Ranked(rule, SkillsOf(roleMaps, roles[i])[j].1)
  }

  lemma AllRankedPrefix(rule: Rule, roleMaps: Dict<JsVal>, roles: seq<string>, n: nat)
    requires AllRanked(rule, roleMaps, roles) && n <= |roles|
    ensures AllRanked(rule, roleMaps, roles[..n])
  {
    assert forall i :: 0 <= i < n ==> roles[..n][i] == roles[i];
  }

  /** With ranked levels, every level the union stores is settled. */
  lemma {:induction false} UnionSettled(rule: Rule, roleMaps: Dict<JsVal>, roles: seq<string>)
    requires AllRanked(rule, roleMaps, roles)
    ensures AllSettled(rule, UnionOf(rule, roleMaps, roles))
  {
    if roles != [] {
      var n := |roles| - 1;
      AllRankedPrefix(rule, roleMaps, roles, n);
      UnionSettled(rule, roleMaps, roles[..n]);
      AbsorbKeepsMax(rule, UnionOf(rule, roleMaps, roles[..n]), SkillsOf(roleMaps, roles[n]));
    }
  }

  /** With ranked levels, the union holds each role's skill at least at
      that role's level. */
  lemma {:induction false} UnionCovers(rule: Rule, roleMaps: Dict<JsVal>, roles: seq<string>, i: nat, j: nat)
    requires AllRanked(rule, roleMaps, roles)
    requires i < |roles| && j < |SkillsOf(roleMaps, roles[i])|
    ensures Covers(rule, UnionOf(rule, roleMaps, roles), SkillsOf(roleMaps, roles[i])[j])
  {
    var n := |roles| - 1;
    var init := roles[..n];
    var prev := UnionOf(rule, roleMaps, init);
    var u := UnionOf(rule, roleMaps, roles);
    var e := SkillsOf(roleMaps, roles[i])[j];
    var lastSkills := SkillsOf(roleMaps, roles[n]);
    var v := Absorb(rule, prev, lastSkills);
    UnionLast(rule, roleMaps, roles);
    AllRankedPrefix(rule, roleMaps, roles, n);
    UnionSettled(rule, roleMaps, init);
    AbsorbKeepsMax(rule, prev, lastSkills);
    if i < n {
      assert init[i] == roles[i];
      UnionCovers(rule, roleMaps, init, i, j);
      assert HasKey(prev, e.0) && NumberOf(Stored(rule, e.1)) <= NumberOf(Get(prev, e.0).value);
      assert HasKey(v, e.0) && NumberOf(Get(prev, e.0).value) <= NumberOf(Get(v, e.0).value);
      assert Covers(rule, v, e);
    } else {
      assert i == n;
      assert Covers(rule, v, e);
    }
  }

  /** The union over roles ending in one more role absorbs that role's entries. */
  lemma UnionLast(rule: Rule, roleMaps: Dict<JsVal>, roles: seq<string>)
    requires roles != []
    ensures UnionOf(rule, roleMaps, roles) ==
      Absorb(rule, UnionOf(rule, roleMaps, roles[..|roles| - 1]), SkillsOf(roleMaps, roles[|roles| - 1]))
  {
  }

  /** Every level of a ranked skill across the roles is at most the level
      the union keeps for it: the union keeps the maximum. */
  lemma UnionIsMax(rule: Rule, roleMaps: Dict<JsVal>, roles: seq<string>)
    requires AllRanked(rule, roleMaps, roles)
    ensures AllSettled(rule, UnionOf(rule, roleMaps, roles))
    ensures forall i, j :: 0 <= i < |roles| && 0 <= j < |SkillsOf(roleMaps, roles[i])| ==>
      Covers(rule, UnionOf(rule, roleMaps, roles), SkillsOf(roleMaps, roles[i])[j])
  {
    UnionSettled(rule, roleMaps, roles);
    forall i, j | 0 <= i < |roles| && 0 <= j < |SkillsOf(roleMaps, roles[i])|
      ensures Covers(rule, UnionOf(rule, roleMaps, roles), SkillsOf(roleMaps, roles[i])[j])
    {
      UnionCovers(rule, roleMaps, roles, i, j);
    }
  }

  /** Every kept level is the stored form of a level some role requires. */
  lemma {:induction false} AbsorbOrigin(rule: Rule, acc: Dict<JsVal>, es: seq<(string, JsVal)>, k: string)
    requires HasKey(Absorb(rule, acc, es), k)
    ensures Get(Absorb(rule, acc, es), k) == Get(acc, k) ||
      exists j :: 0 <= j < |es| && es[j].0 == k && Get(Absorb(rule, acc, es), k) == Some(Stored(rule, es[j].1))
  {
    if es != [] {
      var init := es[..|es| - 1];
      var e := es[|es| - 1];
      assert forall j :: 0 <= j < |init| ==> init[j] == es[j];
      var a := Absorb(rule, acc, init);
      if Replaces(rule, Get(a, e.0), e.1) && e.0 == k {
        assert Get(Absorb(rule, acc, es), k) == Some(Stored(rule, es[|es| - 1].1));
      } else {
        assert Get(Absorb(rule, acc, es), k) == Get(a, k);
        AbsorbKeys(rule, acc, init, k);
        if HasKey(a, k) {
          AbsorbOrigin(rule, acc, init, k);
        }
      }
    }
  }

  /** Every level the union keeps comes from one of the roles' maps: the
      backend keeps the original value, the forms its converted form. */
  lemma {:induction false} UnionOrigin(rule: Rule, roleMaps: Dict<JsVal>, roles: seq<string>, k: string)
    requires HasKey(UnionOf(rule, roleMaps, roles), k)
    ensures exists i, j :: (0 <= i < |roles| && 0 <= j < |SkillsOf(roleMaps, roles[i])| &&
      SkillsOf(roleMaps, roles[i])[j].0 == k &&
      Get(UnionOf(rule, roleMaps, roles), k) == Some(Stored(rule, SkillsOf(roleMaps, roles[i])[j].1)))
  {
    var init := roles[..|roles| - 1];
    var last := roles[|roles| - 1];
    assert forall i :: 0 <= i < |init| ==> init[i] == roles[i];
    var prev := UnionOf(rule, roleMaps, init);
    AbsorbOrigin(rule, prev, SkillsOf(roleMaps, last), k);
    if Get(UnionOf(rule, roleMaps, roles), k) == Get(prev, k) {
      UnionOrigin(rule, roleMaps, init, k);
      var i, j :| 0 <= i < |init| && 0 <= j < |SkillsOf(roleMaps, init[i])| &&
        SkillsOf(roleMaps, init[i])[j].0 == k &&
        Get(prev, k) == Some(Stored(rule, SkillsOf(roleMaps, init[i])[j].1));
      assert SkillsOf(roleMaps, roles[i]) == SkillsOf(roleMaps, init[i]);
    } else {
      var j :| 0 <= j < |SkillsOf(roleMaps, last)| && SkillsOf(roleMaps, last)[j].0 == k &&
        Get(UnionOf(rule, roleMaps, roles), k) == Some(Stored(rule, SkillsOf(roleMaps, last)[j].1));
      assert SkillsOf(roleMaps, roles[|roles| - 1]) == SkillsOf(roleMaps, last);
    }
  }

  // -------------------------------------------------------- the conversion

  /** In the forms a numeric string becomes its number; a string with no
      leading number, or one reading 0, is kept as it is. */
  lemma FrontendConversion(n: int, s: string)
    requires n != 0
    requires ParseInt(s).NaN?
    ensures Stored(Frontend, Str(IntToString(n))) == Num(n)
    ensures Stored(Frontend, Str(s)) == Str(s)
    ensures Stored(Frontend, Num(n)) == Num(n)
  {
    ParseIntOfInt(n);
  }

  /** In the forms a level that does not convert to a number never displaces
      the first level seen for its skill. */
  lemma FrontendKeepsFirstNonNumber(current: JsVal, level: JsVal)
    requires !Stored(Frontend, level).Num?
    ensures !Replaces(Frontend, Some(current), level)
  {
  }

  /** In the backend an empty stored level is always replaced, whatever the
      new level is. */
  lemma BackendReplacesEmpty(current: JsVal, level: JsVal)
    requires !Truthy(current)
    ensures Replaces(Backend, Some(current), level)
  {
  }
}
