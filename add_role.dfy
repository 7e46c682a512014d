/** The role form of src/components/AddRole.jsx: a level per skill picked in
    a table, a role name, and the `{Role, Skills}` object posted to the
    competency-map route. */
module AddRole {
  import opened Wrappers
  import opened JsText
  import opened Js
  import opened Dict
  import EntityRoutes

  /** A level the form posts: non-empty and `Number(v)` not NaN. */
  predicate Postable(level: string) {
    level != "" && StringToNumber(level).Int?
  }

  /** The `Skills` object the form posts: the entered levels, in entry order,
      keeping only those that are non-empty and read as a number. */
  function PostedSkills(levels: Dict<string>): (r: Dict<JsVal>)
    ensures forall i :: 0 <= i < |r| ==> r[i].1.Str? && Postable(r[i].1.s)
    ensures forall k, v :: (k, Str(v)) in r <==> (k, v) in levels && Postable(v)
    ensures |r| <= |levels|
  {
    if levels == [] then []
    else
      var rest := PostedSkills(levels[1..]);
      assert forall e :: e in levels <==> e == levels[0] || e in levels[1..];
      if Postable(levels[0].1) then [(levels[0].0, Str(levels[0].1))] + rest else rest
  }

  /** The posted levels keep their entry order: the levels of two runs of
      entries are posted one run after the other. */
  lemma {:induction false} PostedSkillsAppend(a: Dict<string>, b: Dict<string>)
    ensures PostedSkills(a + b) == PostedSkills(a) + PostedSkills(b)
  {
    if a == [] {
      assert a + b == b;
    } else {
      assert (a + b)[1..] == a[1..] + b;
      PostedSkillsAppend(a[1..], b);
    }
  }

  /** Filtering keeps distinct keys distinct. */
  lemma {:induction false} PostedSkillsDistinct(levels: Dict<string>)
    requires DistinctKeys(levels)
    ensures DistinctKeys(PostedSkills(levels))
  {
    if levels != [] {
      PostedSkillsDistinct(levels[1..]);
      var rest := PostedSkills(levels[1..]);
      forall i | 0 <= i < |rest| ensures rest[i].0 != levels[0].0 {
        assert (rest[i].0, rest[i].1) in rest;
        assert (rest[i].0, Str(rest[i].1.s)) in rest;
        var j :| 0 <= j < |levels[1..]| && levels[1..][j] == (rest[i].0, rest[i].1.s);
        assert levels[j + 1].0 == rest[i].0;
      }
    }
  }

  /** The object the form posts. */
  datatype RoleObj = RoleObj(role: string, skills: Dict<JsVal>)

  class AddRoleForm {
    var role: string
    var skillLevels: Dict<string>
    var message: string

    constructor()
      ensures role == "" && skillLevels == [] && message == ""
    {
      role, skillLevels, message := "", [], "";
    }

    /** The name input's change handler: the role becomes the typed text,
        and the levels and the message are unchanged. */
    method SetRole(v: string)
      modifies this
      ensures role == v
      ensures skillLevels == old(skillLevels) && message == old(message)
    {
      role := v;
    }

    /** `handleLevelChange`: one skill's level is set, every other entry is
        unchanged. */
    method HandleLevelChange(skill: string, level: string)
      modifies this
      ensures skillLevels == Put(old(skillLevels), skill, level)
      ensures Get(skillLevels, skill) == Some(level)
      ensures forall k :: k != skill ==> Get(skillLevels, k) == Get(old(skillLevels), k)
      ensures role == old(role) && message == old(message)
    {
      skillLevels := Put(skillLevels, skill, level);
    }

    /** `handleSubmit`: a blank name is refused with a message and nothing
        is posted; otherwise the trimmed name and the postable levels are
        posted, and the message reports the response. */
    method HandleSubmit(responseOk: bool) returns (posted: Option<RoleObj>)
      modifies this
      ensures posted.None? <==> Trim(old(role)) == ""
      ensures posted.None? ==> message == "Role name is required."
      ensures posted.Some? ==> posted.value == RoleObj(Trim(old(role)), PostedSkills(old(skillLevels)))
      ensures posted.Some? ==> message == if responseOk then "Role added successfully!" else "Failed to add role."
      ensures role == old(role) && skillLevels == old(skillLevels)
    {
      if Trim(role) == "" {
        message := "Role name is required.";
        return None;
      }
      posted := Some(RoleObj(Trim(role), PostedSkills(skillLevels)));
      if responseOk {
        message := "Role added successfully!";
      } else {
        message := "Failed to add role.";
      }
    }
  }

  /** Every object the form posts passes the route's input check (the name
      is non-empty and the skills are an object) and is created unless its
      name is already stored or one of its skill names is not a key the
      `Map` field accepts. */
  lemma PostedRolePassesCheck(role: string, levels: Dict<string>, storedRoles: seq<string>)
    requires Trim(role) != "" && Trim(role) !in storedRoles
    requires forall i :: 0 <= i < |levels| ==> EntityRoutes.MapKeyAccepted(levels[i].0)
    ensures var obj := RoleObj(Trim(role), PostedSkills(levels));
      EntityRoutes.PostCompetencyMap(Str(obj.role), Obj(obj.skills), storedRoles) ==
        Ok(EntityRoutes.CompetencyMap(Trim(role), Obj(PostedSkills(levels))))
  {
    var posted := PostedSkills(levels);
    forall i | 0 <= i < |posted| ensures EntityRoutes.MapKeyAccepted(posted[i].0) {
      assert (posted[i].0, Str(posted[i].1.s)) in posted;
      var j :| 0 <= j < |levels| && levels[j] == (posted[i].0, posted[i].1.s);
    }
  }

  /** A posted skill name the `Map` field refuses makes the create fail,
      so the form reports "Failed to add role.". */
  lemma PostedDottedSkillFails(storedRoles: seq<string>)
    requires "Developer" !in storedRoles
    ensures EntityRoutes.PostCompetencyMap(Str("Developer"), Obj(PostedSkills([("Node.js", "2")])), storedRoles).Err?
  {
    assert PostedSkills([("Node.js", "2")]) == [("Node.js", Str("2"))] by {
      assert StringToNumber("2").Int?;
    }
    assert "Node.js"[4] == '.';
  }
}
