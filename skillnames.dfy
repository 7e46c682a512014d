/** `normalizeSkillName` (src/utils/skillMaps.js, repeated in
    EmployeeSkillLevelsByPosition.jsx and TestWindow.jsx): remove every line
    break, trim, then replace every run of whitespace by one space. */
module SkillNames {
  import opened JsText
  import opened Js
  import opened Dict

  /** `s.replace(/\r?\n|\r/g, "")`: every CR and LF character goes. */
  function RemoveLineBreaks(s: string): (r: string)
    ensures forall i :: 0 <= i < |r| ==> !IsLineBreak(r[i])
    ensures (forall i :: 0 <= i < |s| ==> !IsLineBreak(s[i])) ==> r == s
  {
    if s == [] then []
    else (if IsLineBreak(s[0]) then [] else [s[0]]) + RemoveLineBreaks(s[1..])
  }

  /** No whitespace character is followed by another. */
  predicate SingleSpaced(s: string) {
    forall i, j :: 0 <= i < |s| && 0 <= j < |s| && j == i + 1 && IsWhitespace(s[i]) ==> !IsWhitespace(s[j])
  }

  /** `s.replace(/\s+/g, " ")`: each maximal run of whitespace becomes a
      single space. */
  function CollapseWhitespace(s: string): (r: string)
    ensures r == [] <==> s == []
    ensures forall i :: 0 <= i < |r| && IsWhitespace(r[i]) ==> r[i] == ' '
    ensures SingleSpaced(r)
    ensures s != [] && !IsWhitespace(s[0]) ==> r[0] == s[0]
    ensures s != [] && !IsWhitespace(s[|s| - 1]) ==> !IsWhitespace(r[|r| - 1])
    decreases |s|
  {
    if s == [] then []
    else if IsWhitespace(s[0]) then
      var rest := TrimStart(s[1..]);
      assert |s| > 1 ==> s[|s| - 1] == s[1..][|s| - 2];
      var t := CollapseWhitespace(rest);
      SingleSpacedCons(' ', t);
      [' '] + t
    else
      var t := CollapseWhitespace(s[1..]);
      SingleSpacedCons(s[0], t);
      [s[0]] + t
  }

  /** A character put before a single-spaced string keeps it single-spaced
      unless both are whitespace. */
  lemma SingleSpacedCons(c: char, t: string)
    requires SingleSpaced(t)
    requires IsWhitespace(c) ==> t == [] || !IsWhitespace(t[0])
    ensures SingleSpaced([c] + t)
  {
    var s := [c] + t;
    forall i, j | 0 <= i < |s| && 0 <= j < |s| && j == i + 1 && IsWhitespace(s[i])
      ensures !IsWhitespace(s[j])
    {
      assert s[j] == t[j - 1];
      if i > 0 {
        assert s[i] == t[i - 1];
      }
    }
  }

  /** `normalizeSkillName(s)` for a string. */
  function NormalizeSkillName(s: string): string {
    CollapseWhitespace(Trim(RemoveLineBreaks(s)))
  }

  /** The shape every normalised name has: no line break, no whitespace at
      either end, and every whitespace character a single space between two
      other characters. */
  predicate IsNormalName(s: string) {
    && (forall i :: 0 <= i < |s| ==> !IsLineBreak(s[i]))
    && (s == [] || (!IsWhitespace(s[0]) && !IsWhitespace(s[|s| - 1])))
    && (forall i :: 0 <= i < |s| && IsWhitespace(s[i]) ==> s[i] == ' ')
    && SingleSpaced(s)
  }

  /** The output of `normalizeSkillName` has no CR or LF, no leading or
      trailing whitespace, and no run of more than one whitespace character. */
  lemma NormalizeGivesNormalName(s: string)
    ensures IsNormalName(NormalizeSkillName(s))
  {
    var t := Trim(RemoveLineBreaks(s));
    var r := CollapseWhitespace(t);
    forall i | 0 <= i < |r| ensures !IsLineBreak(r[i]) {
      if IsWhitespace(r[i]) {
        assert r[i] == ' ';
      }
    }
  }

  /** Collapsing leaves a string alone whose whitespace characters are all
      single spaces. */
  lemma {:induction false} CollapseSingleSpaces(s: string)
    requires forall i :: 0 <= i < |s| && IsWhitespace(s[i]) ==> s[i] == ' '
    requires SingleSpaced(s)
    ensures CollapseWhitespace(s) == s
  {
    if s != [] {
      if IsWhitespace(s[0]) {
        assert TrimStart(s[1..]) == s[1..];
      }
      CollapseSingleSpaces(s[1..]);
    }
  }

  /** A normal name is its own normalisation. */
  lemma NormalNameFixed(s: string)
    requires IsNormalName(s)
    ensures NormalizeSkillName(s) == s
  {
    assert RemoveLineBreaks(s) == s;
    TrimNoop(s);
    assert Trim(s) == s;
    CollapseSingleSpaces(s);
  }

  /** `normalizeSkillName` is idempotent. */
  lemma NormalizeIdempotent(s: string)
    ensures NormalizeSkillName(NormalizeSkillName(s)) == NormalizeSkillName(s)
  {
    NormalizeGivesNormalName(s);
    NormalNameFixed(NormalizeSkillName(s));
  }

  /** A line break between two non-whitespace characters joins them with no
      space: "a\nb" becomes "ab". */
  lemma {:induction false} LineBreakJoins(x: char, y: char, br: string)
    requires !IsWhitespace(x) && !IsWhitespace(y)
    requires br != [] && forall i :: 0 <= i < |br| ==> IsLineBreak(br[i])
    ensures NormalizeSkillName([x] + br + [y]) == [x, y]
  {
    var s := [x] + br + [y];
    assert RemoveLineBreaks(s) == [x, y] by {
      RemoveAllBreaks(br, [y]);
      assert s[1..] == br + [y];
    }
    TrimNoop([x, y]);
    CollapseSingleSpaces([x, y]);
  }

  lemma {:induction false} RemoveAllBreaks(br: string, t: string)
    requires forall i :: 0 <= i < |br| ==> IsLineBreak(br[i])
    ensures RemoveLineBreaks(br + t) == RemoveLineBreaks(t)
  {
    if br != [] {
      assert (br + t)[1..] == br[1..] + t;
      assert IsLineBreak((br + t)[0]);
      RemoveAllBreaks(br[1..], t);
    } else {
      assert br + t == t;
    }
  }

  /** The guarded variant of EmployeeSkillLevelsByPosition.jsx:
      strings are normalised, every other value comes back unchanged. */
  function NormalizeValue(v: JsVal): (r: JsVal)
    ensures !v.Str? ==> r == v
    ensures v.Str? ==> r.Str? && IsNormalName(r.s)
    ensures v.Str? ==> r == Str(NormalizeSkillName(v.s))
  {
    if Truthy(v) && v.Str? then
      NormalizeGivesNormalName(v.s);
      Str(NormalizeSkillName(v.s))
    else
      if v.Str? then
        assert v.s == "";
        assert RemoveLineBreaks("") == "";
        assert Trim("") == "";
        assert CollapseWhitespace("") == "";
        v
      else v
  }

  /** The code the pages look a skill name up by: the table's entry for the
      normalised name when it is truthy, the name itself otherwise. */
  function SkillCodeFor(nameToCode: Dict<JsVal>, skillName: string): (r: JsVal)
    ensures Truthy(r) <==> Truthy(Field(nameToCode, NormalizeSkillName(skillName))) || skillName != ""
    ensures Truthy(Field(nameToCode, NormalizeSkillName(skillName))) ==> r == Field(nameToCode, NormalizeSkillName(skillName))
    ensures !Truthy(Field(nameToCode, NormalizeSkillName(skillName))) ==> r == Str(skillName)
    ensures !HasKey(nameToCode, NormalizeSkillName(skillName)) ==> r == Str(skillName)
  {
    var key := NormalizeSkillName(skillName);
    var code := Field(nameToCode, key);
    if Truthy(code) then code
    else
      assert !HasKey(nameToCode, key) ==> code == Undefined;
      Str(skillName)
  }

  /** Two spellings of a skill that differ only in line breaks and spacing
      get the same code when the table holds one. */
  lemma SameCodeForSameName(nameToCode: Dict<JsVal>, a: string, b: string)
    requires NormalizeSkillName(a) == NormalizeSkillName(b)
    requires Truthy(Field(nameToCode, NormalizeSkillName(a)))
    ensures SkillCodeFor(nameToCode, a) == SkillCodeFor(nameToCode, b)
    ensures SkillCodeFor(nameToCode, a) == SkillCodeFor(nameToCode, NormalizeSkillName(a))
  {
    NormalizeIdempotent(a);
  }
}
