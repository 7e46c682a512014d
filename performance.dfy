/** The performance page of src/components/EmployeePerformance.jsx: an
    employee's score-log rows and submitted answers, and one radar point per
    skill holding the best percentage. The two fetched responses are
    parameters; the chart itself is left out. */
module Performance {
  import opened Wrappers
  import opened Js
  import opened Dict

  /** A row of the score-log response, with the fields the page reads. */
  datatype ScoreRow = ScoreRow(employeeId: JsVal, skill: JsVal, percent: JsVal)

  /** A row of the submitted-answers response; the fields the page does not
      read are kept together. */
  datatype AnswerRow = AnswerRow(employeeId: JsVal, skill: JsVal, rest: Dict<JsVal>)

  /** A radar point: `{ skill, percent: Number(percent) }`. */
  datatype RadarPoint = RadarPoint(skill: JsVal, percent: JsNumber)

  /** The score-log rows whose employee id is strictly equal to the one entered. */
  function FilterScore(rows: seq<ScoreRow>, empId: string): (r: seq<ScoreRow>)
    ensures forall x :: x in r <==> x in rows && StrictEquals(x.employeeId, Str(empId))
    ensures |r| <= |rows|
  {
    if rows == [] then []
    else
      var rest := FilterScore(rows[1..], empId);
      assert forall x :: x in rows <==> x == rows[0] || x in rows[1..];
      if StrictEquals(rows[0].employeeId, Str(empId)) then [rows[0]] + rest else rest
  }

  /** The answer filter: the employee's rows, and only the given skill's
      when a skill id is entered. */
  predicate AnswerKept(row: AnswerRow, empId: string, skillId: string) {
    StrictEquals(row.employeeId, Str(empId)) && (skillId != "" ==> StrictEquals(row.skill, Str(skillId)))
  }

  function FilterAnswers(rows: seq<AnswerRow>, empId: string, skillId: string): (r: seq<AnswerRow>)
    ensures forall x :: x in r <==> x in rows && AnswerKept(x, empId, skillId)
    ensures |r| <= |rows|
  {
    if rows == [] then []
    else
      var rest := FilterAnswers(rows[1..], empId, skillId);
      assert forall x :: x in rows <==> x == rows[0] || x in rows[1..];
      if AnswerKept(rows[0], empId, skillId) then [rows[0]] + rest else rest
  }

  /** With no skill id entered, every answer of the employee is kept. */
  lemma NoSkillKeepsAll(rows: seq<AnswerRow>, empId: string)
    ensures forall x :: x in FilterAnswers(rows, empId, "") <==> x in rows && StrictEquals(x.employeeId, Str(empId))
  {
  }

  // ------------------------------------------------------------ best per skill

  /** The property key a row is grouped under: `skillMap[row.skill]`. */
  function KeyOf(row: ScoreRow): string {
    ToStr(row.skill)
  }

  /** The loop's test: no row kept yet for the skill, or a strictly greater
      `Number(percent)` than the kept one. */
  predicate Better(row: ScoreRow, kept: Option<ScoreRow>) {
    kept.None? || Greater(ToNumber(row.percent), ToNumber(kept.value.percent))
  }

  /** One iteration of the `forEach`. */
  function Step(m: Dict<ScoreRow>, row: ScoreRow): (r: Dict<ScoreRow>)
    ensures DistinctKeys(m) ==> DistinctKeys(r)
    ensures forall k :: HasKey(r, k) <==> HasKey(m, k) || k == KeyOf(row)
    ensures forall k :: k != KeyOf(row) ==> Get(r, k) == Get(m, k)
    ensures Get(r, KeyOf(row)) == if Better(row, Get(m, KeyOf(row))) then Some(row) else Get(m, KeyOf(row))
  {
    var r := if Better(row, Get(m, KeyOf(row))) then Put(m, KeyOf(row), row) else m;
    assert forall k :: HasKey(r, k) <==> Get(r, k).Some?;
    assert forall k :: HasKey(m, k) <==> Get(m, k).Some?;
    r
  }

  /** `skillMap` after the rows: one entry per skill, in order of first
      appearance. */
  function BestOf(rows: seq<ScoreRow>): (m: Dict<ScoreRow>)
    ensures DistinctKeys(m)
    ensures forall k :: HasKey(m, k) <==> exists i :: 0 <= i < |rows| && KeyOf(rows[i]) == k
  {
    if rows == [] then []
    else
      var init := rows[..|rows| - 1];
      assert forall i :: 0 <= i < |init| ==> init[i] == rows[i];
      Step(BestOf(init), rows[|rows| - 1])
  }

  /** Every score row's percentage is a number. */
  predicate AllNumeric(rows: seq<ScoreRow>) {
    forall i :: 0 <= i < |rows| ==> ToNumber(rows[i].percent).Int?
  }

  function PercentOf(row: ScoreRow): int
    requires ToNumber(row.percent).Int?
  {
    ToNumber(row.percent).value
  }

  /** Row `j` is the best of its skill: no row of that skill has a higher
      percentage, and every earlier row of that skill a strictly lower one. */
  predicate IsBest(rows: seq<ScoreRow>, j: nat)
    requires AllNumeric(rows)
  {
    j < |rows| &&
    forall i :: 0 <= i < |rows| && KeyOf(rows[i]) == KeyOf(rows[j]) ==>
      PercentOf(rows[i]) <= PercentOf(rows[j]) && (i < j ==> PercentOf(rows[i]) < PercentOf(rows[j]))
  }

  /** A kept row stays the best when a row of another skill, or one that
      does not beat it, is appended. */
  lemma KeepBest(rows: seq<ScoreRow>, j: nat)
    requires AllNumeric(rows) && 0 < |rows| && j < |rows| - 1
    requires AllNumeric(rows[..|rows| - 1]) && IsBest(rows[..|rows| - 1], j)
    requires KeyOf(rows[|rows| - 1]) != KeyOf(rows[j]) || PercentOf(rows[|rows| - 1]) <= PercentOf(rows[j])
    ensures IsBest(rows, j)
  {
    var init := rows[..|rows| - 1];
    forall i | 0 <= i < |rows| && KeyOf(rows[i]) == KeyOf(rows[j])
      ensures PercentOf(rows[i]) <= PercentOf(rows[j]) && (i < j ==> PercentOf(rows[i]) < PercentOf(rows[j]))
    {
      if i < |rows| - 1 {
        assert init[i] == rows[i] && init[j] == rows[j];
      }
    }
  }

  /** An appended row that beats every earlier row of its skill is the best. */
  lemma NewBest(rows: seq<ScoreRow>)
    requires AllNumeric(rows) && 0 < |rows|
    requires forall i :: 0 <= i < |rows| - 1 && KeyOf(rows[i]) == KeyOf(rows[|rows| - 1]) ==>
      PercentOf(rows[i]) < PercentOf(rows[|rows| - 1])
    ensures IsBest(rows, |rows| - 1)
  {
  }

  /** With numeric percentages, the row kept for a skill is the earliest row
      of that skill with the highest percentage. */
  lemma {:induction false} BestIsMax(rows: seq<ScoreRow>, k: string)
    requires AllNumeric(rows)
    requires HasKey(BestOf(rows), k)
    ensures exists j :: 0 <= j < |rows| && Get(BestOf(rows), k) == Some(rows[j]) && KeyOf(rows[j]) == k && IsBest(rows, j)
  {
    var n := |rows| - 1;
    var init := rows[..n];
    var last := rows[n];
    assert forall i :: 0 <= i < n ==> init[i] == rows[i];
    assert AllNumeric(init);
    var prev := BestOf(init);
    assert BestOf(rows) == Step(prev, last);
    if k != KeyOf(last) || !Better(last, Get(prev, k)) {
      assert HasKey(prev, k);
      BestIsMax(init, k);
      var j :| 0 <= j < n && Get(prev, k) == Some(init[j]) && KeyOf(init[j]) == k && IsBest(init, j);
      KeepBest(rows, j);
    } else {
      if HasKey(prev, k) {
        BestIsMax(init, k);
        var j0 :| 0 <= j0 < n && Get(prev, k) == Some(init[j0]) && KeyOf(init[j0]) == k && IsBest(init, j0);
        forall i | 0 <= i < n && KeyOf(rows[i]) == k
          ensures PercentOf(rows[i]) < PercentOf(last)
        {
          assert init[i] == rows[i];
        }
      } else {
        assert forall i :: 0 <= i < n ==> KeyOf(rows[i]) != k;
      }
      NewBest(rows);
    }
  }

  /** `Object.values(skillMap).map(...)`. */
  function RadarOf(m: Dict<ScoreRow>): (r: seq<RadarPoint>)
    ensures |r| == |m|
    ensures forall i :: 0 <= i < |m| ==> r[i] == RadarPoint(m[i].1.skill, ToNumber(m[i].1.percent))
  {
    seq(|m|, i requires 0 <= i < |m| => RadarPoint(m[i].1.skill, ToNumber(m[i].1.percent)))
  }

  /** The radar has one point per distinct skill of the rows. */
  lemma RadarOnePointPerSkill(rows: seq<ScoreRow>)
    ensures |RadarOf(BestOf(rows))| == |BestOf(rows)|
    ensures DistinctKeys(BestOf(rows))
    ensures forall k :: HasKey(BestOf(rows), k) <==> exists i :: 0 <= i < |rows| && KeyOf(rows[i]) == k
  {
  }

  /** A tie keeps the first row: two rows of one skill with the same
      percentage leave the earlier one in place. */
  lemma TieKeepsFirst(a: ScoreRow, b: ScoreRow)
    requires KeyOf(a) == KeyOf(b) && ToNumber(a.percent) == ToNumber(b.percent)
    ensures Get(BestOf([a, b]), KeyOf(a)) == Some(a)
  {
    assert [a, b][..1] == [a];
    assert [a][..0] == [];
  }

  /** The `forEach` over the employee's rows that fills `skillMap`. */
  method BestPerSkill(rows: seq<ScoreRow>) returns (skillMap: Dict<ScoreRow>)
    ensures skillMap == BestOf(rows)
  {
    skillMap := [];
    var i := 0;
    while i < |rows|
      invariant 0 <= i <= |rows|
      invariant skillMap == BestOf(rows[..i])
    {
      var row := rows[i];
      assert rows[..i + 1][..i] == rows[..i];
      ghost var before := skillMap;
      var kept := Get(skillMap, KeyOf(row));
      if kept.None? || Greater(ToNumber(row.percent), ToNumber(kept.value.percent)) {
        skillMap := Put(skillMap, KeyOf(row), row);
      }
      assert skillMap == Step(before, row);
      assert BestOf(rows[..i + 1]) == Step(BestOf(rows[..i]), row);
      i := i + 1;
    }
    assert rows[..|rows|] == rows;
  }

  // ------------------------------------------------------------ the page

  class PerformanceView {
    var empId: string
    var skillId: string
    var scoreLog: seq<ScoreRow>
    var submittedAnswers: seq<AnswerRow>
    var radarData: seq<RadarPoint>
    var loading: bool

    constructor()
      ensures empId == "" && skillId == "" && scoreLog == [] && submittedAnswers == [] && radarData == [] && !loading
    {
      empId, skillId := "", "";
      scoreLog, submittedAnswers, radarData := [], [], [];
      loading := false;
    }

    /** The employee-id input's change handler: only `empId` changes. */
    method SetEmpId(v: string)
      modifies this
      ensures empId == v && skillId == old(skillId)
      ensures scoreLog == old(scoreLog) && submittedAnswers == old(submittedAnswers)
      ensures radarData == old(radarData) && loading == old(loading)
    {
      empId := v;
    }

    /** The skill-id input's change handler: only `skillId` changes. */
    method SetSkillId(v: string)
      modifies this
      ensures skillId == v && empId == old(empId)
      ensures scoreLog == old(scoreLog) && submittedAnswers == old(submittedAnswers)
      ensures radarData == old(radarData) && loading == old(loading)
    {
      skillId := v;
    }

    /** `handleFetch` once both responses are in: nothing happens for an
        empty employee id; otherwise the three lists are replaced. */
    method HandleFetch(scoreData: seq<ScoreRow>, answersData: seq<AnswerRow>)
      modifies this
      ensures empId == old(empId) && skillId == old(skillId)
      ensures old(empId) == "" ==> (scoreLog == old(scoreLog) && submittedAnswers == old(submittedAnswers) &&
        radarData == old(radarData) && loading == old(loading))
      ensures old(empId) != "" ==> (scoreLog == FilterScore(scoreData, empId) &&
        submittedAnswers == FilterAnswers(answersData, empId, skillId) &&
        radarData == RadarOf(BestOf(scoreLog)) && !loading)
    {
      if empId == "" {
        return;
      }
      loading := true;
      var filteredScore := FilterScore(scoreData, empId);
      scoreLog := filteredScore;
      submittedAnswers := FilterAnswers(answersData, empId, skillId);
      var skillMap := BestPerSkill(filteredScore);
      radarData := RadarOf(skillMap);
      loading := false;
    }
  }
}
