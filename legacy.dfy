/**
 * The single-exam calculator (src/utils/calculations.js): a student's CO score
 * over the questions tagged with that CO, the share of students reaching 50 on
 * CO1..CO4, and PO figures averaged over a fixed CO -> PO table.
 *
 * It differs from the attainment engine in three ways: a student attains a
 * CO at a score of exactly 50 (`>=`, where the engine counts only scores
 * strictly above its threshold), only CO1..CO4 are evaluated, and the PO table is fixed (PO1 <- CO1, PO2 <- CO2 and CO4,
 * PO9 <- CO3) with an unweighted mean instead of a mark-weighted one.
 */
module LegacyEngine {
  import opened Options
  import opened Assessments
  import opened Tables
  import Attainment

  /** A question of the exam: its label, the CO it tests and its maximum. */
  datatype Question = Question(name: string, co: string, maxMarks: real)

  const PassMark := 40.0
  const KpiThreshold := 50.0
  const DepartmentGoal := 80.0

  // ---------------------------------------------------------------------------
  // calculateCOScore

  /** `questions.filter(q => q.co === co)`, in question order. */
  function CoQuestions(qs: seq<Question>, co: string): (r: seq<Question>)
    ensures |r| <= |qs|
  {
    if |qs| == 0 then []
    else CoQuestions(qs[..|qs| - 1], co) + (if qs[|qs| - 1].co == co then [qs[|qs| - 1]] else [])
  }

  /** The filter keeps exactly the questions tagged with co. */
  lemma {:induction false} CoQuestionsMembers(qs: seq<Question>, co: string)
    ensures forall q :: q in CoQuestions(qs, co) <==> q in qs && q.co == co
  {
    if |qs| > 0 {
      CoQuestionsMembers(qs[..|qs| - 1], co);
      assert qs == qs[..|qs| - 1] + [qs[|qs| - 1]];
    }
  }

  /** The marks obtained on a list of questions; a missing or blank mark counts 0. */
  function Obtained(marks: MarksTable, id: string, qs: seq<Question>): real
  {
    if |qs| == 0 then 0.0 else Obtained(marks, id, qs[..|qs| - 1]) + MarkValue(marks, id, qs[|qs| - 1].name)
  }

  /** The summed maximum of a list of questions. */
  function MaxSum(qs: seq<Question>): real
  {
    if |qs| == 0 then 0.0 else MaxSum(qs[..|qs| - 1]) + qs[|qs| - 1].maxMarks
  }

  /** The score calculateCOScore returns. */
  function Score(marks: MarksTable, id: string, co: string, qs: seq<Question>): real
  {
    var tagged := CoQuestions(qs, co);
    if |tagged| == 0 then 0.0
    else if MaxSum(tagged) == 0.0 then 0.0
    else (Obtained(marks, id, tagged) / MaxSum(tagged)) * 100.0
  }

  method CalculateCOScore(id: string, co: string, marks: MarksTable, qs: seq<Question>) returns (score: real)
    ensures score == Score(marks, id, co, qs)
  {
    var tagged := CoQuestions(qs, co);
    if |tagged| == 0 {
      return 0.0;
    }
    var totalObtained, totalMaxMarks := 0.0, 0.0;
    for i := 0 to |tagged|
      invariant totalObtained == Obtained(marks, id, tagged[..i])
      invariant totalMaxMarks == MaxSum(tagged[..i])
    {
      assert tagged[..i + 1][..i] == tagged[..i];
      totalObtained := totalObtained + MarkValue(marks, id, tagged[i].name);
      totalMaxMarks := totalMaxMarks + tagged[i].maxMarks;
    }
    assert tagged[..|tagged|] == tagged;
    if totalMaxMarks == 0.0 {
      return 0.0;
    }
    score := (totalObtained / totalMaxMarks) * 100.0;
  }

  /** The obtained marks over every question, counting only those tagged with co. */
  function TaggedObtained(marks: MarksTable, id: string, co: string, qs: seq<Question>): real
  {
    if |qs| == 0 then 0.0
    else
      var last := qs[|qs| - 1];
      TaggedObtained(marks, id, co, qs[..|qs| - 1]) + (if last.co == co then MarkValue(marks, id, last.name) else 0.0)
  }

  /** The summed maximum over every question, counting only those tagged with co. */
  function TaggedMax(co: string, qs: seq<Question>): real
  {
    if |qs| == 0 then 0.0
    else TaggedMax(co, qs[..|qs| - 1]) + (if qs[|qs| - 1].co == co then qs[|qs| - 1].maxMarks else 0.0)
  }

  lemma {:induction false} FilteredSums(marks: MarksTable, id: string, co: string, qs: seq<Question>)
    ensures Obtained(marks, id, CoQuestions(qs, co)) == TaggedObtained(marks, id, co, qs)
    ensures MaxSum(CoQuestions(qs, co)) == TaggedMax(co, qs)
  {
    if |qs| > 0 {
      var front := qs[..|qs| - 1];
      FilteredSums(marks, id, co, front);
      var last := qs[|qs| - 1];
      var r := CoQuestions(qs, co);
      if last.co == co {
        assert r == CoQuestions(front, co) + [last];
        assert r[..|r| - 1] == CoQuestions(front, co) && r[|r| - 1] == last;
      } else {
        assert r == CoQuestions(front, co);
      }
    }
  }

  /**
   * The CO score is 100 * (sum of obtained marks) / (sum of maxima) over the
   * questions tagged with co, and 0 when no question is tagged or the maxima sum to 0.
   */
  lemma ScoreClosedForm(marks: MarksTable, id: string, co: string, qs: seq<Question>)
    ensures (forall q :: q in qs ==> q.co != co) ==> Score(marks, id, co, qs) == 0.0
    ensures (exists q :: q in qs && q.co == co) ==>
      Score(marks, id, co, qs) == Attainment.Percentage(TaggedObtained(marks, id, co, qs), TaggedMax(co, qs))
  {
    var tagged := CoQuestions(qs, co);
    FilteredSums(marks, id, co, qs);
    CoQuestionsMembers(qs, co);
    if |tagged| > 0 {
      assert tagged[0] in tagged;
      if MaxSum(tagged) != 0.0 {
        Attainment.Percent(Obtained(marks, id, tagged), MaxSum(tagged));
      }
    }
  }

  /** Marks between 0 and each question's maximum obtain between 0 and the summed maximum. */
  lemma {:induction false} ObtainedBounded(marks: MarksTable, id: string, qs: seq<Question>)
    requires forall q :: q in qs ==> 0.0 <= MarkValue(marks, id, q.name) <= q.maxMarks
    ensures 0.0 <= Obtained(marks, id, qs) <= MaxSum(qs)
  {
    if |qs| > 0 {
      ObtainedBounded(marks, id, qs[..|qs| - 1]);
      assert qs[|qs| - 1] in qs;
    }
  }

  /** With every tagged mark between 0 and its question's maximum, the score lies in [0, 100]. */
  lemma ScoreBounded(marks: MarksTable, id: string, co: string, qs: seq<Question>)
    requires forall q :: q in qs && q.co == co ==> 0.0 <= MarkValue(marks, id, q.name) <= q.maxMarks
    ensures 0.0 <= Score(marks, id, co, qs) <= 100.0
  {
    var tagged := CoQuestions(qs, co);
    CoQuestionsMembers(qs, co);
    ObtainedBounded(marks, id, tagged);
    if |tagged| > 0 && MaxSum(tagged) != 0.0 {
      Attainment.Percent(Obtained(marks, id, tagged), MaxSum(tagged));
      Attainment.PercentageBounded(Obtained(marks, id, tagged), MaxSum(tagged));
    }
  }

  // ---------------------------------------------------------------------------
  // isCOAttained and calculateCOAttainment

  /** `coScore >= KPI_THRESHOLD`: a score of exactly 50 attains. */
  predicate IsCOAttained(score: real)
  {
    score >= KpiThreshold
  }

  /** One CO's entry: the attained percentage, the counts and every student's score. */
  datatype CoResult = CoResult(percentage: real, attainedCount: nat, totalStudents: nat, studentScores: seq<real>)

  /** `students.map(s => calculateCOScore(s.id, co, marksData, questions))` */
  function Scores(students: seq<Student>, qs: seq<Question>, marks: MarksTable, co: string): (r: seq<real>)
    ensures |r| == |students|
    ensures forall i :: 0 <= i < |students| ==> r[i] == Score(marks, students[i].id, co, qs)
  {
    seq(|students|, i requires 0 <= i < |students| => Score(marks, students[i].id, co, qs))
  }

  method StudentScores(students: seq<Student>, qs: seq<Question>, marks: MarksTable, co: string) returns (scores: seq<real>)
    ensures scores == Scores(students, qs, marks, co)
  {
    scores := [];
    for i := 0 to |students|
      invariant |scores| == i
      invariant forall j :: 0 <= j < i ==> scores[j] == Score(marks, students[j].id, co, qs)
    {
      var s := CalculateCOScore(students[i].id, co, marks, qs);
      scores := scores + [s];
    }
  }

  /** How many of the first n scores attain. */
  function AttainedCount(scores: seq<real>, n: nat): nat
    requires n <= |scores|
  {
    if n == 0 then 0 else AttainedCount(scores, n - 1) + (if IsCOAttained(scores[n - 1]) then 1 else 0)
  }

  /** The positions among the first n whose score attains. */
  function AttainedIndices(scores: seq<real>, n: nat): set<nat>
    requires n <= |scores|
  {
    set i: nat | i < n && IsCOAttained(scores[i])
  }

  /** The count is the size of the filter of attaining scores, so at most n. */
  lemma {:induction false} AttainedCountIsFilter(scores: seq<real>, n: nat)
    requires n <= |scores|
    ensures AttainedCount(scores, n) == |AttainedIndices(scores, n)| <= n
  {
    if n == 0 {
      assert AttainedIndices(scores, 0) == {};
    } else {
      AttainedCountIsFilter(scores, n - 1);
      if IsCOAttained(scores[n - 1]) {
        assert AttainedIndices(scores, n) == AttainedIndices(scores, n - 1) + {n - 1};
      } else {
        assert AttainedIndices(scores, n) == AttainedIndices(scores, n - 1);
      }
    }
  }

  /** Scores of exactly 50 all attain: the threshold is inclusive. */
  lemma {:induction false} FiftyAttains(scores: seq<real>, n: nat)
    requires n <= |scores|
    requires forall i :: 0 <= i < n ==> scores[i] == 50.0
    ensures AttainedCount(scores, n) == n
  {
    if n > 0 {
      FiftyAttains(scores, n - 1);
    }
  }

  function CoResultOf(students: seq<Student>, qs: seq<Question>, marks: MarksTable, co: string): CoResult
  {
    var scores := Scores(students, qs, marks, co);
    var attained := AttainedCount(scores, |scores|);
    CoResult(Attainment.Share(attained, |students|), attained, |students|, scores)
  }

  function CoResultFn(students: seq<Student>, qs: seq<Question>, marks: MarksTable): nat -> CoResult
  {
    (k: nat) => CoResultOf(students, qs, marks, CoKey(k))
  }

  /** The CO table: CO1..CO4 only. */
  function CoAttainmentOf(students: seq<Student>, qs: seq<Question>, marks: MarksTable): map<string, CoResult>
  {
    Numbered(CoKey, CoResultFn(students, qs, marks), 4)
  }

  method CalculateCOAttainment(students: seq<Student>, qs: seq<Question>, marks: MarksTable) returns (attainment: map<string, CoResult>)
    ensures attainment == CoAttainmentOf(students, qs, marks)
  {
    attainment := map[];
    var done := 0;
    while done < 4
      invariant done <= 4
      invariant attainment == Numbered(CoKey, CoResultFn(students, qs, marks), done)
    {
      var co := CoKey(done + 1);
      var scores := StudentScores(students, qs, marks, co);
      var attained := AttainedCount(scores, |scores|);
      attainment := attainment[co := CoResult(Attainment.Share(attained, |students|), attained, |students|, scores)];
      done := done + 1;
    }
  }

  /** The CO keys the calculator evaluates. */
  function LegacyCoKeys(): set<string>
  {
    set n | 1 <= n <= 4 :: CoKey(n)
  }

  /** Exactly CO1..CO4 are evaluated, COk holding the entry for COk. */
  lemma CoAttainmentKeys(students: seq<Student>, qs: seq<Question>, marks: MarksTable)
    ensures CoAttainmentOf(students, qs, marks).Keys == LegacyCoKeys()
    ensures forall k :: 1 <= k <= 4 ==> CoAttainmentOf(students, qs, marks)[CoKey(k)] == CoResultOf(students, qs, marks, CoKey(k))
  {
    CoPrefixTable(CoResultFn(students, qs, marks), 4);
  }

  /**
   * A CO entry counts every student, lists one score per student in student
   * order, counts the attaining ones (at most all of them), and has a
   * percentage in [0, 100] that is 0 without students.
   */
  lemma CoResultFacts(students: seq<Student>, qs: seq<Question>, marks: MarksTable, co: string)
    ensures var r := CoResultOf(students, qs, marks, co);
      && r.totalStudents == |students| && |r.studentScores| == |students|
      && (forall i :: 0 <= i < |students| ==> r.studentScores[i] == Score(marks, students[i].id, co, qs))
      && r.attainedCount == |AttainedIndices(r.studentScores, |students|)| <= r.totalStudents
      && 0.0 <= r.percentage <= 100.0
      && (|students| == 0 ==> r.percentage == 0.0)
  {
    var scores := Scores(students, qs, marks, co);
    AttainedCountIsFilter(scores, |students|);
    var attained := AttainedCount(scores, |scores|);
    Attainment.ShareBounds(attained, |students|, |students|);
  }

  // ---------------------------------------------------------------------------
  // calculatePOAttainment

  /** PO_MAPPING in its key order: CO1 -> PO1, CO2 -> PO2, CO3 -> PO9, CO4 -> PO2. */
  const PoMapping: seq<(string, string)> := [("CO1", "PO1"), ("CO2", "PO2"), ("CO3", "PO9"), ("CO4", "PO2")]

  const PoNames: map<string, string> := map[
    "PO1" := "PO1 - Engineering Knowledge",
    "PO2" := "PO2 - Problem Analysis",
    "PO9" := "PO9 - Teamwork"]

  /** The COs of one PO and their percentages, in PO_MAPPING order. */
  datatype PoGroup = PoGroup(cos: seq<string>, percentages: seq<real>)

  /** `coAttainment[co]?.percentage || 0` */
  function PercentOf(coAttainment: map<string, CoResult>, co: string): real
  {
    if co in coAttainment then coAttainment[co].percentage else 0.0
  }

  /** One grouping step: the PO's group is created when missing, then CO and percentage are appended. */
  function AddToGroup(groups: map<string, PoGroup>, co: string, po: string, p: real): map<string, PoGroup>
  {
    var g := if po in groups then groups[po] else PoGroup([], []);
    groups[po := PoGroup(g.cos + [co], g.percentages + [p])]
  }

  /** The groups after the first n pairs of PO_MAPPING. */
  function Groups(coAttainment: map<string, CoResult>, n: nat): map<string, PoGroup>
    requires n <= |PoMapping|
  {
    if n == 0 then map[]
    else
      var pair := PoMapping[n - 1];
      AddToGroup(Groups(coAttainment, n - 1), pair.0, pair.1, PercentOf(coAttainment, pair.0))
  }

  /** A PO met for the first time gets a group of its one CO. */
  lemma AddToNew(groups: map<string, PoGroup>, co: string, po: string, p: real)
    requires po !in groups
    ensures AddToGroup(groups, co, po, p) == groups[po := PoGroup([co], [p])]
  {
    var g := PoGroup([], []);
    assert g.cos + [co] == [co] && g.percentages + [p] == [p];
  }

  method GroupByPo(coAttainment: map<string, CoResult>) returns (groups: map<string, PoGroup>)
    ensures groups == Groups(coAttainment, |PoMapping|)
  {
    groups := map[];
    for n := 0 to |PoMapping|
      invariant groups == Groups(coAttainment, n)
    {
      var co, po := PoMapping[n].0, PoMapping[n].1;
      if po !in groups {
        groups := groups[po := PoGroup([], [])];
      }
      groups := groups[po := PoGroup(groups[po].cos + [co], groups[po].percentages + [PercentOf(coAttainment, co)])];
    }
  }

  /** The first three pairs give each of PO1, PO2 and PO9 a group of one CO. */
  lemma FirstGroups(coAttainment: map<string, CoResult>)
    ensures Groups(coAttainment, 3) == map[
      "PO1" := PoGroup(["CO1"], [PercentOf(coAttainment, "CO1")]),
      "PO2" := PoGroup(["CO2"], [PercentOf(coAttainment, "CO2")]),
      "PO9" := PoGroup(["CO3"], [PercentOf(coAttainment, "CO3")])]
  {
    var p1, p2, p3 := PercentOf(coAttainment, "CO1"), PercentOf(coAttainment, "CO2"), PercentOf(coAttainment, "CO3");
    assert PoMapping[0] == ("CO1", "PO1") && PoMapping[1] == ("CO2", "PO2") && PoMapping[2] == ("CO3", "PO9");
    assert "PO1"[2] != "PO2"[2] && "PO1"[2] != "PO9"[2] && "PO2"[2] != "PO9"[2];
    var g0, g1 := Groups(coAttainment, 0), Groups(coAttainment, 1);
    assert g0 == map[];
    assert g1 == AddToGroup(g0, "CO1", "PO1", p1);
    AddToNew(g0, "CO1", "PO1", p1);
    var g2 := Groups(coAttainment, 2);
    assert g2 == AddToGroup(g1, "CO2", "PO2", p2);
    AddToNew(g1, "CO2", "PO2", p2);
    assert Groups(coAttainment, 3) == AddToGroup(g2, "CO3", "PO9", p3);
    AddToNew(g2, "CO3", "PO9", p3);
  }

  /** The grouping is fixed: PO1 gathers CO1, PO2 gathers CO2 then CO4, PO9 gathers CO3. */
  lemma GroupsFixed(coAttainment: map<string, CoResult>)
    ensures Groups(coAttainment, |PoMapping|) == map[
      "PO1" := PoGroup(["CO1"], [PercentOf(coAttainment, "CO1")]),
      "PO2" := PoGroup(["CO2", "CO4"], [PercentOf(coAttainment, "CO2"), PercentOf(coAttainment, "CO4")]),
      "PO9" := PoGroup(["CO3"], [PercentOf(coAttainment, "CO3")])]
  {
    FirstGroups(coAttainment);
    var p2, p4 := PercentOf(coAttainment, "CO2"), PercentOf(coAttainment, "CO4");
    assert PoMapping[3] == ("CO4", "PO2");
    assert ["CO2"] + ["CO4"] == ["CO2", "CO4"] && [p2] + [p4] == [p2, p4];
  }

  function Sum(ps: seq<real>): real
  {
    if |ps| == 0 then 0.0 else Sum(ps[..|ps| - 1]) + ps[|ps| - 1]
  }

  /** `percentages.reduce(+) / percentages.length`, or 0 for no percentages. */
  function Mean(ps: seq<real>): real
  {
    if |ps| > 0 then Sum(ps) / |ps| as real else 0.0
  }

  /** Values between lo and hi sum to between n * lo and n * hi. */
  lemma {:induction false} SumBetween(ps: seq<real>, lo: real, hi: real)
    requires forall i :: 0 <= i < |ps| ==> lo <= ps[i] <= hi
    ensures Attainment.Times(|ps| as real, lo) <= Sum(ps) <= Attainment.Times(|ps| as real, hi)
  {
    if |ps| > 0 {
      SumBetween(ps[..|ps| - 1], lo, hi);
      assert ps[|ps| - 1] == ps[..|ps|][|ps| - 1];
      Attainment.Distribute(lo, (|ps| - 1) as real, 1.0);
      Attainment.Distribute(hi, (|ps| - 1) as real, 1.0);
    }
  }

  /** The mean of values between lo and hi lies between lo and hi. */
  lemma MeanBetween(ps: seq<real>, lo: real, hi: real)
    requires |ps| > 0
    requires forall i :: 0 <= i < |ps| ==> lo <= ps[i] <= hi
    ensures lo <= Mean(ps) <= hi
  {
    SumBetween(ps, lo, hi);
    Attainment.AverageBetween(Sum(ps), |ps| as real, lo, hi,
      Attainment.Times(lo, |ps| as real), Attainment.Times(hi, |ps| as real));
  }

  /** One PO's entry: the mean percentage, its display name and its COs. */
  datatype PoResult = PoResult(percentage: real, name: Option<string>, cos: seq<string>)

  function PoResultOf(groups: map<string, PoGroup>, po: string): PoResult
    requires po in groups
  {
    PoResult(Mean(groups[po].percentages), if po in PoNames then Some(PoNames[po]) else None, groups[po].cos)
  }

  function PoAttainmentOf(coAttainment: map<string, CoResult>): map<string, PoResult>
  {
    var groups := Groups(coAttainment, |PoMapping|);
    map po | po in groups :: PoResultOf(groups, po)
  }

  method CalculatePOAttainment(coAttainment: map<string, CoResult>) returns (result: map<string, PoResult>)
    ensures result == PoAttainmentOf(coAttainment)
  {
    var groups := GroupByPo(coAttainment);
    result := map[];
    var left := groups.Keys;
    while left != {}
      invariant left <= groups.Keys
      invariant result.Keys == groups.Keys - left
      invariant forall po :: po in result ==> po in groups && result[po] == PoResultOf(groups, po)
      decreases left
    {
      var po :| po in left;
      var ps := groups[po].percentages;
      var average := if |ps| > 0 then Sum(ps) / |ps| as real else 0.0;
      result := result[po := PoResult(average, if po in PoNames then Some(PoNames[po]) else None, groups[po].cos)];
      left := left - {po};
    }
    SameMap(result, PoAttainmentOf(coAttainment));
  }

  lemma MeanOfTwo(a: real, b: real)
    ensures Mean([a]) == a && Mean([a, b]) == (a + b) / 2.0
  {
    assert [a][..0] == [];
    assert Sum([a]) == a;
    assert [a, b][..1] == [a];
    assert Sum([a, b]) == a + b;
  }

  /** The expected PO table, written out. */
  function FixedPoTable(coAttainment: map<string, CoResult>): map<string, PoResult>
  {
    map[
      "PO1" := PoResult(PercentOf(coAttainment, "CO1"), Some("PO1 - Engineering Knowledge"), ["CO1"]),
      "PO2" := PoResult((PercentOf(coAttainment, "CO2") + PercentOf(coAttainment, "CO4")) / 2.0,
        Some("PO2 - Problem Analysis"), ["CO2", "CO4"]),
      "PO9" := PoResult(PercentOf(coAttainment, "CO3"), Some("PO9 - Teamwork"), ["CO3"])]
  }

  lemma PoEntry(coAttainment: map<string, CoResult>, po: string)
    requires po in FixedPoTable(coAttainment)
    ensures po in PoAttainmentOf(coAttainment)
    ensures PoAttainmentOf(coAttainment)[po] == FixedPoTable(coAttainment)[po]
  {
    GroupsFixed(coAttainment);
    var groups := Groups(coAttainment, |PoMapping|);
    var p1, p2, p3, p4 := PercentOf(coAttainment, "CO1"), PercentOf(coAttainment, "CO2"),
      PercentOf(coAttainment, "CO3"), PercentOf(coAttainment, "CO4");
    assert PoAttainmentOf(coAttainment)[po] == PoResultOf(groups, po);
    if po == "PO1" {
      MeanOfTwo(p1, p1);
      assert PoResultOf(groups, po) == PoResult(p1, Some(PoNames["PO1"]), ["CO1"]);
    } else if po == "PO2" {
      MeanOfTwo(p2, p4);
      assert PoResultOf(groups, po) == PoResult((p2 + p4) / 2.0, Some(PoNames["PO2"]), ["CO2", "CO4"]);
    } else {
      MeanOfTwo(p3, p3);
      assert PoResultOf(groups, po) == PoResult(p3, Some(PoNames["PO9"]), ["CO3"]);
    }
  }

  /**
   * The PO table holds exactly PO1, PO2 and PO9, each with its name; PO1 and
   * PO9 take the percentage of their single CO and PO2 the plain mean of CO2 and CO4.
   */
  lemma PoAttainmentFixed(coAttainment: map<string, CoResult>)
    ensures PoAttainmentOf(coAttainment) == FixedPoTable(coAttainment)
  {
    GroupsFixed(coAttainment);
    var r, expected := PoAttainmentOf(coAttainment), FixedPoTable(coAttainment);
    assert r.Keys == expected.Keys;
    forall po | po in r
      ensures r[po] == expected[po]
    {
      PoEntry(coAttainment, po);
    }
    SameMap(r, expected);
  }

  /** A group lists at least one CO, and its i-th percentage is that of its i-th CO. */
  predicate Aligned(coAttainment: map<string, CoResult>, g: PoGroup)
  {
    && |g.percentages| == |g.cos| > 0
    && forall i :: 0 <= i < |g.cos| ==> g.percentages[i] == PercentOf(coAttainment, g.cos[i])
  }

  /** Grouping pairs every CO with its own percentage, whatever the mapping table holds. */
  lemma {:induction false} GroupsAligned(coAttainment: map<string, CoResult>, n: nat)
    requires n <= |PoMapping|
    ensures forall po :: po in Groups(coAttainment, n) ==> Aligned(coAttainment, Groups(coAttainment, n)[po])
  {
    if n > 0 {
      GroupsAligned(coAttainment, n - 1);
      var before := Groups(coAttainment, n - 1);
      var co, po := PoMapping[n - 1].0, PoMapping[n - 1].1;
      var old_ := if po in before then before[po] else PoGroup([], []);
      var g := PoGroup(old_.cos + [co], old_.percentages + [PercentOf(coAttainment, co)]);
      assert Groups(coAttainment, n) == before[po := g];
      assert forall i :: 0 <= i < |old_.cos| ==> g.cos[i] == old_.cos[i] && g.percentages[i] == old_.percentages[i];
    }
  }

  /** A PO percentage lies between the lowest and the highest percentage of its COs. */
  lemma PoBetween(coAttainment: map<string, CoResult>, po: string, lo: real, hi: real)
    requires po in PoAttainmentOf(coAttainment)
    requires forall co :: co in PoAttainmentOf(coAttainment)[po].cos ==> lo <= PercentOf(coAttainment, co) <= hi
    ensures lo <= PoAttainmentOf(coAttainment)[po].percentage <= hi
  {
    GroupsAligned(coAttainment, |PoMapping|);
    var g := Groups(coAttainment, |PoMapping|)[po];
    forall i | 0 <= i < |g.percentages|
      ensures lo <= g.percentages[i] <= hi
    {
      assert g.cos[i] in g.cos;
    }
    MeanBetween(g.percentages, lo, hi);
  }

  // ---------------------------------------------------------------------------
  // calculateAllAttainments

  datatype Constants = Constants(passMark: real, kpiThreshold: real, departmentGoal: real)

  datatype Report = Report(coAttainment: map<string, CoResult>, poAttainment: map<string, PoResult>, constants: Constants)

  function ReportOf(students: seq<Student>, qs: seq<Question>, marks: MarksTable): Report
  {
    var co := CoAttainmentOf(students, qs, marks);
    Report(co, PoAttainmentOf(co), Constants(PassMark, KpiThreshold, DepartmentGoal))
  }

  method CalculateAllAttainments(students: seq<Student>, qs: seq<Question>, marks: MarksTable) returns (r: Report)
    ensures r == ReportOf(students, qs, marks)
  {
    var co := CalculateCOAttainment(students, qs, marks);
    var po := CalculatePOAttainment(co);
    r := Report(co, po, Constants(PassMark, KpiThreshold, DepartmentGoal));
  }

  /** Every CO percentage the PO table reads lies in [0, 100]; a CO outside CO1..CO4 reads 0. */
  lemma CoPercentsBounded(students: seq<Student>, qs: seq<Question>, marks: MarksTable)
    ensures forall co :: 0.0 <= PercentOf(CoAttainmentOf(students, qs, marks), co) <= 100.0
  {
    var table := CoAttainmentOf(students, qs, marks);
    CoAttainmentKeys(students, qs, marks);
    forall co | co in table
      ensures 0.0 <= table[co].percentage <= 100.0
    {
      var k :| 1 <= k <= 4 && co == CoKey(k);
      CoResultFacts(students, qs, marks, co);
    }
  }

  /** Every CO and PO percentage of the report lies in [0, 100], and the constants are 40, 50 and 80. */
  lemma ReportBounded(students: seq<Student>, qs: seq<Question>, marks: MarksTable)
    ensures var r := ReportOf(students, qs, marks);
      && r.constants == Constants(40.0, 50.0, 80.0)
      && (forall co :: co in r.coAttainment ==> 0.0 <= r.coAttainment[co].percentage <= 100.0)
      && (forall po :: po in r.poAttainment ==> 0.0 <= r.poAttainment[po].percentage <= 100.0)
  {
    var table := CoAttainmentOf(students, qs, marks);
    CoPercentsBounded(students, qs, marks);
    assert forall co :: co in table ==> table[co].percentage == PercentOf(table, co);
    forall po | po in PoAttainmentOf(table)
      ensures 0.0 <= PoAttainmentOf(table)[po].percentage <= 100.0
    {
      PoBetween(table, po, 0.0, 100.0);
    }
  }
}
