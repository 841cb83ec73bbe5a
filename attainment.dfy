/**
 * The attainment engine (src/utils/comprehensiveCalculations.js): a
 * fraction-weighted CO score per student, a mark-weighted PO score per
 * student, and the class-level share of students strictly above a threshold.
 * Numbers are exact reals.
 */
module Attainment {
  import opened Options
  import opened Assessments
  import opened Tables
  import opened CoPoMapping

  // ---------------------------------------------------------------------------
  // getAllAssessments

  /** The configuration with performance's empty CO replaced by "CO2". */
  function PerformanceCo(c: Config): Config
  {
    match c.performance
    case None => c
    case Some(p) => c.(performance := Some(p.(co := if p.co == "" then "CO2" else p.co)))
  }

  /**
   * Every assessment in the order cts, midTerm, final, assignments, attendance,
   * performance, the two slots renamed and performance defaulted to CO2.
   */
  function AllAssessments(c: Config): seq<Entry>
  {
    Entries(PerformanceCo(c))
  }

  /** The same list as the shared assessment list, except that an unassigned performance entry gets CO2. */
  function CoDefault(e: Entry): Entry
  {
    if e.family == Performance && e.co == "" then e.(co := "CO2") else e
  }

  lemma AllAssessmentsDefault(c: Config)
    ensures |AllAssessments(c)| == |Entries(c)|
    ensures forall i :: 0 <= i < |Entries(c)| ==> AllAssessments(c)[i] == CoDefault(Entries(c)[i])
    ensures forall e :: e in AllAssessments(c) && e.family == Performance ==> e.co != ""
  {
    var front := Typed(Cts, c.cts) + Typed(MidTerm, c.midTerm) + Typed(Final, c.final)
      + Typed(Assignments, c.assignments) + Slot(Attendance, "Attendance", c.attendance);
    assert Entries(c) == front + Slot(Performance, "Performance", c.performance);
    assert AllAssessments(c) == front + Slot(Performance, "Performance", PerformanceCo(c).performance);
    assert forall e :: e in front ==> e.family != Performance;
  }

  method GetAllAssessments(c: Config) returns (all: seq<Entry>)
    ensures all == AllAssessments(c)
  {
    var pc := PerformanceCo(c);
    assert pc.cts == c.cts && pc.midTerm == c.midTerm && pc.final == c.final;
    assert pc.assignments == c.assignments && pc.attendance == c.attendance;
    all := PushAll([], Cts, c.cts);
    assert all == Typed(Cts, c.cts);
    all := PushAll(all, MidTerm, c.midTerm);
    all := PushAll(all, Final, c.final);
    all := PushAll(all, Assignments, c.assignments);
    if c.attendance.Some? {
      var a := c.attendance.value;
      all := all + [Entry(Attendance, "Attendance", a.maxMarks, a.co)];
    }
    assert all == Entries(pc)[..|all|];
    if c.performance.Some? {
      var p := c.performance.value;
      var co := if p.co == "" then "CO2" else p.co;
      all := all + [Entry(Performance, "Performance", p.maxMarks, co)];
    }
  }

  // ---------------------------------------------------------------------------
  // calculateStudentCO

  /** `allAssessments.filter(a => a.co === co)` */
  function Relevant(es: seq<Entry>, co: string): seq<Entry>
  {
    if |es| == 0 then []
    else Relevant(es[..|es| - 1], co) + (if es[|es| - 1].co == co then [es[|es| - 1]] else [])
  }

  /** The filter keeps exactly the entries of that CO. */
  lemma {:induction false} RelevantMembers(es: seq<Entry>, co: string)
    ensures forall e :: e in Relevant(es, co) <==> e in es && e.co == co
  {
    if |es| > 0 {
      RelevantMembers(es[..|es| - 1], co);
      assert es == es[..|es| - 1] + [es[|es| - 1]];
    }
  }

  /** T for a CO: the summed maximum marks of its assessments. */
  function CoMaxMarks(c: Config, co: string): real
  {
    MaxTotal(Relevant(AllAssessments(c), co))
  }

  /** The stand-in divisor for an assessment whose maximum is 0. */
  const Epsilon: real := 0.00000001

  /** One assessment's share: (mark / max, or / 1e-8 when max is 0) * (max / T). */
  function CoTerm(marks: MarksTable, id: string, e: Entry, total: real): real
    requires total != 0.0
  {
    (MarkValue(marks, id, KeyOf(e)) / (if e.maxMarks == 0.0 then Epsilon else e.maxMarks)) * (e.maxMarks / total)
  }

  function CoSum(marks: MarksTable, id: string, es: seq<Entry>, total: real): real
    requires total != 0.0
  {
    if |es| == 0 then 0.0 else CoSum(marks, id, es[..|es| - 1], total) + CoTerm(marks, id, es[|es| - 1], total)
  }

  /** `calculateStudentCO(id, co, marks, assessments)` */
  function StudentCOOf(marks: MarksTable, id: string, c: Config, co: string): real
  {
    var rel := Relevant(AllAssessments(c), co);
    if |rel| == 0 then 0.0
    else
      var total := MaxTotal(rel);
      if total == 0.0 then 0.0 else CoSum(marks, id, rel, total) * 100.0
  }

  method CalculateStudentCO(id: string, co: string, marks: MarksTable, c: Config) returns (score: real)
    ensures score == StudentCOOf(marks, id, c, co)
  {
    var all := GetAllAssessments(c);
    var rel := Relevant(all, co);
    if |rel| == 0 {
      return 0.0;
    }
    var total := MaxTotal(rel);
    if total == 0.0 {
      return 0.0;
    }
    var pct := CoPercentage(marks, id, rel, total);
    score := pct * 100.0;
  }

  /** The `forEach` accumulating `coPercentage`. */
  method CoPercentage(marks: MarksTable, id: string, rel: seq<Entry>, total: real) returns (pct: real)
    requires total != 0.0
    ensures pct == CoSum(marks, id, rel, total)
  {
    pct := 0.0;
    var i := 0;
    while i < |rel|
      invariant 0 <= i <= |rel|
      invariant pct == CoSum(marks, id, rel[..i], total)
    {
      var e := rel[i];
      var studentMark := MarkValue(marks, id, KeyOf(e));
      var maxMarks := if e.maxMarks == 0.0 then Epsilon else e.maxMarks;
      var studentRatio := studentMark / maxMarks;
      var weight := e.maxMarks / total;
      assert rel[..i + 1][..i] == rel[..i];
      assert CoSum(marks, id, rel[..i + 1], total) == pct + CoTerm(marks, id, e, total);
      pct := pct + studentRatio * weight;
      i := i + 1;
    }
    assert rel[..|rel|] == rel;
  }

  /** The marks obtained on the assessments with a nonzero maximum. */
  function MarkSum(marks: MarksTable, id: string, es: seq<Entry>): real
  {
    if |es| == 0 then 0.0
    else
      var e := es[|es| - 1];
      MarkSum(marks, id, es[..|es| - 1]) + (if e.maxMarks != 0.0 then MarkValue(marks, id, KeyOf(e)) else 0.0)
  }

  lemma TermClosedForm(marks: MarksTable, id: string, e: Entry, total: real)
    requires total != 0.0
    ensures CoTerm(marks, id, e, total) == (if e.maxMarks != 0.0 then MarkValue(marks, id, KeyOf(e)) else 0.0) / total
  {
    var m := MarkValue(marks, id, KeyOf(e));
    if e.maxMarks != 0.0 {
      CancelMax(m, e.maxMarks, total);
    } else {
      ZeroWeight(m / Epsilon, total);
    }
  }

  lemma CancelMax(m: real, x: real, t: real)
    requires x != 0.0 && t != 0.0
    ensures (m / x) * (x / t) == m / t
  {
    calc {
      (m / x) * (x / t);
      (m * x) / (x * t);
      m / t;
    }
  }

  lemma ZeroWeight(r: real, t: real)
    requires t != 0.0
    ensures r * (0.0 / t) == 0.0 / t
  {
  }

  lemma AddOver(a: real, b: real, t: real)
    requires t != 0.0
    ensures a / t + b / t == (a + b) / t
  {
  }

  lemma {:induction false} CoSumClosedForm(marks: MarksTable, id: string, es: seq<Entry>, total: real)
    requires total != 0.0
    ensures CoSum(marks, id, es, total) == MarkSum(marks, id, es) / total
  {
    if |es| > 0 {
      var front, e := es[..|es| - 1], es[|es| - 1];
      CoSumClosedForm(marks, id, front, total);
      TermClosedForm(marks, id, e, total);
      var x := if e.maxMarks != 0.0 then MarkValue(marks, id, KeyOf(e)) else 0.0;
      AddOver(MarkSum(marks, id, front), x, total);
    } else {
      assert 0.0 / total == 0.0;
    }
  }

  /** 100 * s / t, or 0 when t is 0. */
  function Percentage(s: real, t: real): real
  {
    if t == 0.0 then 0.0 else 100.0 * s / t
  }

  lemma Percent(a: real, t: real)
    requires t != 0.0
    ensures (a / t) * 100.0 == Percentage(a, t)
  {
  }

  /**
   * A CO score is 100 * (marks obtained) / T, summed over the CO's assessments
   * with a nonzero maximum, and 0 when T is 0 (in particular when no assessment
   * carries the CO): an assessment with maximum 0 adds nothing, 1e-8 or not.
   */
  lemma StudentCOClosedForm(marks: MarksTable, id: string, c: Config, co: string)
    ensures StudentCOOf(marks, id, c, co) == Percentage(MarkSum(marks, id, Relevant(AllAssessments(c), co)), CoMaxMarks(c, co))
  {
    var rel := Relevant(AllAssessments(c), co);
    var t := CoMaxMarks(c, co);
    if t != 0.0 {
      assert |rel| != 0;
      CoSumClosedForm(marks, id, rel, t);
      Percent(MarkSum(marks, id, rel), t);
    }
  }

  lemma {:induction false} MarkSumBounded(marks: MarksTable, id: string, es: seq<Entry>)
    requires forall e :: e in es ==> 0.0 <= MarkValue(marks, id, KeyOf(e)) <= e.maxMarks
    ensures 0.0 <= MarkSum(marks, id, es) <= MaxTotal(es)
  {
    if |es| > 0 {
      assert forall e :: e in es[..|es| - 1] ==> e in es;
      MarkSumBounded(marks, id, es[..|es| - 1]);
      assert es[|es| - 1] in es;
    }
  }

  lemma PercentageBounded(s: real, t: real)
    requires 0.0 <= s <= t
    ensures 0.0 <= Percentage(s, t) <= 100.0
  {
    if t != 0.0 {
      DivideBelow(100.0 * s, 100.0 * t, t);
      assert 100.0 * t / t == 100.0;
    }
  }

  lemma DivideBelow(a: real, b: real, t: real)
    requires 0.0 <= a <= b && t > 0.0
    ensures 0.0 <= a / t <= b / t
  {
  }

  /** With every mark between 0 and its assessment's maximum, the CO score lies in [0, 100]. */
  lemma StudentCOBounded(marks: MarksTable, id: string, c: Config, co: string)
    requires forall e :: e in AllAssessments(c) && e.co == co ==> 0.0 <= MarkValue(marks, id, KeyOf(e)) <= e.maxMarks
    ensures 0.0 <= StudentCOOf(marks, id, c, co) <= 100.0
  {
    var rel := Relevant(AllAssessments(c), co);
    RelevantMembers(AllAssessments(c), co);
    forall e | e in rel
      ensures 0.0 <= MarkValue(marks, id, KeyOf(e)) <= e.maxMarks
    {
    }
    MarkSumBounded(marks, id, rel);
    StudentCOClosedForm(marks, id, c, co);
    PercentageBounded(MarkSum(marks, id, rel), CoMaxMarks(c, co));
  }

  /** Scores are not clamped: 20 out of 10 on the only CO1 assessment gives 200. */
  lemma StudentCONotClamped()
    ensures StudentCOOf(map["s" := map[MarkKey(Cts, "CT-1") := Score(20.0)]], "s",
                        Config([Assessment("CT-1", 10.0, "CO1")], [], [], [], None, None), "CO1") == 200.0
  {
    var marks := map["s" := map[MarkKey(Cts, "CT-1") := Score(20.0)]];
    var c := Config([Assessment("CT-1", 10.0, "CO1")], [], [], [], None, None);
    NotClampedSums(marks, c);
    StudentCOClosedForm(marks, "s", c, "CO1");
    assert Percentage(20.0, 10.0) == 200.0;
  }

  lemma NotClampedSums(marks: MarksTable, c: Config)
    requires marks == map["s" := map[MarkKey(Cts, "CT-1") := Score(20.0)]]
    requires c == Config([Assessment("CT-1", 10.0, "CO1")], [], [], [], None, None)
    ensures MarkSum(marks, "s", Relevant(AllAssessments(c), "CO1")) == 20.0
    ensures CoMaxMarks(c, "CO1") == 10.0
  {
    var e := Entry(Cts, "CT-1", 10.0, "CO1");
    SingleTestRelevant(c, e);
    assert MarkValue(marks, "s", KeyOf(e)) == 20.0;
  }

  lemma SingleTestRelevant(c: Config, e: Entry)
    requires c == Config([Assessment("CT-1", 10.0, "CO1")], [], [], [], None, None)
    requires e == Entry(Cts, "CT-1", 10.0, "CO1")
    ensures Relevant(AllAssessments(c), "CO1") == [e]
  {
    assert Typed(Cts, c.cts) == [e];
    assert AllAssessments(c) == [e];
    assert [e][..0] == [];
  }

  // ---------------------------------------------------------------------------
  // calculateStudentPO

  /** `studentCOs[co] || 0` */
  function CoScore(cos: map<string, real>, co: string): real
  {
    if co in cos then cos[co] else 0.0
  }

  /** Whether a linked CO counts towards a PO: its total maximum marks are positive. */
  predicate Contributes(c: Config, m: Matrix, po: string, co: string)
  {
    co in LinkedCOs(m, po, 12) && CoMaxMarks(c, co) > 0.0
  }

  /** The weight of each CO: its total maximum marks. */
  function CoWeights(c: Config): string -> real
  {
    co => CoMaxMarks(c, co)
  }

  /** `totalWeight`: the summed weights of the listed COs whose weight is positive. */
  function Weight(wt: string -> real, related: seq<string>): real
  {
    if |related| == 0 then 0.0
    else
      var w := wt(related[|related| - 1]);
      Weight(wt, related[..|related| - 1]) + (if w > 0.0 then w else 0.0)
  }

  /** `weightedSum`: each listed CO's score times its weight, over the COs whose weight is positive. */
  function WeightedSum(wt: string -> real, cos: map<string, real>, related: seq<string>): real
  {
    if |related| == 0 then 0.0
    else
      var co := related[|related| - 1];
      var w := wt(co);
      WeightedSum(wt, cos, related[..|related| - 1]) + Part(CoScore(cos, co), w)
  }

  /** One CO's share of a weighted sum: its score times its weight, or nothing when the weight is not positive. */
  function Part(s: real, w: real): real
  {
    if w > 0.0 then s * w else 0.0
  }

  /** `calculateStudentPO(id, po, assessments, coMapping, studentCOs)` */
  function StudentPOOf(c: Config, m: Matrix, po: string, cos: map<string, real>): real
  {
    var related := LinkedCOs(m, po, 12);
    if |related| == 0 then 0.0 else Average(WeightedSum(CoWeights(c), cos, related), Weight(CoWeights(c), related))
  }

  /** sum / weight, or 0 when the weight is 0. */
  function Average(sum: real, weight: real): real
  {
    if weight == 0.0 then 0.0 else sum / weight
  }

  method CalculateStudentPO(po: string, c: Config, m: Matrix, cos: map<string, real>) returns (score: real)
    ensures score == StudentPOOf(c, m, po, cos)
  {
    var related := RelatedCOs(m, po);
    if |related| == 0 {
      return 0.0;
    }
    var all := GetAllAssessments(c);
    var totalWeight, weightedSum := WeighCOs(c, all, cos, related);
    if totalWeight == 0.0 {
      return 0.0;
    }
    score := weightedSum / totalWeight;
  }

  /** The loop over CO1..CO12 collecting the COs linked to a PO. */
  method RelatedCOs(m: Matrix, po: string) returns (related: seq<string>)
    ensures related == LinkedCOs(m, po, 12)
  {
    related := [];
    var co := 1;
    while co <= 12
      invariant 1 <= co <= 13
      invariant related == LinkedCOs(m, po, co - 1)
    {
      var coKey := CoKey(co);
      if coKey in m && po in m[coKey] && m[coKey][po] == LinkNum(1.0) {
        related := related + [coKey];
      }
      co := co + 1;
    }
  }

  /** The `forEach` accumulating `weightedSum` and `totalWeight`. */
  method WeighCOs(c: Config, all: seq<Entry>, cos: map<string, real>, related: seq<string>)
    returns (totalWeight: real, weightedSum: real)
    requires all == AllAssessments(c)
    ensures totalWeight == Weight(CoWeights(c), related) && weightedSum == WeightedSum(CoWeights(c), cos, related)
  {
    totalWeight, weightedSum := 0.0, 0.0;
    var i := 0;
    while i < |related|
      invariant 0 <= i <= |related|
      invariant totalWeight == Weight(CoWeights(c), related[..i])
      invariant weightedSum == WeightedSum(CoWeights(c), cos, related[..i])
    {
      var coPercentage := CoScore(cos, related[i]);
      var coTotalMarks := MaxTotal(Relevant(all, related[i]));
      if coTotalMarks > 0.0 {
        weightedSum := weightedSum + coPercentage * coTotalMarks;
        totalWeight := totalWeight + coTotalMarks;
      }
      assert related[..i + 1][..i] == related[..i];
      i := i + 1;
    }
    assert related[..|related|] == related;
  }

  /** The total weight is positive exactly when some listed CO has positive total marks, and never negative. */
  lemma {:induction false} WeightPositive(wt: string -> real, related: seq<string>)
    ensures 0.0 <= Weight(wt, related)
    ensures (exists co :: co in related && wt(co) > 0.0) <==> Weight(wt, related) > 0.0
  {
    if |related| > 0 {
      var front, co := related[..|related| - 1], related[|related| - 1];
      assert related == front + [co];
      WeightPositive(wt, front);
    }
  }

  /** k times each positive weight, summed: k * totalWeight, accumulated term by term. */
  function ScaledWeight(wt: string -> real, related: seq<string>, k: real): real
  {
    if |related| == 0 then 0.0
    else
      var w := wt(related[|related| - 1]);
      ScaledWeight(wt, related[..|related| - 1], k) + Part(k, w)
  }

  lemma {:induction false} ScaledWeightIs(wt: string -> real, related: seq<string>, k: real)
    ensures ScaledWeight(wt, related, k) == Times(k, Weight(wt, related))
  {
    if |related| > 0 {
      var front := related[..|related| - 1];
      ScaledWeightIs(wt, front, k);
      var w := wt(related[|related| - 1]);
      if w > 0.0 {
        Distribute(k, Weight(wt, front), w);
      }
    }
  }

  function Times(k: real, w: real): real
  {
    k * w
  }

  lemma Distribute(k: real, a: real, b: real)
    ensures k * a + k * b == k * (a + b)
  {
  }

  lemma PartBetween(lo: real, hi: real, s: real, w: real)
    requires w > 0.0 ==> lo <= s <= hi
    ensures Part(lo, w) <= Part(s, w) <= Part(hi, w)
  {
  }

  /** The weighted sum lies between lo and hi times the total weight when every contributing score does. */
  lemma {:induction false} WeightedSumBounds(wt: string -> real, cos: map<string, real>, related: seq<string>, lo: real, hi: real)
    requires forall i :: 0 <= i < |related| && wt(related[i]) > 0.0 ==> lo <= CoScore(cos, related[i]) <= hi
    ensures ScaledWeight(wt, related, lo) <= WeightedSum(wt, cos, related) <= ScaledWeight(wt, related, hi)
  {
    if |related| > 0 {
      var n := |related| - 1;
      WeightedSumBounds(wt, cos, related[..n], lo, hi);
      PartBetween(lo, hi, CoScore(cos, related[n]), wt(related[n]));
    }
  }

  lemma AverageBetween(sum: real, w: real, lo: real, hi: real, low: real, high: real)
    requires w > 0.0 && low == Times(lo, w) && high == Times(hi, w) && low <= sum <= high
    ensures lo <= Average(sum, w) <= hi
  {
  }

  /**
   * A PO score lies between the lowest and the highest score of the COs that
   * contribute to it (linked by a cell holding 1, with positive total marks),
   * and is 0 when none contributes.
   */
  lemma StudentPOBetween(c: Config, m: Matrix, po: string, cos: map<string, real>, lo: real, hi: real)
    requires forall co :: Contributes(c, m, po, co) ==> lo <= CoScore(cos, co) <= hi
    ensures (exists co :: Contributes(c, m, po, co)) ==> lo <= StudentPOOf(c, m, po, cos) <= hi
    ensures (forall co :: !Contributes(c, m, po, co)) ==> StudentPOOf(c, m, po, cos) == 0.0
  {
    var related := LinkedCOs(m, po, 12);
    var wt := CoWeights(c);
    WeightPositive(wt, related);
    if Weight(wt, related) > 0.0 {
      var co :| co in related && wt(co) > 0.0;
      assert Contributes(c, m, po, co);
      forall i | 0 <= i < |related| && wt(related[i]) > 0.0
        ensures lo <= CoScore(cos, related[i]) <= hi
      {
        assert Contributes(c, m, po, related[i]);
      }
      AverageOfBounded(wt, cos, related, lo, hi);
    } else {
      forall co | Contributes(c, m, po, co)
        ensures false
      {
      }
    }
  }

  lemma AverageOfBounded(wt: string -> real, cos: map<string, real>, related: seq<string>, lo: real, hi: real)
    requires Weight(wt, related) > 0.0
    requires forall i :: 0 <= i < |related| && wt(related[i]) > 0.0 ==> lo <= CoScore(cos, related[i]) <= hi
    ensures lo <= Average(WeightedSum(wt, cos, related), Weight(wt, related)) <= hi
  {
    WeightedSumBounds(wt, cos, related, lo, hi);
    ScaledWeightIs(wt, related, lo);
    ScaledWeightIs(wt, related, hi);
    AverageBetween(WeightedSum(wt, cos, related), Weight(wt, related), lo, hi,
                   ScaledWeight(wt, related, lo), ScaledWeight(wt, related, hi));
  }

  /** The PO score reads only the cells of its own column: changing another PO's cells changes nothing. */
  lemma StudentPOReadsOwnColumn(c: Config, m: Matrix, m': Matrix, po: string, cos: map<string, real>)
    requires forall k :: 1 <= k <= 12 ==> (Linked(m, CoKey(k), po) <==> Linked(m', CoKey(k), po))
    ensures StudentPOOf(c, m, po, cos) == StudentPOOf(c, m', po, cos)
  {
    LinkedCOsAgree(m, m', po, 12);
  }

  lemma {:induction false} LinkedCOsAgree(m: Matrix, m': Matrix, po: string, n: nat)
    requires forall k :: 1 <= k <= n ==> (Linked(m, CoKey(k), po) <==> Linked(m', CoKey(k), po))
    ensures LinkedCOs(m, po, n) == LinkedCOs(m', po, n)
  {
    if n > 0 {
      LinkedCOsAgree(m, m', po, n - 1);
    }
  }

  // ---------------------------------------------------------------------------
  // calculateAllStudentCOs and calculateAllStudentPOs

  /** A score table: student id -> outcome key -> score. */
  type ScoreTable = map<string, map<string, real>>

  function CoFn(marks: MarksTable, c: Config, id: string): nat -> real
  {
    (k: nat) => StudentCOOf(marks, id, c, CoKey(k))
  }

  /** One student's CO row: COk -> that student's score for COk. */
  function CoRow(marks: MarksTable, c: Config, id: string): map<string, real>
  {
    Numbered(CoKey, CoFn(marks, c, id), 12)
  }

  /** `calculateAllStudentCOs`: every student id -> that student's CO row. */
  function StudentCOsOf(students: seq<Student>, marks: MarksTable, c: Config): ScoreTable
  {
    map id | id in Ids(students) :: CoRow(marks, c, id)
  }

  method AllStudentCOs(students: seq<Student>, marks: MarksTable, c: Config) returns (table: ScoreTable)
    ensures table == StudentCOsOf(students, marks, c)
  {
    table := map[];
    var i := 0;
    while i < |students|
      invariant 0 <= i <= |students|
      invariant table.Keys == Ids(students[..i])
      invariant forall id :: id in table ==> table[id] == CoRow(marks, c, id)
    {
      var id := students[i].id;
      var row := StudentCORow(id, marks, c);
      IdsNext(students, i);
      table := table[id := row];
      i := i + 1;
    }
    assert students[..|students|] == students;
    SameMap(table, StudentCOsOf(students, marks, c));
  }

  /** The inner loop over CO1..CO12 filling one student's row. */
  method StudentCORow(id: string, marks: MarksTable, c: Config) returns (row: map<string, real>)
    ensures row == CoRow(marks, c, id)
  {
    row := map[];
    var done := 0;
    while done < 12
      invariant 0 <= done <= 12
      invariant row == Numbered(CoKey, CoFn(marks, c, id), done)
    {
      var score := CalculateStudentCO(id, CoKey(done + 1), marks, c);
      row := row[CoKey(done + 1) := score];
      done := done + 1;
    }
  }

  /** A CO row has exactly the keys CO1..CO12, and COk holds the student's score for COk. */
  lemma CoRowFacts(marks: MarksTable, c: Config, id: string)
    ensures CoRow(marks, c, id).Keys == CoKeys()
    ensures forall k :: 1 <= k <= 12 ==> CoRow(marks, c, id)[CoKey(k)] == StudentCOOf(marks, id, c, CoKey(k))
  {
    CoTable(CoFn(marks, c, id));
  }

  /** `studentCOs[student.id]`: the student's CO row (the empty row for an id the table lacks). */
  function RowOf(table: ScoreTable, id: string): map<string, real>
  {
    if id in table then table[id] else map[]
  }

  function PoFn(c: Config, m: Matrix, cos: map<string, real>): nat -> real
  {
    (k: nat) => StudentPOOf(c, m, PoKey(k), cos)
  }

  /** One student's PO row: POk -> the PO score computed from the student's CO row. */
  function PoRow(c: Config, m: Matrix, cos: map<string, real>): map<string, real>
  {
    Numbered(PoKey, PoFn(c, m, cos), 12)
  }

  /** `calculateAllStudentPOs`: every student id -> the PO row computed from that student's CO row. */
  function StudentPOsOf(students: seq<Student>, c: Config, m: Matrix, coTable: ScoreTable): ScoreTable
  {
    map id | id in Ids(students) :: PoRow(c, m, RowOf(coTable, id))
  }

  method AllStudentPOs(students: seq<Student>, c: Config, m: Matrix, coTable: ScoreTable) returns (table: ScoreTable)
    requires Ids(students) <= coTable.Keys
    ensures table == StudentPOsOf(students, c, m, coTable)
  {
    table := map[];
    var i := 0;
    while i < |students|
      invariant 0 <= i <= |students|
      invariant table.Keys == Ids(students[..i])
      invariant forall id :: id in table ==> table[id] == PoRow(c, m, RowOf(coTable, id))
    {
      var id := students[i].id;
      assert id in Ids(students);
      var row := StudentPORow(c, m, coTable[id]);
      IdsNext(students, i);
      table := table[id := row];
      i := i + 1;
    }
    assert students[..|students|] == students;
    SameMap(table, StudentPOsOf(students, c, m, coTable));
  }

  /** The inner loop over PO1..PO12 filling one student's row. */
  method StudentPORow(c: Config, m: Matrix, cos: map<string, real>) returns (row: map<string, real>)
    ensures row == PoRow(c, m, cos)
  {
    row := map[];
    var done := 0;
    while done < 12
      invariant 0 <= done <= 12
      invariant row == Numbered(PoKey, PoFn(c, m, cos), done)
    {
      var score := CalculateStudentPO(PoKey(done + 1), c, m, cos);
      row := row[PoKey(done + 1) := score];
      done := done + 1;
    }
  }

  /** A PO row has exactly the keys PO1..PO12, and POk holds the PO score. */
  lemma PoRowFacts(c: Config, m: Matrix, cos: map<string, real>)
    ensures PoRow(c, m, cos).Keys == PoKeys()
    ensures forall k :: 1 <= k <= 12 ==> PoRow(c, m, cos)[PoKey(k)] == StudentPOOf(c, m, PoKey(k), cos)
  {
    PoTable(PoFn(c, m, cos));
  }

  /** A PO score computed from CO scores that all lie in [0, 100] lies in [0, 100]. */
  lemma StudentPOInRange(c: Config, m: Matrix, po: string, cos: map<string, real>)
    requires forall j :: 1 <= j <= 12 ==> 0.0 <= CoScore(cos, CoKey(j)) <= 100.0
    ensures 0.0 <= StudentPOOf(c, m, po, cos) <= 100.0
  {
    LinkedCOsMembers(m, po, 12);
    forall co | Contributes(c, m, po, co)
      ensures 0.0 <= CoScore(cos, co) <= 100.0
    {
      var j :| 1 <= j <= 12 && co == CoKey(j) && Linked(m, co, po);
    }
    StudentPOBetween(c, m, po, cos, 0.0, 100.0);
  }

  lemma CoRowInRange(marks: MarksTable, c: Config, id: string)
    requires forall j :: 1 <= j <= 12 ==> 0.0 <= StudentCOOf(marks, id, c, CoKey(j)) <= 100.0
    ensures forall j :: 1 <= j <= 12 ==> 0.0 <= CoScore(CoRow(marks, c, id), CoKey(j)) <= 100.0
  {
    CoRowFacts(marks, c, id);
  }

  lemma PoRowInRange(c: Config, m: Matrix, cos: map<string, real>, k: nat)
    requires 1 <= k <= 12
    requires forall j :: 1 <= j <= 12 ==> 0.0 <= CoScore(cos, CoKey(j)) <= 100.0
    ensures PoKey(k) in PoRow(c, m, cos) && 0.0 <= PoRow(c, m, cos)[PoKey(k)] <= 100.0
  {
    PoRowFacts(c, m, cos);
    StudentPOInRange(c, m, PoKey(k), cos);
  }

  /**
   * A student whose CO scores all lie in [0, 100] (for instance because every
   * mark lies between 0 and its maximum) has PO scores in [0, 100] too.
   */
  lemma StudentPOBounded(students: seq<Student>, marks: MarksTable, c: Config, m: Matrix, id: string, k: nat)
    requires 1 <= k <= 12
    requires forall j :: 1 <= j <= 12 ==> 0.0 <= StudentCOOf(marks, id, c, CoKey(j)) <= 100.0
    ensures 0.0 <= ScoreIn(StudentPOsOf(students, c, m, StudentCOsOf(students, marks, c)), id, PoKey(k)) <= 100.0
  {
    var coTable := StudentCOsOf(students, marks, c);
    var pos := StudentPOsOf(students, c, m, coTable);
    if id in pos {
      var row := CoRow(marks, c, id);
      assert RowOf(coTable, id) == row;
      CoRowInRange(marks, c, id);
      PoRowInRange(c, m, row, k);
    }
  }

  // ---------------------------------------------------------------------------
  // calculateCOAttainmentByPassMarks / ByKPI and the PO counts

  /** `table[student.id]?.[key] || 0` */
  function ScoreIn(table: ScoreTable, id: string, key: string): real
  {
    if id in table && key in table[id] then table[id][key] else 0.0
  }

  /** The number of students 0 .. n-1 whose score is strictly above the threshold. */
  function CountAbove(students: seq<Student>, table: ScoreTable, key: string, threshold: real, n: nat): nat
    requires n <= |students|
  {
    if n == 0 then 0
    else CountAbove(students, table, key, threshold, n - 1) + (if ScoreIn(table, students[n - 1].id, key) > threshold then 1 else 0)
  }

  /** The positions 0 .. n-1 of the students strictly above the threshold. */
  function AboveIndices(students: seq<Student>, table: ScoreTable, key: string, threshold: real, n: nat): set<nat>
    requires n <= |students|
  {
    set i: nat | i < n && ScoreIn(table, students[i].id, key) > threshold
  }

  /** (count / total) * 100, or 0 when there is nobody. */
  function Share(count: nat, total: nat): real
  {
    if total == 0 then 0.0 else (count as real / total as real) * 100.0
  }

  /** The share of students scoring strictly above the threshold, in percent. */
  function PercentAbove(students: seq<Student>, table: ScoreTable, key: string, threshold: real): real
  {
    Share(CountAbove(students, table, key, threshold, |students|), |students|)
  }

  /** The count is the size of the filter: the students strictly above the threshold, and at most n. */
  lemma {:induction false} CountAboveIsFilter(students: seq<Student>, table: ScoreTable, key: string, threshold: real, n: nat)
    requires n <= |students|
    ensures CountAbove(students, table, key, threshold, n) == |AboveIndices(students, table, key, threshold, n)| <= n
  {
    if n == 0 {
      assert AboveIndices(students, table, key, threshold, 0) == {};
    } else {
      CountAboveIsFilter(students, table, key, threshold, n - 1);
      var front := AboveIndices(students, table, key, threshold, n - 1);
      if ScoreIn(table, students[n - 1].id, key) > threshold {
        assert AboveIndices(students, table, key, threshold, n) == front + {n - 1};
      } else {
        assert AboveIndices(students, table, key, threshold, n) == front;
      }
    }
  }

  /** Raising the threshold never counts more students. */
  lemma {:induction false} CountAboveAntitone(students: seq<Student>, table: ScoreTable, key: string, t1: real, t2: real, n: nat)
    requires n <= |students| && t1 <= t2
    ensures CountAbove(students, table, key, t2, n) <= CountAbove(students, table, key, t1, n)
  {
    if n > 0 {
      CountAboveAntitone(students, table, key, t1, t2, n - 1);
    }
  }

  /** A score equal to the threshold is not counted; everyone strictly above is. */
  lemma {:induction false} CountAboveExtremes(students: seq<Student>, table: ScoreTable, key: string, threshold: real, n: nat)
    requires n <= |students|
    ensures (forall i :: 0 <= i < n ==> ScoreIn(table, students[i].id, key) <= threshold) ==> CountAbove(students, table, key, threshold, n) == 0
    ensures (forall i :: 0 <= i < n ==> ScoreIn(table, students[i].id, key) > threshold) ==> CountAbove(students, table, key, threshold, n) == n
  {
    if n > 0 {
      CountAboveExtremes(students, table, key, threshold, n - 1);
    }
  }

  lemma SelfDivide(t: real)
    requires t > 0.0
    ensures t / t == 1.0
  {
  }

  lemma ShareBounds(a: nat, b: nat, total: nat)
    requires a <= b <= total
    ensures 0.0 <= Share(a, total) <= Share(b, total) <= 100.0
  {
    if total > 0 {
      DivideBelow(a as real, b as real, total as real);
      DivideBelow(b as real, total as real, total as real);
      SelfDivide(total as real);
    }
  }

  /** The attainment is 0 with no students and otherwise lies in [0, 100]. */
  lemma PercentAboveBounds(students: seq<Student>, table: ScoreTable, key: string, threshold: real)
    ensures |students| == 0 ==> PercentAbove(students, table, key, threshold) == 0.0
    ensures 0.0 <= PercentAbove(students, table, key, threshold) <= 100.0
  {
    var n := CountAbove(students, table, key, threshold, |students|);
    CountAboveIsFilter(students, table, key, threshold, |students|);
    ShareBounds(n, n, |students|);
  }

  /** The attainment never increases when the threshold is raised. */
  lemma PercentAboveAntitone(students: seq<Student>, table: ScoreTable, key: string, t1: real, t2: real)
    requires t1 <= t2
    ensures PercentAbove(students, table, key, t2) <= PercentAbove(students, table, key, t1)
  {
    CountAboveAntitone(students, table, key, t1, t2, |students|);
    CountAboveIsFilter(students, table, key, t1, |students|);
    ShareBounds(CountAbove(students, table, key, t2, |students|), CountAbove(students, table, key, t1, |students|), |students|);
  }

  /** Nobody strictly above gives 0 (in particular when everyone sits exactly at the threshold); everybody above gives 100. */
  lemma PercentAboveExtremes(students: seq<Student>, table: ScoreTable, key: string, threshold: real)
    ensures (forall i :: 0 <= i < |students| ==> ScoreIn(table, students[i].id, key) <= threshold) ==> PercentAbove(students, table, key, threshold) == 0.0
    ensures |students| > 0 && (forall i :: 0 <= i < |students| ==> ScoreIn(table, students[i].id, key) > threshold) ==>
      PercentAbove(students, table, key, threshold) == 100.0
  {
    CountAboveExtremes(students, table, key, threshold, |students|);
    if |students| > 0 {
      SelfDivide(|students| as real);
    }
  }

  // ---------------------------------------------------------------------------
  // calculateAllAttainments

  /** A class-level attainment: the share above the pass mark and the share above the KPI. */
  datatype Pair = Pair(passMarksPercentage: real, kpiPercentage: real)

  datatype Attainments = Attainments(
    studentCOs: ScoreTable,
    studentPOs: ScoreTable,
    coAttainment: map<string, Pair>,
    poAttainment: map<string, Pair>,
    targetPassMarks: real,
    kpiCO: real,
    kpiPO: real)

  predicate InRange(p: Pair)
  {
    0.0 <= p.passMarksPercentage <= 100.0 && 0.0 <= p.kpiPercentage <= 100.0
  }

  function CoPairFn(students: seq<Student>, cos: ScoreTable, targetPassMarks: real, kpiCO: real): nat -> Pair
  {
    (k: nat) => Pair(PercentAbove(students, cos, CoKey(k), targetPassMarks), PercentAbove(students, cos, CoKey(k), kpiCO))
  }

  function PoPairFn(students: seq<Student>, pos: ScoreTable, targetPassMarks: real, kpiPO: real): nat -> Pair
  {
    (k: nat) => Pair(PercentAbove(students, pos, PoKey(k), targetPassMarks), PercentAbove(students, pos, PoKey(k), kpiPO))
  }

  function AttainmentsOf(students: seq<Student>, marks: MarksTable, c: Config, m: Matrix,
                         targetPassMarks: real, kpiCO: real, kpiPO: real): Attainments
  {
    var cos := StudentCOsOf(students, marks, c);
    var pos := StudentPOsOf(students, c, m, cos);
    Attainments(cos, pos,
      Numbered(CoKey, CoPairFn(students, cos, targetPassMarks, kpiCO), 12),
      Numbered(PoKey, PoPairFn(students, pos, targetPassMarks, kpiPO), 12),
      targetPassMarks, kpiCO, kpiPO)
  }

  method CalculateAllAttainments(students: seq<Student>, marks: MarksTable, c: Config, m: Matrix,
                                 targetPassMarks: real, kpiCO: real, kpiPO: real) returns (r: Attainments)
    ensures r == AttainmentsOf(students, marks, c, m, targetPassMarks, kpiCO, kpiPO)
  {
    var cos := AllStudentCOs(students, marks, c);
    var pos := AllStudentPOs(students, c, m, cos);
    var coAttainment := CoAttainments(students, cos, targetPassMarks, kpiCO);
    var poAttainment := PoAttainments(students, pos, targetPassMarks, kpiPO);
    r := Attainments(cos, pos, coAttainment, poAttainment, targetPassMarks, kpiCO, kpiPO);
  }

  /** The loop over CO1..CO12 of `calculateAllAttainments`. */
  method CoAttainments(students: seq<Student>, cos: ScoreTable, targetPassMarks: real, kpiCO: real)
    returns (att: map<string, Pair>)
    ensures att == Numbered(CoKey, CoPairFn(students, cos, targetPassMarks, kpiCO), 12)
  {
    att := map[];
    var done := 0;
    while done < 12
      invariant 0 <= done <= 12
      invariant att == Numbered(CoKey, CoPairFn(students, cos, targetPassMarks, kpiCO), done)
    {
      var coKey := CoKey(done + 1);
      att := att[coKey := Pair(PercentAbove(students, cos, coKey, targetPassMarks), PercentAbove(students, cos, coKey, kpiCO))];
      done := done + 1;
    }
  }

  /** The loop over PO1..PO12 of `calculateAllAttainments`. */
  method PoAttainments(students: seq<Student>, pos: ScoreTable, targetPassMarks: real, kpiPO: real)
    returns (att: map<string, Pair>)
    ensures att == Numbered(PoKey, PoPairFn(students, pos, targetPassMarks, kpiPO), 12)
  {
    att := map[];
    var done := 0;
    while done < 12
      invariant 0 <= done <= 12
      invariant att == Numbered(PoKey, PoPairFn(students, pos, targetPassMarks, kpiPO), done)
    {
      var poKey := PoKey(done + 1);
      att := att[poKey := Pair(PercentAbove(students, pos, poKey, targetPassMarks), PercentAbove(students, pos, poKey, kpiPO))];
      done := done + 1;
    }
  }

  /**
   * The result has a CO row and a PO row for every student, exactly CO1..CO12
   * and PO1..PO12 at class level, every class-level figure in [0, 100], and
   * the thresholds it was given.
   */
  lemma AttainmentsFacts(students: seq<Student>, marks: MarksTable, c: Config, m: Matrix,
                         targetPassMarks: real, kpiCO: real, kpiPO: real)
    ensures var r := AttainmentsOf(students, marks, c, m, targetPassMarks, kpiCO, kpiPO);
      && r.studentCOs.Keys == Ids(students) && r.studentPOs.Keys == Ids(students)
      && (forall id :: id in r.studentCOs ==> r.studentCOs[id].Keys == CoKeys())
      && (forall id :: id in r.studentPOs ==> r.studentPOs[id].Keys == PoKeys())
      && r.coAttainment.Keys == CoKeys() && r.poAttainment.Keys == PoKeys()
      && (forall co :: co in r.coAttainment ==> InRange(r.coAttainment[co]))
      && (forall po :: po in r.poAttainment ==> InRange(r.poAttainment[po]))
      && r.targetPassMarks == targetPassMarks && r.kpiCO == kpiCO && r.kpiPO == kpiPO
  {
    var cos := StudentCOsOf(students, marks, c);
    var pos := StudentPOsOf(students, c, m, cos);
    CoTable(CoPairFn(students, cos, targetPassMarks, kpiCO));
    PoTable(PoPairFn(students, pos, targetPassMarks, kpiPO));
    forall id | id in cos
      ensures cos[id].Keys == CoKeys()
    {
      CoRowFacts(marks, c, id);
    }
    forall id | id in pos
      ensures pos[id].Keys == PoKeys()
    {
      PoRowFacts(c, m, RowOf(cos, id));
    }
    forall j | 1 <= j <= 12
      ensures InRange(CoPairFn(students, cos, targetPassMarks, kpiCO)(j))
      ensures InRange(PoPairFn(students, pos, targetPassMarks, kpiPO)(j))
    {
      PercentAboveBounds(students, cos, CoKey(j), targetPassMarks);
      PercentAboveBounds(students, cos, CoKey(j), kpiCO);
      PercentAboveBounds(students, pos, PoKey(j), targetPassMarks);
      PercentAboveBounds(students, pos, PoKey(j), kpiPO);
    }
  }

  // ---------------------------------------------------------------------------
  // getCOMarkAllocations

  function AllocationFn(c: Config): nat -> real
  {
    (k: nat) => CoMaxMarks(c, CoKey(k))
  }

  method COMarkAllocations(c: Config) returns (allocations: map<string, real>)
    ensures allocations == Numbered(CoKey, AllocationFn(c), 12)
  {
    allocations := map[];
    var all := GetAllAssessments(c);
    var done := 0;
    while done < 12
      invariant 0 <= done <= 12
      invariant allocations == Numbered(CoKey, AllocationFn(c), done)
    {
      var coKey := CoKey(done + 1);
      allocations := allocations[coKey := MaxTotal(Relevant(all, coKey))];
      done := done + 1;
    }
  }

  /** Each CO's allocation is the total T that its score divides by: score = 100 * marks obtained / allocation. */
  lemma AllocationsAreDivisors(c: Config, marks: MarksTable, id: string)
    ensures Numbered(CoKey, AllocationFn(c), 12).Keys == CoKeys()
    ensures forall k :: 1 <= k <= 12 ==>
      StudentCOOf(marks, id, c, CoKey(k))
        == Percentage(MarkSum(marks, id, Relevant(AllAssessments(c), CoKey(k))), Numbered(CoKey, AllocationFn(c), 12)[CoKey(k)])
  {
    CoTable(AllocationFn(c));
    forall k | 1 <= k <= 12
      ensures StudentCOOf(marks, id, c, CoKey(k)) == Percentage(MarkSum(marks, id, Relevant(AllAssessments(c), CoKey(k))), CoMaxMarks(c, CoKey(k)))
    {
      StudentCOClosedForm(marks, id, c, CoKey(k));
    }
  }
}
