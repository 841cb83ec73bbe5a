/**
 * The results table (src/components/Results.jsx): each student's obtained and
 * maximum total over every configured assessment, the percentage, and the
 * letter grade from the fixed grading ladder.
 */
module Results {
  import opened Options
  import opened Assessments

  // ---------------------------------------------------------------------------
  // calculateGrade and getGradeColor

  datatype Grade = APlus | A | AMinus | BPlus | B | BMinus | CPlus | C | F

  /** The text of a grade as the table shows it. */
  function Label(g: Grade): string
  {
    match g
    case APlus => "A+"
    case A => "A"
    case AMinus => "A-"
    case BPlus => "B+"
    case B => "B"
    case BMinus => "B-"
    case CPlus => "C+"
    case C => "C"
    case F => "F"
  }

  /** The if-ladder: the first lower bound the percentage reaches decides the grade. */
  function CalculateGrade(p: real): Grade
  {
    if p >= 80.0 then APlus
    else if p >= 75.0 then A
    else if p >= 70.0 then AMinus
    else if p >= 65.0 then BPlus
    else if p >= 60.0 then B
    else if p >= 55.0 then BMinus
    else if p >= 50.0 then CPlus
    else if p >= 45.0 then C
    else F
  }

  /** The grading scale as a table of bands: 80 and above, 75 to 80, ..., below 45. */
  predicate InBand(p: real, g: Grade)
  {
    match g
    case APlus => 80.0 <= p
    case A => 75.0 <= p < 80.0
    case AMinus => 70.0 <= p < 75.0
    case BPlus => 65.0 <= p < 70.0
    case B => 60.0 <= p < 65.0
    case BMinus => 55.0 <= p < 60.0
    case CPlus => 50.0 <= p < 55.0
    case C => 45.0 <= p < 50.0
    case F => p < 45.0
  }

  /** A percentage gets exactly the grade of the band it lies in; negatives get F. */
  lemma GradeBands(p: real, g: Grade)
    ensures CalculateGrade(p) == g <==> InBand(p, g)
    ensures p < 0.0 ==> CalculateGrade(p) == F
  {
  }

  /** The position of a grade on the ladder, F lowest. */
  function Rank(g: Grade): nat
  {
    match g
    case F => 0
    case C => 1
    case CPlus => 2
    case BMinus => 3
    case B => 4
    case BPlus => 5
    case AMinus => 6
    case A => 7
    case APlus => 8
  }

  /** A higher percentage never yields a lower grade. */
  lemma GradeMonotone(p: real, q: real)
    requires p <= q
    ensures Rank(CalculateGrade(p)) <= Rank(CalculateGrade(q))
  {
  }

  const Gray := "bg-gray-200 text-gray-800"

  const Colors: map<string, string> := map[
    "A+" := "bg-green-600 text-white",
    "A" := "bg-green-500 text-white",
    "A-" := "bg-green-400 text-white",
    "B+" := "bg-blue-500 text-white",
    "B" := "bg-blue-400 text-white",
    "B-" := "bg-blue-300 text-gray-800",
    "C+" := "bg-yellow-400 text-gray-800",
    "C" := "bg-yellow-300 text-gray-800",
    "F" := "bg-red-500 text-white"]

  /** `colors[grade] || 'bg-gray-200 text-gray-800'` */
  function GradeColor(grade: string): string
  {
    if grade in Colors then Colors[grade] else Gray
  }

  /** The nine grade labels are exactly the keys of the colour table. */
  lemma ColorKeys()
    ensures Colors.Keys == set g: Grade :: Label(g)
  {
    assert Label(APlus) in Colors && Label(A) in Colors && Label(AMinus) in Colors;
    assert Label(BPlus) in Colors && Label(B) in Colors && Label(BMinus) in Colors;
    assert Label(CPlus) in Colors && Label(C) in Colors && Label(F) in Colors;
  }

  /** Any text that is not one of the nine grade labels gets the gray default. */
  lemma ColorDefault(grade: string)
    ensures (forall g: Grade :: grade != Label(g)) ==> GradeColor(grade) == Gray
  {
    ColorKeys();
  }

  // ---------------------------------------------------------------------------
  // The studentResults computation

  /** One row of the table; the numbers are the values before `toFixed` formats them. */
  datatype StudentResult = StudentResult(
    id: string,
    name: string,
    totalObtainedMarks: real,
    totalMaxMarks: real,
    percentage: real,
    grade: Grade)

  /** A student's obtained total: `marks[id]["<type>_<name>"]` summed, missing or blank marks as 0. */
  function Obtained(marks: MarksTable, id: string, es: seq<Entry>): real
  {
    if |es| == 0 then 0.0 else Obtained(marks, id, es[..|es| - 1]) + MarkValue(marks, id, KeyOf(es[|es| - 1]))
  }

  method ObtainedTotal(marks: MarksTable, id: string, es: seq<Entry>) returns (total: real)
    ensures total == Obtained(marks, id, es)
  {
    total := 0.0;
    for j := 0 to |es|
      invariant total == Obtained(marks, id, es[..j])
    {
      assert es[..j + 1][..j] == es[..j];
      total := total + MarkValue(marks, id, KeyOf(es[j]));
    }
    assert es[..|es|] == es;
  }

  /** (obtained / max) * 100 when the maximum is positive, else 0. */
  function Percentage(obtained: real, max: real): real
  {
    if max > 0.0 then (obtained / max) * 100.0 else 0.0
  }

  function ResultOf(es: seq<Entry>, max: real, marks: MarksTable, s: Student): StudentResult
  {
    var obtained := Obtained(marks, s.id, es);
    var p := Percentage(obtained, max);
    StudentResult(s.id, s.name, obtained, max, p, CalculateGrade(p))
  }

  /** The memoised results: empty unless assessments, students and marks are all present. */
  function ResultsOf(assessments: Option<Config>, students: Option<seq<Student>>, marks: Option<MarksTable>): seq<StudentResult>
  {
    if assessments.None? || students.None? || marks.None? then []
    else
      var es := Entries(assessments.value);
      var ss := students.value;
      seq(|ss|, i requires 0 <= i < |ss| => ResultOf(es, MaxTotal(es), marks.value, ss[i]))
  }

  method StudentResults(assessments: Option<Config>, students: Option<seq<Student>>, marks: Option<MarksTable>)
    returns (results: seq<StudentResult>)
    ensures results == ResultsOf(assessments, students, marks)
  {
    if assessments.None? || students.None? || marks.None? {
      return [];
    }
    var all := AllEntries(assessments.value);
    var totalMaxMarks := MaxTotal(all);
    var ss := students.value;
    results := [];
    for i := 0 to |ss|
      invariant |results| == i
      invariant forall k :: 0 <= k < i ==> results[k] == ResultOf(all, totalMaxMarks, marks.value, ss[k])
    {
      var row := StudentRow(all, totalMaxMarks, marks.value, ss[i]);
      results := results + [row];
    }
  }

  /** One student's row: the obtained total accumulated over the assessments, then percentage and grade. */
  method StudentRow(all: seq<Entry>, totalMaxMarks: real, marks: MarksTable, s: Student) returns (row: StudentResult)
    ensures row == ResultOf(all, totalMaxMarks, marks, s)
  {
    var obtained := ObtainedTotal(marks, s.id, all);
    var percentage := if totalMaxMarks > 0.0 then (obtained / totalMaxMarks) * 100.0 else 0.0;
    row := StudentResult(s.id, s.name, obtained, totalMaxMarks, percentage, CalculateGrade(percentage));
  }

  /**
   * One result per student, in input order, carrying the student's id and name,
   * the common maximum and the grade of its own percentage; with a maximum that
   * is not positive the percentage is 0 and the grade F. Without assessments,
   * students or marks there are no results.
   */
  lemma ResultsShape(assessments: Option<Config>, students: Option<seq<Student>>, marks: Option<MarksTable>)
    ensures assessments.None? || students.None? || marks.None? ==> ResultsOf(assessments, students, marks) == []
    ensures assessments.Some? && students.Some? && marks.Some? ==>
      var rs := ResultsOf(assessments, students, marks);
      var max := MaxTotal(Entries(assessments.value));
      && |rs| == |students.value|
      && forall i :: 0 <= i < |rs| ==>
        && rs[i].id == students.value[i].id && rs[i].name == students.value[i].name
        && rs[i].totalMaxMarks == max
        && rs[i].grade == CalculateGrade(rs[i].percentage)
        && (max <= 0.0 ==> rs[i].percentage == 0.0 && rs[i].grade == F)
  {
  }

  // ---------------------------------------------------------------------------
  // The maximum total

  /** The summed maximum of one family's list. */
  function FamilyMax(s: seq<Assessment>): real
  {
    if |s| == 0 then 0.0 else FamilyMax(s[..|s| - 1]) + s[|s| - 1].maxMarks
  }

  function SlotMax(a: Option<Assessment>): real
  {
    if a.Some? then a.value.maxMarks else 0.0
  }

  lemma {:induction false} MaxTotalAppend(a: seq<Entry>, b: seq<Entry>)
    ensures MaxTotal(a + b) == MaxTotal(a) + MaxTotal(b)
  {
    if |b| > 0 {
      MaxTotalAppend(a, b[..|b| - 1]);
      assert (a + b)[..|a + b| - 1] == a + b[..|b| - 1];
    } else {
      assert a + b == a;
    }
  }

  lemma {:induction false} MaxTotalTyped(f: Family, s: seq<Assessment>)
    ensures MaxTotal(Typed(f, s)) == FamilyMax(s)
  {
    if |s| > 0 {
      MaxTotalTyped(f, s[..|s| - 1]);
      assert Typed(f, s)[..|s| - 1] == Typed(f, s[..|s| - 1]);
    }
  }

  /**
   * The maximum total is the sum of every assessment's maximum: the four lists,
   * then attendance and performance when present.
   */
  lemma TotalMaxIsSum(c: Config)
    ensures MaxTotal(Entries(c)) == FamilyMax(c.cts) + FamilyMax(c.midTerm) + FamilyMax(c.final)
      + FamilyMax(c.assignments) + SlotMax(c.attendance) + SlotMax(c.performance)
  {
    var t1, t2, t3, t4 := Typed(Cts, c.cts), Typed(MidTerm, c.midTerm), Typed(Final, c.final), Typed(Assignments, c.assignments);
    var s5, s6 := Slot(Attendance, "Attendance", c.attendance), Slot(Performance, "Performance", c.performance);
    MaxTotalTyped(Cts, c.cts);
    MaxTotalTyped(MidTerm, c.midTerm);
    MaxTotalTyped(Final, c.final);
    MaxTotalTyped(Assignments, c.assignments);
    MaxTotalAppend(t1, t2);
    MaxTotalAppend(t1 + t2, t3);
    MaxTotalAppend(t1 + t2 + t3, t4);
    MaxTotalAppend(t1 + t2 + t3 + t4, s5);
    MaxTotalAppend(t1 + t2 + t3 + t4 + s5, s6);
    assert MaxTotal(s5) == SlotMax(c.attendance) by {
      if c.attendance.Some? { assert s5[..0] == []; }
    }
    assert MaxTotal(s6) == SlotMax(c.performance) by {
      if c.performance.Some? { assert s6[..0] == []; }
    }
  }

  // ---------------------------------------------------------------------------
  // Bounds

  /** Marks between 0 and each maximum add up to between 0 and the maximum total. */
  lemma {:induction false} ObtainedBounded(marks: MarksTable, id: string, es: seq<Entry>)
    requires forall e :: e in es ==> 0.0 <= MarkValue(marks, id, KeyOf(e)) <= e.maxMarks
    ensures 0.0 <= Obtained(marks, id, es) <= MaxTotal(es)
  {
    if |es| > 0 {
      ObtainedBounded(marks, id, es[..|es| - 1]);
      assert es[|es| - 1] in es;
    }
  }

  /** With every mark between 0 and its maximum, a student's percentage lies in [0, 100]. */
  lemma PercentageBounded(marks: MarksTable, c: Config, s: Student)
    requires forall e :: e in Entries(c) ==> 0.0 <= MarkValue(marks, s.id, KeyOf(e)) <= e.maxMarks
    ensures 0.0 <= ResultOf(Entries(c), MaxTotal(Entries(c)), marks, s).percentage <= 100.0
  {
    var es := Entries(c);
    var obtained, max := Obtained(marks, s.id, es), MaxTotal(es);
    ObtainedBounded(marks, s.id, es);
    if max > 0.0 {
      RatioBounded(obtained, max);
    }
  }

  lemma RatioBounded(a: real, t: real)
    requires 0.0 <= a <= t && t > 0.0
    ensures 0.0 <= (a / t) * 100.0 <= 100.0
  {
    assert a / t <= t / t == 1.0;
  }
}
