/**
 * The marks form over the whole assessment configuration
 * (src/components/ComprehensiveMarksEntry.jsx): one tab per family, and one
 * mark key `"<type>_<name>"` per configured assessment.
 */
module ComprehensiveMarksEntry {
  import opened Options
  import opened Assessments
  import opened MarksTables

  /** The mark keys of every configured assessment, in table order. */
  function EntryKeys(es: seq<Entry>): seq<string>
  {
    seq(|es|, j requires 0 <= j < |es| => KeyOf(es[j]))
  }

  /** The keys a configuration needs in every student's record. */
  function ConfigKeys(c: Config): seq<string>
  {
    EntryKeys(Entries(c))
  }

  /**
   * The attendance and performance slots are keyed under their display names,
   * `attendance_Attendance` and `performance_Performance`, whatever name the
   * slot record carries.
   */
  lemma SlotKeys(c: Config)
    ensures c.attendance.Some? ==> "attendance_Attendance" in ConfigKeys(c)
    ensures c.performance.Some? ==> "performance_Performance" in ConfigKeys(c)
  {
    SlotKeyTexts();
    SlotEntriesListed(c);
  }

  lemma SlotKeyTexts()
    ensures MarkKey(Attendance, "Attendance") == "attendance_Attendance"
    ensures MarkKey(Performance, "Performance") == "performance_Performance"
  {
  }

  lemma SlotEntriesListed(c: Config)
    ensures c.attendance.Some? ==> MarkKey(Attendance, "Attendance") in ConfigKeys(c)
    ensures c.performance.Some? ==> MarkKey(Performance, "Performance") in ConfigKeys(c)
  {
    var es := Entries(c);
    var front := Typed(Cts, c.cts) + Typed(MidTerm, c.midTerm) + Typed(Final, c.final) + Typed(Assignments, c.assignments);
    var att := Slot(Attendance, "Attendance", c.attendance);
    var perf := Slot(Performance, "Performance", c.performance);
    var head := front + att;
    assert es == head + perf;
    if c.attendance.Some? {
      assert head[|front|] == att[0];
      assert es[|front|] == head[|front|];
      KeyListed(es, |front|);
    }
    if c.performance.Some? {
      assert es[|head|] == perf[0];
      KeyListed(es, |head|);
    }
  }

  lemma KeyListed(es: seq<Entry>, j: nat)
    requires j < |es|
    ensures KeyOf(es[j]) in EntryKeys(es)
  {
    assert EntryKeys(es)[j] == KeyOf(es[j]);
  }

  /**
   * The initialisation effect: for each student, create the record if absent,
   * rebuild the list of all configured assessments, and set every missing key
   * to `''`. The result is the completion of the table over the configuration's
   * keys, and `hasChanges` is raised exactly when something was missing, which
   * is exactly when the table changed.
   */
  method Initialise(marks: MarksTable, students: seq<Student>, assessments: Config)
    returns (updated: MarksTable, hasChanges: bool)
    ensures updated == Fill(marks, students, ConfigKeys(assessments), |students|)
    ensures hasChanges <==> !Complete(marks, students, ConfigKeys(assessments), |students|)
    ensures hasChanges <==> updated != marks
  {
    ghost var keys := ConfigKeys(assessments);
    updated := marks;
    hasChanges := false;
    for i := 0 to |students|
      invariant updated == Fill(marks, students, keys, i)
      invariant hasChanges == HasChanges(marks, students, keys, i)
    {
      var all := AllEntries(assessments);
      assert EntryKeys(all) == keys;
      var missing;
      updated, missing := StudentTurn(updated, students[i].id, EntryKeys(all));
      hasChanges := hasChanges || missing;
    }
    HasChangesIff(marks, students, keys, |students|);
    FillIdentity(marks, students, keys, |students|);
  }

  // ---------------------------------------------------------------------------
  // Tabs

  /**
   * `getAssessmentList(type)`: a family's list (empty when the configuration or
   * the list is absent), a one-element list for a present slot renamed to its
   * display name, and `[]` for anything else.
   */
  function AssessmentList(assessments: Option<Config>, tab: string): seq<Assessment>
  {
    if assessments.None? then []
    else
      var c := assessments.value;
      if tab == "cts" then c.cts
      else if tab == "midTerm" then c.midTerm
      else if tab == "final" then c.final
      else if tab == "assignments" then c.assignments
      else if tab == "attendance" && c.attendance.Some? then [c.attendance.value.(name := "Attendance")]
      else if tab == "performance" && c.performance.Some? then [c.performance.value.(name := "Performance")]
      else []
  }

  /** The count badge of a tab: the list's length, or 1/0 for a present/absent slot. */
  function TabCount(assessments: Option<Config>, f: Family): nat
  {
    if assessments.None? then 0
    else
      match f
      case Cts => |assessments.value.cts|
      case MidTerm => |assessments.value.midTerm|
      case Final => |assessments.value.final|
      case Assignments => |assessments.value.assignments|
      case Attendance => if assessments.value.attendance.Some? then 1 else 0
      case Performance => if assessments.value.performance.Some? then 1 else 0
  }

  /** Every tab's badge counts exactly the rows its table shows. */
  lemma TabCountsMatch(assessments: Option<Config>, f: Family)
    ensures TabCount(assessments, f) == |AssessmentList(assessments, Tag(f))|
  {
  }

  /** A slot's tab shows one row exactly when the slot is configured; other tab ids show nothing. */
  lemma SlotTabs(c: Config, tab: string)
    ensures |AssessmentList(Some(c), "attendance")| == 1 <==> c.attendance.Some?
    ensures |AssessmentList(Some(c), "performance")| == 1 <==> c.performance.Some?
    ensures (forall f: Family :: tab != Tag(f)) ==> AssessmentList(Some(c), tab) == []
  {
    assert Tag(Cts) == "cts" && Tag(MidTerm) == "midTerm" && Tag(Final) == "final";
    assert Tag(Assignments) == "assignments" && Tag(Attendance) == "attendance" && Tag(Performance) == "performance";
  }

  /**
   * The tabs show exactly the assessments whose marks the initialisation
   * prepares: typing each tab's rows with the tab's family and joining the
   * six tabs gives the configuration's entry list.
   */
  lemma TabsCoverEntries(c: Config)
    ensures Entries(c) ==
      Typed(Cts, AssessmentList(Some(c), "cts")) + Typed(MidTerm, AssessmentList(Some(c), "midTerm"))
      + Typed(Final, AssessmentList(Some(c), "final")) + Typed(Assignments, AssessmentList(Some(c), "assignments"))
      + Typed(Attendance, AssessmentList(Some(c), "attendance"))
      + Typed(Performance, AssessmentList(Some(c), "performance"))
  {
    assert Slot(Attendance, "Attendance", c.attendance) == Typed(Attendance, AssessmentList(Some(c), "attendance"));
    assert Slot(Performance, "Performance", c.performance) == Typed(Performance, AssessmentList(Some(c), "performance"));
  }
}
