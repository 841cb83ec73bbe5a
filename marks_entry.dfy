/**
 * The single-exam marks form (src/components/MarksEntry.jsx): one column per
 * question of the exam, keyed by the question's name.
 */
module MarksEntry {
  import opened Assessments
  import opened MarksTables
  import LegacyEngine

  /** The mark keys of the form: the question names, in order. */
  function QuestionNames(questions: seq<LegacyEngine.Question>): (r: seq<string>)
    ensures |r| == |questions|
    ensures forall j :: 0 <= j < |questions| ==> r[j] == questions[j].name
  {
    seq(|questions|, j requires 0 <= j < |questions| => questions[j].name)
  }

  /**
   * The initialisation effect: every student gets a record (an empty one when
   * absent) and every question name missing from it is set to `''`. The table
   * that results is the completion of the current one; `hasChanges` is raised
   * exactly when some student lacked a record or a question, which is exactly
   * when the table changed.
   */
  method Initialise(marks: MarksTable, students: seq<Student>, questions: seq<LegacyEngine.Question>)
    returns (updated: MarksTable, hasChanges: bool)
    ensures updated == Fill(marks, students, QuestionNames(questions), |students|)
    ensures hasChanges <==> !Complete(marks, students, QuestionNames(questions), |students|)
    ensures hasChanges <==> updated != marks
  {
    ghost var keys := QuestionNames(questions);
    updated := marks;
    hasChanges := false;
    for i := 0 to |students|
      invariant updated == Fill(marks, students, keys, i)
      invariant hasChanges == HasChanges(marks, students, keys, i)
    {
      var missing;
      updated, missing := StudentTurn(updated, students[i].id, QuestionNames(questions));
      hasChanges := hasChanges || missing;
    }
    HasChangesIff(marks, students, keys, |students|);
    FillIdentity(marks, students, keys, |students|);
  }
}
