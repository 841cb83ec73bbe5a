/**
 * The three-step exam wizard (src/components/ConfigurationStepper.jsx): pick
 * the exam type, map the questions to COs, then enter marks. Its state is
 * the current step, the exam type, the requested number of questions and the
 * question list, which a resize effect keeps at the requested length.
 */
module ConfigurationStepper {
  import opened Options
  import opened Strings
  import opened LegacyEngine

  /** The stored exam configuration: `{ examType, questions }`; a missing type is `""`. */
  datatype ExamConfig = ExamConfig(examType: string, questions: seq<Question>)

  /** The question the wizard starts from when none is stored. */
  const FirstQuestion := Question("Q1", "CO1", 10.0)

  /** The question the resize appends at position i: `Q<i+1>`, CO1, 10 marks. */
  function Padding(i: nat): Question
  {
    Question("Q" + NatToString(i + 1), "CO1", 10.0)
  }

  /** The resize loop's result after its first n rounds: kept questions, then padding. */
  function Resized(qs: seq<Question>, n: int): seq<Question>
    decreases if n > 0 then n else 0
  {
    if n <= 0 then []
    else Resized(qs, n - 1) + [if n - 1 < |qs| then qs[n - 1] else Padding(n - 1)]
  }

  /**
   * The resized list has exactly `n` questions (none when n is not positive);
   * the questions below the old length are kept and the rest are padding.
   */
  lemma {:induction false} ResizedShape(qs: seq<Question>, n: int)
    ensures |Resized(qs, n)| == if n > 0 then n else 0
    ensures forall i :: 0 <= i < |Resized(qs, n)| && i < |qs| ==> Resized(qs, n)[i] == qs[i]
    ensures forall i :: |qs| <= i < |Resized(qs, n)| ==> Resized(qs, n)[i] == Padding(i)
    decreases if n > 0 then n else 0
  {
    if n > 0 {
      ResizedShape(qs, n - 1);
    }
  }

  /** Resizing to the current length changes nothing. */
  lemma ResizeToLength(qs: seq<Question>)
    ensures Resized(qs, |qs|) == qs
  {
    ResizedShape(qs, |qs|);
  }

  /** Growing the list and shrinking it back restores it. */
  lemma GrowThenShrink(qs: seq<Question>, n: int)
    requires n >= |qs|
    ensures Resized(Resized(qs, n), |qs|) == qs
  {
    ResizedShape(qs, n);
    ResizedShape(Resized(qs, n), |qs|);
  }

  /** The question-count input: `parseInt(text) || 1`, so text that does not parse, and 0, give 1. */
  function CountInput(parseInt: string -> Option<int>, text: string): (n: int)
    ensures n != 0
    ensures parseInt(text).None? ==> n == 1
    ensures parseInt(text).Some? && parseInt(text).value != 0 ==> n == parseInt(text).value
  {
    match parseInt(text)
    case None => 1
    case Some(v) => if v == 0 then 1 else v
  }

  /** `q.co && q.maxMarks > 0 && q.name.trim() !== ''` */
  predicate QuestionReady(q: Question)
  {
    q.co != "" && q.maxMarks > 0.0 && Trim(q.name) != ""
  }

  predicate AllReady(qs: seq<Question>)
  {
    forall i :: 0 <= i < |qs| ==> QuestionReady(qs[i])
  }

  /** A text whose first character is not white space keeps a character after trimming. */
  lemma TrimNonBlank(s: string)
    requires |s| > 0 && !IsJsSpace(s[0])
    ensures Trim(s) != ""
  {
    assert TrimStart(s) == s;
    TrailingSpacesBelow(s);
  }

  lemma {:induction false} TrailingSpacesBelow(s: string)
    requires |s| > 0 && !IsJsSpace(s[0])
    ensures TrailingSpaces(s) < |s|
    decreases |s|
  {
    if |s| > 1 && IsJsSpace(s[|s| - 1]) {
      var t := s[..|s| - 1];
      assert t[0] == s[0];
      TrailingSpacesBelow(t);
    }
  }

  /** Every padding question passes the step-2 check. */
  lemma PaddingReady(i: nat)
    ensures QuestionReady(Padding(i))
  {
    var name := "Q" + NatToString(i + 1);
    assert name[0] == 'Q';
    TrimNonBlank(name);
  }

  /** Resizing a list of ready questions leaves only ready questions. */
  lemma ResizeKeepsReady(qs: seq<Question>, n: int)
    requires AllReady(qs)
    ensures AllReady(Resized(qs, n))
  {
    ResizedShape(qs, n);
    forall i | 0 <= i < |Resized(qs, n)| && |qs| <= i
      ensures QuestionReady(Resized(qs, n)[i])
    {
      PaddingReady(i);
    }
  }

  /** The value an input writes into one field of a question. */
  datatype Edit = Name(name: string) | Co(co: string) | MaxMarks(marks: real)

  /** `{ ...q, [field]: value }` */
  function SetField(q: Question, e: Edit): Question
  {
    match e
    case Name(n) => q.(name := n)
    case Co(c) => q.(co := c)
    case MaxMarks(m) => q.(maxMarks := m)
  }

  class Wizard {
    var step: int
    var examType: string
    var numQuestions: int
    var questions: seq<Question>

    /**
     * The wizard's invariant: the step is 1, 2 or 3; past step 1 an exam type
     * is chosen; at step 3 every question is ready; and the list has the
     * requested length (none when the request is not positive).
     */
    predicate Valid()
      reads this
    {
      1 <= step <= 3
      && (step >= 2 ==> examType != "")
      && (step == 3 ==> AllReady(questions))
      && |questions| == (if numQuestions > 0 then numQuestions else 0)
    }

    /**
     * The initial state: step 1, the stored type, and the stored questions, or
     * the single question Q1 when none are stored; the count matches the list,
     * so the resize effect has nothing to do on mount.
     */
    constructor(existing: ExamConfig)
      ensures step == 1 && examType == existing.examType
      ensures questions == if |existing.questions| > 0 then existing.questions else [FirstQuestion]
      ensures numQuestions == if |existing.questions| > 0 then |existing.questions| else 1
      ensures Valid()
    {
      step := 1;
      examType := existing.examType;
      numQuestions := if |existing.questions| > 0 then |existing.questions| else 1;
      questions := if |existing.questions| > 0 then existing.questions else [FirstQuestion];
    }

    /** An exam-type button (shown in step 1). */
    method SelectExamType(t: string)
      requires Valid() && step == 1
      modifies this
      ensures examType == t
      ensures step == old(step) && numQuestions == old(numQuestions) && questions == old(questions)
      ensures Valid()
    {
      examType := t;
    }

    /** `handleStep1Complete` (its button is shown in step 1): move to step 2 only when a type is chosen. */
    method Step1Complete()
      requires Valid() && step == 1
      modifies this
      ensures step == if examType != "" then 2 else 1
      ensures examType == old(examType) && numQuestions == old(numQuestions) && questions == old(questions)
      ensures Valid()
    {
      if examType != "" {
        step := 2;
      }
    }

    /**
     * The question-count input (shown in step 2) followed by the resize effect
     * it triggers: the list becomes the old list cut or padded to the new count.
     */
    method SetNumQuestions(parseInt: string -> Option<int>, text: string)
      requires Valid() && step == 2
      modifies this
      ensures numQuestions == CountInput(parseInt, text)
      ensures questions == Resized(old(questions), numQuestions)
      ensures step == old(step) && examType == old(examType)
      ensures Valid()
    {
      numQuestions := CountInput(parseInt, text);
      ResizeEffect();
    }

    /** The resize effect: rebuild the list only when its length differs from the count. */
    method ResizeEffect()
      requires step != 3
      modifies this
      ensures questions == Resized(old(questions), numQuestions)
      ensures step == old(step) && examType == old(examType) && numQuestions == old(numQuestions)
      ensures |questions| == if numQuestions > 0 then numQuestions else 0
    {
      ResizedShape(questions, numQuestions);
      if numQuestions != |questions| {
        var newQuestions := [];
        var i := 0;
        while i < numQuestions
          invariant 0 <= i && (i <= numQuestions || i == 0)
          invariant newQuestions == Resized(questions, i)
        {
          if i < |questions| {
            newQuestions := newQuestions + [questions[i]];
          } else {
            newQuestions := newQuestions + [Padding(i)];
          }
          i := i + 1;
        }
        questions := newQuestions;
      } else {
        ResizeToLength(questions);
      }
    }

    /** `updateQuestion(index, field, value)` (shown in step 2): one field of one question. */
    method UpdateQuestion(index: nat, e: Edit)
      requires Valid() && step == 2 && index < |questions|
      modifies this
      ensures |questions| == |old(questions)|
      ensures questions[index] == SetField(old(questions)[index], e)
      ensures forall i :: 0 <= i < |questions| && i != index ==> questions[i] == old(questions)[i]
      ensures step == old(step) && examType == old(examType) && numQuestions == old(numQuestions)
      ensures Valid()
    {
      questions := questions[index := SetField(questions[index], e)];
    }

    /** `handleStep2Complete` (its button is shown in step 2): move to step 3 only when every question is ready. */
    method Step2Complete()
      requires Valid() && step == 2
      modifies this
      ensures step == if AllReady(questions) then 3 else 2
      ensures examType == old(examType) && numQuestions == old(numQuestions) && questions == old(questions)
      ensures Valid()
    {
      if AllReady(questions) {
        step := 3;
      }
    }

    /** The Back button of step 2. */
    method BackToStep1()
      requires Valid() && step == 2
      modifies this
      ensures step == 1
      ensures examType == old(examType) && numQuestions == old(numQuestions) && questions == old(questions)
      ensures Valid()
    {
      step := 1;
    }

    /** The marks form's `onBack` in step 3. */
    method BackToStep2()
      requires Valid() && step == 3
      modifies this
      ensures step == 2
      ensures examType == old(examType) && numQuestions == old(numQuestions) && questions == old(questions)
      ensures Valid()
    {
      step := 2;
    }

    /** The step indicator's `completed` flag of step s. */
    predicate Completed(s: int)
      reads this
    {
      (s == 1 && step > 1) || (s == 2 && step > 2)
    }

    /** `handleMarksComplete`: the configuration handed on with the marks. */
    function Config(): (c: ExamConfig)
      reads this
      requires Valid() && step == 3
      ensures c.examType != "" && AllReady(c.questions)
      ensures c.questions == questions && c.examType == examType
    {
      ExamConfig(examType, questions)
    }
  }

  /** Step 1 and step 2 are flagged completed exactly when the wizard is past them; step 3 never is. */
  lemma CompletedFlags(w: Wizard, s: int)
    requires 1 <= s <= 3
    ensures w.Completed(s) <==> s < 3 && w.step > s
  {
  }
}
