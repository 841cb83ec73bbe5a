/**
 * The assessment configuration form (src/components/AssessmentConfig.jsx): the
 * four editable lists (class tests, mid term, term final, assignments), the two
 * single slots (attendance, performance), and the submit-time validation.
 */
module AssessmentConfig {
  import opened Options
  import opened Assessments

  /** The four families that are edited as lists. */
  predicate IsList(f: Family)
  {
    f == Cts || f == MidTerm || f == Final || f == Assignments
  }

  function Items(c: Config, f: Family): seq<Assessment>
    requires IsList(f)
  {
    match f
    case Cts => c.cts
    case MidTerm => c.midTerm
    case Final => c.final
    case Assignments => c.assignments
  }

  /** `{ ...prev, [type]: s }` for a list family. */
  function WithItems(c: Config, f: Family, s: seq<Assessment>): (r: Config)
    requires IsList(f)
    ensures Items(r, f) == s
    ensures forall g :: IsList(g) && g != f ==> Items(r, g) == Items(c, g)
    ensures r.attendance == c.attendance && r.performance == c.performance
  {
    match f
    case Cts => c.(cts := s)
    case MidTerm => c.(midTerm := s)
    case Final => c.(final := s)
    case Assignments => c.(assignments := s)
  }

  /** Writing back the list a configuration already holds changes nothing. */
  lemma WithOwnItems(c: Config, f: Family)
    requires IsList(f)
    ensures WithItems(c, f, Items(c, f)) == c
  {
  }

  // ---------------------------------------------------------------------------
  // The initial state and the edits

  /** The slot value of the default configuration: 10 marks, no CO. */
  const DefaultSlot := Assessment("", 10.0, "")

  /** No list items, attendance and performance worth 10 marks each. */
  const Default := Config([], [], [], [], Some(DefaultSlot), Some(DefaultSlot))

  /** `existingConfig || { ...defaults }` */
  function Initial(existing: Option<Config>): Config
  {
    existing.GetOr(Default)
  }

  /** The item `addAssessment` appends: no name, 0 marks, no CO. */
  const NewItem := Assessment("", 0.0, "")

  /** `addAssessment(type)`: append a blank item to one list. */
  function Add(c: Config, f: Family): (r: Config)
    requires IsList(f)
    ensures Items(r, f) == Items(c, f) + [NewItem]
    ensures forall g :: IsList(g) && g != f ==> Items(r, g) == Items(c, g)
    ensures r.attendance == c.attendance && r.performance == c.performance
  {
    WithItems(c, f, Items(c, f) + [NewItem])
  }

  /** `s.filter((_, i) => i !== index)` over the first `n` positions. */
  function DropIndex<T>(s: seq<T>, index: int, n: nat): seq<T>
    requires n <= |s|
  {
    if n == 0 then []
    else if n - 1 == index then DropIndex(s, index, n - 1)
    else DropIndex(s, index, n - 1) + [s[n - 1]]
  }

  /**
   * The filter keeps every position but `index`: it cuts that one element out
   * when `index` is a position of the list and keeps the whole list otherwise.
   */
  lemma {:induction false} DropIndexSlices<T>(s: seq<T>, index: int, n: nat)
    requires n <= |s|
    ensures 0 <= index < n ==> DropIndex(s, index, n) == s[..index] + s[index + 1..n]
    ensures !(0 <= index < n) ==> DropIndex(s, index, n) == s[..n]
  {
    if n > 0 {
      DropIndexSlices(s, index, n - 1);
      if 0 <= index < n - 1 {
        assert s[index + 1..n] == s[index + 1..n - 1] + [s[n - 1]];
      } else if index != n - 1 {
        assert s[..n] == s[..n - 1] + [s[n - 1]];
      }
    }
  }

  /** `removeAssessment(type, index)` */
  function Remove(c: Config, f: Family, index: int): (r: Config)
    requires IsList(f)
  {
    WithItems(c, f, DropIndex(Items(c, f), index, |Items(c, f)|))
  }

  /**
   * Removing position `index` of a list cuts out exactly that item; an index
   * outside the list leaves it as it was. The other lists and the slots never change.
   */
  lemma RemoveEffect(c: Config, f: Family, index: int)
    requires IsList(f)
    ensures var s := Items(c, f);
      0 <= index < |s| ==> Items(Remove(c, f, index), f) == s[..index] + s[index + 1..]
    ensures !(0 <= index < |Items(c, f)|) ==> Remove(c, f, index) == c
    ensures forall g :: IsList(g) && g != f ==> Items(Remove(c, f, index), g) == Items(c, g)
    ensures Remove(c, f, index).attendance == c.attendance
    ensures Remove(c, f, index).performance == c.performance
  {
    var s := Items(c, f);
    DropIndexSlices(s, index, |s|);
    assert s[..|s|] == s;
  }

  /** Removing the item just added restores the configuration. */
  lemma RemoveUndoesAdd(c: Config, f: Family)
    requires IsList(f)
    ensures Remove(Add(c, f), f, |Items(c, f)|) == c
  {
    var s := Items(c, f) + [NewItem];
    RemoveEffect(Add(c, f), f, |Items(c, f)|);
    assert s[..|Items(c, f)|] + s[|Items(c, f)| + 1..] == Items(c, f);
    WithOwnItems(c, f);
  }

  /** The value an input writes into one field of an item. */
  datatype Edit = Name(name: string) | MaxMarks(marks: real) | Co(co: string)

  /** `{ ...a, [field]: value }` */
  function SetField(a: Assessment, e: Edit): (r: Assessment)
    ensures e.Name? ==> r == a.(name := e.name)
    ensures e.MaxMarks? ==> r == a.(maxMarks := e.marks)
    ensures e.Co? ==> r == a.(co := e.co)
  {
    match e
    case Name(n) => a.(name := n)
    case MaxMarks(m) => a.(maxMarks := m)
    case Co(co) => a.(co := co)
  }

  /**
   * The marks input stores `parseFloat(text) || 0`: text that does not parse,
   * and a parsed 0, both store 0.
   */
  function MarksEdit(parseFloat: string -> Option<real>, text: string): (e: Edit)
    ensures e.MaxMarks?
    ensures parseFloat(text).None? ==> e.marks == 0.0
    ensures parseFloat(text).Some? ==> e.marks == parseFloat(text).value
  {
    MaxMarks(parseFloat(text).GetOr(0.0))
  }

  /** `updateAssessment(type, index, field, value)` on an existing position. */
  function Update(c: Config, f: Family, index: nat, e: Edit): (r: Config)
    requires IsList(f) && index < |Items(c, f)|
    ensures |Items(r, f)| == |Items(c, f)|
    ensures Items(r, f)[index] == SetField(Items(c, f)[index], e)
    ensures forall i :: 0 <= i < |Items(c, f)| && i != index ==> Items(r, f)[i] == Items(c, f)[i]
    ensures forall g :: IsList(g) && g != f ==> Items(r, g) == Items(c, g)
    ensures r.attendance == c.attendance && r.performance == c.performance
  {
    var s := Items(c, f);
    WithItems(c, f, s[index := SetField(s[index], e)])
  }

  /** The two single slots. */
  datatype Special = AttendanceSlot | PerformanceSlot

  function SlotOf(c: Config, t: Special): Option<Assessment>
  {
    match t
    case AttendanceSlot => c.attendance
    case PerformanceSlot => c.performance
  }

  /**
   * `updateSpecialAssessment(type, field, value)`: `{ ...prev[type], [field]: value }`.
   * Spreading a null slot yields an object with only the edited field, here a
   * blank item with that field set.
   */
  function UpdateSpecial(c: Config, t: Special, e: Edit): (r: Config)
    ensures SlotOf(r, t) == Some(SetField(SlotOf(c, t).GetOr(NewItem), e))
    ensures forall u :: u != t ==> SlotOf(r, u) == SlotOf(c, u)
    ensures forall g :: IsList(g) ==> Items(r, g) == Items(c, g)
  {
    var a := Some(SetField(SlotOf(c, t).GetOr(NewItem), e));
    match t
    case AttendanceSlot => c.(attendance := a)
    case PerformanceSlot => c.(performance := a)
  }

  // ---------------------------------------------------------------------------
  // handleSubmit

  /** A list item is complete: a non-empty name, positive marks and a CO. */
  predicate Complete(a: Assessment)
  {
    a.name != "" && a.maxMarks > 0.0 && a.co != ""
  }

  predicate AllComplete(s: seq<Assessment>)
  {
    forall i :: 0 <= i < |s| ==> Complete(s[i])
  }

  predicate ListsComplete(c: Config)
  {
    AllComplete(c.cts) && AllComplete(c.midTerm) && AllComplete(c.final) && AllComplete(c.assignments)
  }

  /**
   * What `handleSubmit` does: hand the configuration on, show the alert, or
   * fail reading `maxMarks` of a null slot.
   */
  datatype Outcome = Completed(config: Config) | Alert | TypeError

  /**
   * The `&&` chain evaluated left to right: a null slot is dereferenced only
   * when every test before it has passed.
   */
  function Submit(c: Config): Outcome
  {
    if !ListsComplete(c) then Alert
    else if c.attendance.None? then TypeError
    else if !(c.attendance.value.maxMarks > 0.0) then Alert
    else if c.performance.None? then TypeError
    else if !(c.performance.value.maxMarks > 0.0) then Alert
    else Completed(c)
  }

  /**
   * The configuration is handed on exactly when every list item is complete and
   * both slots are present with positive marks; the slots' COs are optional,
   * and what is handed on is the configuration itself.
   */
  lemma SubmitAccepts(c: Config)
    ensures Submit(c).Completed? <==>
      ListsComplete(c)
      && c.attendance.Some? && c.attendance.value.maxMarks > 0.0
      && c.performance.Some? && c.performance.value.maxMarks > 0.0
    ensures Submit(c).Completed? ==> Submit(c).config == c
  {
  }

  /** The default configuration is accepted as it stands, with no assessments in the lists. */
  lemma DefaultAccepted()
    ensures Submit(Initial(None)) == Completed(Default)
    ensures Entries(Default) == [Entry(Attendance, "Attendance", 10.0, ""), Entry(Performance, "Performance", 10.0, "")]
  {
    assert Entries(Default) == Slot(Attendance, "Attendance", Some(DefaultSlot))
      + Slot(Performance, "Performance", Some(DefaultSlot));
  }

  /** A freshly added item blocks submission until it is filled in. */
  lemma AddBlocksSubmit(c: Config, f: Family)
    requires IsList(f)
    ensures !Submit(Add(c, f)).Completed?
  {
    var s := Items(Add(c, f), f);
    assert s[|s| - 1] == NewItem && !Complete(NewItem);
    assert !AllComplete(s);
  }

  /** Clearing an item's name blocks submission. */
  lemma ClearedNameBlocksSubmit(c: Config, f: Family, index: nat)
    requires IsList(f) && index < |Items(c, f)|
    ensures !Submit(Update(c, f, index, Name(""))).Completed?
  {
    var s := Items(Update(c, f, index, Name("")), f);
    assert !Complete(s[index]);
  }

  /** Removing an item from an accepted configuration keeps it accepted. */
  lemma RemoveKeepsAccepted(c: Config, f: Family, index: int)
    requires IsList(f) && Submit(c).Completed?
    ensures Submit(Remove(c, f, index)).Completed?
  {
    RemoveEffect(c, f, index);
    var s := Items(c, f);
    var r := Items(Remove(c, f, index), f);
    if 0 <= index < |s| {
      assert forall i :: 0 <= i < |r| ==> r[i] == (if i < index then s[i] else s[i + 1]);
    }
    SubmitAccepts(c);
    SubmitAccepts(Remove(c, f, index));
  }
}
