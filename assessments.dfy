/**
 * The records shared by the parser, the calculation engines and the forms:
 * assessments grouped into families, students, and the marks table.
 */
module Assessments {
  import opened Options
  import opened Strings

  /** One gradable item. `co` is "CO1".."CO12" or "" when unassigned. */
  datatype Assessment = Assessment(name: string, maxMarks: real, co: string)

  /** The assessment configuration: four ordered families and two single slots. */
  datatype Config = Config(
    cts: seq<Assessment>,
    midTerm: seq<Assessment>,
    final: seq<Assessment>,
    assignments: seq<Assessment>,
    attendance: Option<Assessment>,
    performance: Option<Assessment>)

  const EmptyConfig := Config([], [], [], [], None, None)

  datatype Family = Cts | MidTerm | Final | Assignments | Attendance | Performance

  /** The `type` tag each family carries in mark keys. */
  function Tag(f: Family): string
  {
    match f
    case Cts => "cts"
    case MidTerm => "midTerm"
    case Final => "final"
    case Assignments => "assignments"
    case Attendance => "attendance"
    case Performance => "performance"
  }

  /** An assessment together with its family, as the components' `{ ...a, type }` objects. */
  datatype Entry = Entry(family: Family, name: string, maxMarks: real, co: string)

  /** The mark key `"<type>_<name>"`. */
  function MarkKey(f: Family, name: string): string
  {
    Tag(f) + "_" + name
  }

  function KeyOf(e: Entry): string
  {
    MarkKey(e.family, e.name)
  }

  function Typed(f: Family, s: seq<Assessment>): (r: seq<Entry>)
    ensures |r| == |s|
    ensures forall i :: 0 <= i < |s| ==> r[i] == Entry(f, s[i].name, s[i].maxMarks, s[i].co)
  {
    seq(|s|, i requires 0 <= i < |s| => Entry(f, s[i].name, s[i].maxMarks, s[i].co))
  }

  /** A single slot as a list of at most one entry, renamed to its fixed display name. */
  function Slot(f: Family, name: string, a: Option<Assessment>): seq<Entry>
  {
    match a
    case None => []
    case Some(x) => [Entry(f, name, x.maxMarks, x.co)]
  }

  /**
   * Every assessment of a configuration in the order cts, midTerm, final,
   * assignments, attendance, performance; the two slots are renamed "Attendance"
   * and "Performance". This is the list the results table and the marks-entry
   * form build; the attainment engine adds a CO default on top of it.
   */
  function Entries(c: Config): seq<Entry>
  {
    Typed(Cts, c.cts) + Typed(MidTerm, c.midTerm) + Typed(Final, c.final)
      + Typed(Assignments, c.assignments)
      + Slot(Attendance, "Attendance", c.attendance)
      + Slot(Performance, "Performance", c.performance)
  }

  /** `list.forEach(a => all.push({ ...a, type }))` */
  method PushAll(all: seq<Entry>, f: Family, s: seq<Assessment>) returns (r: seq<Entry>)
    ensures r == all + Typed(f, s)
  {
    r := all;
    var i := 0;
    while i < |s|
      invariant 0 <= i <= |s|
      invariant r == all + Typed(f, s[..i])
    {
      assert Typed(f, s[..i + 1]) == Typed(f, s[..i]) + [Entry(f, s[i].name, s[i].maxMarks, s[i].co)];
      r := r + [Entry(f, s[i].name, s[i].maxMarks, s[i].co)];
      i := i + 1;
    }
    assert s[..|s|] == s;
  }

  /**
   * Every assessment in table order, built by pushing each family in turn and
   * then the two slots under their display names.
   */
  method AllEntries(c: Config) returns (all: seq<Entry>)
    ensures all == Entries(c)
  {
    all := PushAll([], Cts, c.cts);
    assert all == Typed(Cts, c.cts);
    all := PushAll(all, MidTerm, c.midTerm);
    all := PushAll(all, Final, c.final);
    all := PushAll(all, Assignments, c.assignments);
    if c.attendance.Some? {
      all := all + [Entry(Attendance, "Attendance", c.attendance.value.maxMarks, c.attendance.value.co)];
    }
    if c.performance.Some? {
      all := all + [Entry(Performance, "Performance", c.performance.value.maxMarks, c.performance.value.co)];
    }
  }

  /** The summed maximum marks of a list of assessments. */
  function MaxTotal(es: seq<Entry>): real
  {
    if |es| == 0 then 0.0 else MaxTotal(es[..|es| - 1]) + es[|es| - 1].maxMarks
  }

  /** A stored mark: the empty input `''` or a number. */
  datatype Mark = Blank | Score(value: real)

  /** Student id -> mark key -> mark. */
  type MarksTable = map<string, map<string, Mark>>

  /** `parseFloat(marks[id]?.[key] || 0) || 0`: absent and blank marks read as 0. */
  function MarkValue(marks: MarksTable, id: string, key: string): real
  {
    if id in marks && key in marks[id] && marks[id][key].Score? then marks[id][key].value else 0.0
  }

  datatype Student = Student(id: string, name: string)

  /** The ids of a list of students. */
  function Ids(students: seq<Student>): set<string>
  {
    set i | 0 <= i < |students| :: students[i].id
  }

  function CoKey(n: nat): string
  {
    "CO" + NatToString(n)
  }

  function PoKey(n: nat): string
  {
    "PO" + NatToString(n)
  }

  lemma CoKeyInjective(a: nat, b: nat)
    requires CoKey(a) == CoKey(b)
    ensures a == b
  {
    assert NatToString(a) == CoKey(a)[2..];
    assert NatToString(b) == CoKey(b)[2..];
    NatToStringInjective(a, b);
  }

  lemma PoKeyInjective(a: nat, b: nat)
    requires PoKey(a) == PoKey(b)
    ensures a == b
  {
    assert NatToString(a) == PoKey(a)[2..];
    assert NatToString(b) == PoKey(b)[2..];
    NatToStringInjective(a, b);
  }

  /** The twelve course-outcome keys CO1..CO12. */
  function CoKeys(): set<string>
  {
    set n | 1 <= n <= 12 :: CoKey(n)
  }

  /** The twelve program-outcome keys PO1..PO12. */
  function PoKeys(): set<string>
  {
    set n | 1 <= n <= 12 :: PoKey(n)
  }
}
