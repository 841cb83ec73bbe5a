/**
 * Mapping assessments to data columns (`extractStudentData` in
 * src/utils/excelParser.js, second half): the expected order of the configured
 * assessments, the match of header texts against it, and the position-based
 * fill that takes over when too few headers match.
 */
module ExcelMapping {
  import opened Options
  import opened Strings
  import opened Cells
  import opened Assessments
  import opened ExcelColumns

  // ---------------------------------------------------------------------------
  // The expected order

  /** One configured assessment the parser looks for, with the texts a header may show for it. */
  datatype Expected = Expected(key: string, name: string, family: Family, patterns: seq<string>)

  /** `name.replace(/^ct-/i, '')` */
  function DropCtPrefix(name: string): string
  {
    if |name| >= 3 && Lower(name[..3]) == "ct-" then name[3..] else name
  }

  function CtExpected(a: Assessment): Expected
  {
    Expected(MarkKey(Cts, a.name), a.name, Cts,
      [Upper(a.name), "CT-" + ReplaceFirst(ReplaceFirst(a.name, "CT-", ""), "ct-", ""), Upper(DropCtPrefix(a.name))])
  }

  function AssignmentExpected(a: Assessment): Expected
  {
    Expected(MarkKey(Assignments, a.name), a.name, Assignments, [Upper(a.name), "ASSIGNMENT"])
  }

  function MidTermExpected(a: Assessment): Expected
  {
    var u := Upper(a.name);
    Expected(MarkKey(MidTerm, a.name), a.name, MidTerm, [u, "MID TERM " + u, "MIDTERM " + u, "MID " + u])
  }

  function FinalExpected(a: Assessment): Expected
  {
    var u := Upper(a.name);
    Expected(MarkKey(Final, a.name), a.name, Final, [u, "TERM FINAL " + u, "FINAL " + u, "TERM " + u])
  }

  function SlotExpected(f: Family, name: string, a: Option<Assessment>, pattern: string): seq<Expected>
  {
    if a.Some? then [Expected(MarkKey(f, name), name, f, [pattern])] else []
  }

  function MapExpected(s: seq<Assessment>, f: Assessment -> Expected): (r: seq<Expected>)
    ensures |r| == |s| && forall i :: 0 <= i < |s| ==> r[i] == f(s[i])
  {
    seq(|s|, i requires 0 <= i < |s| => f(s[i]))
  }

  /**
   * The order the data columns are expected in: CTs, assignments, attendance,
   * performance, mid-term questions, final questions.
   */
  function ExpectedOrder(c: Config): seq<Expected>
  {
    MapExpected(c.cts, CtExpected) + MapExpected(c.assignments, AssignmentExpected)
    + SlotExpected(Attendance, "Attendance", c.attendance, "ATTENDANCE")
    + SlotExpected(Performance, "Performance", c.performance, "PERFORMANCE")
    + MapExpected(c.midTerm, MidTermExpected) + MapExpected(c.final, FinalExpected)
  }

  /** Number of entries of family f. */
  function FamilyCount(es: seq<Expected>, f: Family): (n: nat)
    ensures n <= |es|
  {
    if |es| == 0 then 0 else FamilyCount(es[..|es| - 1], f) + (if es[|es| - 1].family == f then 1 else 0)
  }

  lemma {:induction false} FamilyCountAppend(a: seq<Expected>, b: seq<Expected>, f: Family)
    ensures FamilyCount(a + b, f) == FamilyCount(a, f) + FamilyCount(b, f)
  {
    if |b| > 0 {
      assert (a + b)[..|a + b| - 1] == a + b[..|b| - 1];
      FamilyCountAppend(a, b[..|b| - 1], f);
    } else {
      assert a + b == a;
    }
  }

  lemma {:induction false} FamilyCountUniform(es: seq<Expected>, f: Family)
    requires forall i :: 0 <= i < |es| ==> es[i].family == f
    ensures FamilyCount(es, f) == |es|
    ensures forall g :: g != f ==> FamilyCount(es, g) == 0
  {
    if |es| > 0 {
      FamilyCountUniform(es[..|es| - 1], f);
    }
  }

  /** Every entry carries its mark key. */
  predicate Keyed(es: seq<Expected>)
  {
    forall i :: 0 <= i < |es| ==> es[i].key == MarkKey(es[i].family, es[i].name)
  }

  lemma KeyedAppend(a: seq<Expected>, b: seq<Expected>)
    requires Keyed(a) && Keyed(b)
    ensures Keyed(a + b)
  {
    forall i | 0 <= i < |a + b|
      ensures (a + b)[i].key == MarkKey((a + b)[i].family, (a + b)[i].name)
    {
      if i >= |a| {
        assert (a + b)[i] == b[i - |a|];
      }
    }
  }

  /**
   * The expected order carries every configured assessment once, under its mark
   * key.
   */
  lemma ExpectedOrderKeys(c: Config)
    ensures |ExpectedOrder(c)| == |c.cts| + |c.assignments| + |c.midTerm| + |c.final|
      + (if c.attendance.Some? then 1 else 0) + (if c.performance.Some? then 1 else 0)
    ensures Keyed(ExpectedOrder(c))
  {
    var a := MapExpected(c.cts, CtExpected);
    var b := MapExpected(c.assignments, AssignmentExpected);
    var d := SlotExpected(Attendance, "Attendance", c.attendance, "ATTENDANCE");
    var e := SlotExpected(Performance, "Performance", c.performance, "PERFORMANCE");
    var m := MapExpected(c.midTerm, MidTermExpected);
    var f := MapExpected(c.final, FinalExpected);
    KeyedAppend(a, b);
    KeyedAppend(a + b, d);
    KeyedAppend(a + b + d, e);
    KeyedAppend(a + b + d + e, m);
    KeyedAppend(a + b + d + e + m, f);
  }

  predicate AllOf(es: seq<Expected>, f: Family)
  {
    forall i :: 0 <= i < |es| ==> es[i].family == f
  }

  /** Counting mid-term and final entries across the six blocks of the expected order. */
  lemma BlockCounts(a: seq<Expected>, b: seq<Expected>, d: seq<Expected>, e: seq<Expected>, m: seq<Expected>, f: seq<Expected>)
    requires AllOf(a, Cts) && AllOf(b, Assignments) && AllOf(d, Attendance) && AllOf(e, Performance)
    requires AllOf(m, MidTerm) && AllOf(f, Final)
    ensures FamilyCount(a + b + d + e + m + f, MidTerm) == |m|
    ensures FamilyCount(a + b + d + e + m + f, Final) == |f|
  {
    FamilyCountUniform(a, Cts);
    FamilyCountUniform(b, Assignments);
    FamilyCountUniform(d, Attendance);
    FamilyCountUniform(e, Performance);
    FamilyCountUniform(m, MidTerm);
    FamilyCountUniform(f, Final);
    FamilyCountAppend(a, b, MidTerm);
    FamilyCountAppend(a + b, d, MidTerm);
    FamilyCountAppend(a + b + d, e, MidTerm);
    FamilyCountAppend(a + b + d + e, m, MidTerm);
    FamilyCountAppend(a + b + d + e + m, f, MidTerm);
    FamilyCountAppend(a, b, Final);
    FamilyCountAppend(a + b, d, Final);
    FamilyCountAppend(a + b + d, e, Final);
    FamilyCountAppend(a + b + d + e, m, Final);
    FamilyCountAppend(a + b + d + e + m, f, Final);
  }

  /** As many mid-term and final entries as the configuration has questions. */
  lemma ExpectedOrderCounts(c: Config)
    ensures FamilyCount(ExpectedOrder(c), MidTerm) == |c.midTerm|
    ensures FamilyCount(ExpectedOrder(c), Final) == |c.final|
  {
    BlockCounts(MapExpected(c.cts, CtExpected), MapExpected(c.assignments, AssignmentExpected),
      SlotExpected(Attendance, "Attendance", c.attendance, "ATTENDANCE"),
      SlotExpected(Performance, "Performance", c.performance, "PERFORMANCE"),
      MapExpected(c.midTerm, MidTermExpected), MapExpected(c.final, FinalExpected));
  }

  // ---------------------------------------------------------------------------
  // Matching headers against the expected order

  /** `assessmentColMap[key]` is truthy: present and not column 0. */
  predicate Mapped(m: map<string, int>, key: string)
  {
    key in m && m[key] != 0
  }

  /** Number of entries of family f that are already mapped. */
  function MappedCount(es: seq<Expected>, m: map<string, int>, f: Family): (n: nat)
    ensures n <= FamilyCount(es, f)
  {
    if |es| == 0 then 0
    else MappedCount(es[..|es| - 1], m, f) + (if es[|es| - 1].family == f && Mapped(m, es[|es| - 1].key) then 1 else 0)
  }

  /** An unmapped entry of family f leaves room in the count of mapped entries of f. */
  lemma {:induction false} UnmappedLeavesRoom(es: seq<Expected>, m: map<string, int>, j: nat)
    requires j < |es| && !Mapped(m, es[j].key)
    ensures MappedCount(es, m, es[j].family) < FamilyCount(es, es[j].family)
  {
    var f := es[j].family;
    if j < |es| - 1 {
      UnmappedLeavesRoom(es[..|es| - 1], m, j);
    }
  }

  /** A header and a search pattern match when either contains the other. */
  predicate PatternMatch(headerUpper: string, pattern: string)
  {
    headerUpper == pattern || Contains(headerUpper, pattern) || Contains(pattern, headerUpper)
  }

  predicate AnyPattern(headerUpper: string, patterns: seq<string>)
  {
    exists p :: p in patterns && PatternMatch(headerUpper, p)
  }

  /** `parseInt` of a string of digits; the empty string gives NaN. */
  function ParseDigits(s: string): Option<nat>
    requires AllDigits(s)
  {
    if |s| == 0 then None else Some(DigitsValue(s))
  }

  /**
   * The question rule for entry e named like "Q3": a header whose digits read 3
   * takes it when the header says "mid" and e is a mid-term question, when it says
   * "final" and e is a final question, or when it says neither and fewer
   * entries of e's family than configured are mapped.
   */
  predicate QuestionRule(header: string, headerUpper: string, es: seq<Expected>, e: Expected,
                         m: map<string, int>, c: Config)
  {
    var u := Upper(e.name);
    IsQuestionLabel(u)
    && var hq := ParseDigits(DigitsOnly(headerUpper));
    hq.Some? && hq.value == DigitsValue(u[1..])
    && var mid := Contains(Lower(header), "mid");
    var fin := Contains(Lower(header), "final");
    if mid && e.family == MidTerm then true
    else if fin && e.family == Final then true
    else if !mid && !fin then
      (e.family == MidTerm && MappedCount(es, m, MidTerm) < |c.midTerm|)
      || (e.family == Final && MappedCount(es, m, Final) < |c.final|)
    else false
  }

  /** The question rule without its count condition. */
  predicate QuestionRuleByContext(header: string, headerUpper: string, e: Expected)
  {
    var u := Upper(e.name);
    IsQuestionLabel(u)
    && var hq := ParseDigits(DigitsOnly(headerUpper));
    hq.Some? && hq.value == DigitsValue(u[1..])
    && var mid := Contains(Lower(header), "mid");
    var fin := Contains(Lower(header), "final");
    if mid then e.family == MidTerm || (fin && e.family == Final)
    else if fin then e.family == Final
    else e.family == MidTerm || e.family == Final
  }

  /**
   * The count condition never decides anything: for an entry of the expected
   * order that is not yet mapped, fewer entries of its family than configured
   * are mapped, so a context-free "Qn" header goes to the first unmapped question
   * numbered n, mid-term before final.
   */
  lemma CountConditionRedundant(header: string, headerUpper: string, c: Config, j: nat, m: map<string, int>)
    requires j < |ExpectedOrder(c)| && !Mapped(m, ExpectedOrder(c)[j].key)
    ensures var es := ExpectedOrder(c);
      QuestionRule(header, headerUpper, es, es[j], m, c) == QuestionRuleByContext(header, headerUpper, es[j])
  {
    ExpectedOrderCounts(c);
    UnmappedLeavesRoom(ExpectedOrder(c), m, j);
  }

  /** The header with parenthesised annotations removed, trimmed and upper-cased. */
  function CleanHeader(h: string): string
  {
    Upper(Trim(StripAnnotations(h)))
  }

  /** Whether header column col takes the expected entry es[j], given the map so far. */
  predicate TakesEntry(rt: Runtime, header: seq<Cell>, c: Config, col: int, j: int, m: map<string, int>)
  {
    var es := ExpectedOrder(c);
    0 <= j < |es|
    && var h := TrimmedText(rt, header, col);
    var hu := CleanHeader(h);
    AnyPattern(hu, es[j].patterns) || QuestionRule(h, hu, es, es[j], m, c)
  }

  /** The header tests of a sheet, as the matching loops use them. */
  datatype HeaderTests = HeaderTests(
    blank: int -> bool,
    takes: (int, int, map<string, int>) -> bool)

  function TemplateHeaderTests(rt: Runtime, header: seq<Cell>, c: Config): HeaderTests
  {
    HeaderTests(
      col => TrimmedText(rt, header, col) == "",
      (col, j, m) => TakesEntry(rt, header, c, col, j, m))
  }

  // ---------------------------------------------------------------------------
  // The text pass

  /** The first unmapped entry at or after j that column col takes, or -1. */
  function FirstTaken(es: seq<Expected>, t: HeaderTests, m: map<string, int>, col: int, j: nat): (r: int)
    requires j <= |es|
    decreases |es| - j
    ensures r == -1 || (j <= r < |es| && !Mapped(m, es[r].key) && t.takes(col, r, m))
    ensures forall i :: j <= i < |es| && (r == -1 || i < r) ==> Mapped(m, es[i].key) || !t.takes(col, i, m)
  {
    if j == |es| then -1
    else if !Mapped(m, es[j].key) && t.takes(col, j, m) then j
    else FirstTaken(es, t, m, col, j + 1)
  }

  /** The loop over the expected order for one header column. */
  method MatchHeader(es: seq<Expected>, t: HeaderTests, m: map<string, int>, col: int) returns (r: int)
    ensures r == FirstTaken(es, t, m, col, 0)
  {
    var j := 0;
    while j < |es|
      invariant 0 <= j <= |es|
      invariant FirstTaken(es, t, m, col, 0) == FirstTaken(es, t, m, col, j)
    {
      if Mapped(m, es[j].key) {
        j := j + 1;
        continue;
      }
      if t.takes(col, j, m) {
        return j;
      }
      j := j + 1;
    }
    r := -1;
  }

  /** The column map and the set of used columns. */
  datatype Matching = Matching(m: map<string, int>, used: set<int>)

  function MatchStep(es: seq<Expected>, t: HeaderTests, st: Matching, col: int): Matching
  {
    if col in st.used || t.blank(col) then st
    else
      var j := FirstTaken(es, t, st.m, col, 0);
      if j == -1 then st else Matching(st.m[es[j].key := col], st.used + {col})
  }

  /** The text pass over columns 0 .. n-1, starting from the reserved columns. */
  function MatchColumns(es: seq<Expected>, t: HeaderTests, used0: set<int>, n: nat): Matching
  {
    if n == 0 then Matching(map[], used0) else MatchStep(es, t, MatchColumns(es, t, used0, n - 1), n - 1)
  }

  method MatchHeaders(es: seq<Expected>, t: HeaderTests, used0: set<int>, width: nat) returns (m: map<string, int>, used: set<int>)
    ensures Matching(m, used) == MatchColumns(es, t, used0, width)
  {
    m, used := map[], used0;
    var col := 0;
    while col < width
      invariant 0 <= col <= width
      invariant Matching(m, used) == MatchColumns(es, t, used0, col)
    {
      if col in used || t.blank(col) {
        col := col + 1;
        continue;
      }
      var j := MatchHeader(es, t, m, col);
      if j != -1 {
        m := m[es[j].key := col];
        used := used + {col};
      }
      col := col + 1;
    }
  }

  // ---------------------------------------------------------------------------
  // The position-based fill

  /** The first column at or after c that is not used, or the first at or past width. */
  function NextFree(used: set<int>, c: int, width: int): (r: int)
    decreases width - c
    ensures r >= c && (r < width ==> r !in used)
    ensures forall d :: c <= d < r ==> d in used
  {
    if c < width && c in used then NextFree(used, c + 1, width) else c
  }

  datatype Filling = Filling(m: map<string, int>, used: set<int>, next: int)

  /**
   * One entry of the fill: when it is to be filled (every entry, or only the
   * unmapped ones), it takes the next free column, if one is left.
   */
  function FillStep(es: seq<Expected>, onlyMissing: bool, width: int, st: Filling, j: nat): Filling
    requires j < |es|
  {
    if onlyMissing && Mapped(st.m, es[j].key) then st
    else
      var c := NextFree(st.used, st.next, width);
      if c < width then Filling(st.m[es[j].key := c], st.used + {c}, c + 1)
      else st.(next := c)
  }

  function Fill(es: seq<Expected>, onlyMissing: bool, width: int, init: Filling, n: nat): Filling
    requires n <= |es|
  {
    if n == 0 then init else FillStep(es, onlyMissing, width, Fill(es, onlyMissing, width, init, n - 1), n - 1)
  }

  method FillColumns(es: seq<Expected>, onlyMissing: bool, width: int, init: Filling) returns (st: Filling)
    ensures st == Fill(es, onlyMissing, width, init, |es|)
  {
    var m, used, colIndex := init.m, init.used, init.next;
    var j := 0;
    while j < |es|
      invariant 0 <= j <= |es|
      invariant Filling(m, used, colIndex) == Fill(es, onlyMissing, width, init, j)
    {
      if !(onlyMissing && Mapped(m, es[j].key)) {
        ghost var from := colIndex;
        while colIndex in used && colIndex < width
          invariant NextFree(used, colIndex, width) == NextFree(used, from, width)
          decreases width - colIndex
        {
          colIndex := colIndex + 1;
        }
        if colIndex < width {
          m := m[es[j].key := colIndex];
          used := used + {colIndex};
          colIndex := colIndex + 1;
        }
      }
      j := j + 1;
    }
    st := Filling(m, used, colIndex);
  }

  // ---------------------------------------------------------------------------
  // The column map

  /**
   * The text pass, then: when fewer than half of the expected entries have a key
   * in the map, the map is discarded and every entry is placed by position from
   * the column after ID and Name; otherwise only the unmapped entries are.
   */
  function ColumnMap(es: seq<Expected>, t: HeaderTests, k: KeyColumns, width: nat): map<string, int>
  {
    var text := MatchColumns(es, t, Reserved(k), width);
    var start := (if k.idCol > k.nameCol then k.idCol else k.nameCol) + 1;
    if 2 * |text.m| < |es| then Fill(es, false, width, Filling(map[], Reserved(k), start), |es|).m
    else Fill(es, true, width, Filling(text.m, text.used, start), |es|).m
  }

  method MapColumns(es: seq<Expected>, t: HeaderTests, k: KeyColumns, used0: set<int>, width: nat) returns (m: map<string, int>)
    requires used0 == Reserved(k)
    ensures m == ColumnMap(es, t, k, width)
  {
    var used;
    m, used := MatchHeaders(es, t, used0, width);
    var start := (if k.idCol > k.nameCol then k.idCol else k.nameCol) + 1;
    var st;
    if 2 * |m| < |es| {
      st := FillColumns(es, false, width, Filling(map[], Reserved(k), start));
    } else {
      st := FillColumns(es, true, width, Filling(m, used, start));
    }
    m := st.m;
  }

  /**
   * A map a sheet can be read through: every mapped column is a real column of
   * the header row, none is the ID, Name or No. column, and no two keys share one.
   */
  predicate Sound(m: map<string, int>, used: set<int>, reserved: set<int>, width: int)
  {
    && reserved <= used
    && (forall key :: key in m ==> m[key] in used && 0 <= m[key] < width && m[key] !in reserved)
    && (forall k1, k2 :: k1 in m && k2 in m && m[k1] == m[k2] ==> k1 == k2)
  }

  lemma {:induction false} MatchColumnsSound(es: seq<Expected>, t: HeaderTests, reserved: set<int>, n: nat)
    ensures var st := MatchColumns(es, t, reserved, n);
      Sound(st.m, st.used, reserved, n)
  {
    if n > 0 {
      MatchColumnsSound(es, t, reserved, n - 1);
    }
  }

  lemma {:induction false} FillSound(es: seq<Expected>, onlyMissing: bool, width: int, init: Filling, reserved: set<int>, n: nat)
    requires n <= |es|
    requires Sound(init.m, init.used, reserved, width) && init.next >= 0
    ensures var st := Fill(es, onlyMissing, width, init, n);
      Sound(st.m, st.used, reserved, width) && st.next >= 0
  {
    if n > 0 {
      FillSound(es, onlyMissing, width, init, reserved, n - 1);
    }
  }

  lemma MatchColumnsWiden(es: seq<Expected>, t: HeaderTests, reserved: set<int>, n: nat, width: int)
    requires n <= width
    ensures var st := MatchColumns(es, t, reserved, n);
      Sound(st.m, st.used, reserved, width)
  {
    MatchColumnsSound(es, t, reserved, n);
  }

  /**
   * Every mapped column lies in the header row and is none of ID, Name and No.,
   * and no two assessments share a column.
   */
  lemma ColumnMapSound(es: seq<Expected>, t: HeaderTests, k: KeyColumns, width: nat)
    requires k.idCol >= 0 && k.nameCol >= 0
    ensures var m := ColumnMap(es, t, k, width);
      && (forall key :: key in m ==> 0 <= m[key] < width && m[key] != k.idCol && m[key] != k.nameCol && m[key] != k.noCol)
      && (forall k1, k2 :: k1 in m && k2 in m && m[k1] == m[k2] ==> k1 == k2)
  {
    var text := MatchColumns(es, t, Reserved(k), width);
    var start := (if k.idCol > k.nameCol then k.idCol else k.nameCol) + 1;
    MatchColumnsSound(es, t, Reserved(k), width);
    FillSound(es, false, width, Filling(map[], Reserved(k), start), Reserved(k), |es|);
    FillSound(es, true, width, Filling(text.m, text.used, start), Reserved(k), |es|);
  }

  lemma {:induction false} FillKeepsMapped(es: seq<Expected>, width: int, init: Filling, n: nat)
    requires n <= |es|
    ensures var st := Fill(es, true, width, init, n);
      forall key :: Mapped(init.m, key) ==> key in st.m && st.m[key] == init.m[key]
  {
    if n > 0 {
      FillKeepsMapped(es, width, init, n - 1);
    }
  }

  /**
   * When at least half of the expected entries matched by text, every text match
   * on a column other than 0 survives the fill unchanged.
   */
  lemma TextMatchesKept(es: seq<Expected>, t: HeaderTests, k: KeyColumns, width: nat)
    ensures var text := MatchColumns(es, t, Reserved(k), width);
      2 * |text.m| >= |es| ==>
        forall key :: Mapped(text.m, key) ==> key in ColumnMap(es, t, k, width) && ColumnMap(es, t, k, width)[key] == text.m[key]
  {
    var text := MatchColumns(es, t, Reserved(k), width);
    var start := (if k.idCol > k.nameCol then k.idCol else k.nameCol) + 1;
    FillKeepsMapped(es, width, Filling(text.m, text.used, start), |es|);
  }

  // ---------------------------------------------------------------------------
  // The position-based fallback, column by column

  /** The columns in [c, width) outside used, in increasing order. */
  function FreeColumns(used: set<int>, c: int, width: int): seq<int>
    decreases width - c
  {
    if c >= width then []
    else if c in used then FreeColumns(used, c + 1, width)
    else [c] + FreeColumns(used, c + 1, width)
  }

  /** Every column of f lies in [c, width) and outside used. */
  predicate FreeWithin(f: seq<int>, used: set<int>, c: int, width: int)
  {
    forall i :: 0 <= i < |f| ==> c <= f[i] < width && f[i] !in used
  }

  predicate Increasing(f: seq<int>)
  {
    forall i, j :: 0 <= i < j < |f| ==> f[i] < f[j]
  }

  /** The free columns lie in [c, width), outside used, in increasing order. */
  lemma {:induction false} FreeColumnsBounds(used: set<int>, c: int, width: int)
    decreases width - c
    ensures FreeWithin(FreeColumns(used, c, width), used, c, width)
    ensures Increasing(FreeColumns(used, c, width))
  {
    if c < width {
      FreeColumnsBounds(used, c + 1, width);
      var rest := FreeColumns(used, c + 1, width);
      if c !in used {
        var f := [c] + rest;
        assert FreeColumns(used, c, width) == f;
        assert forall i :: 0 < i < |f| ==> f[i] == rest[i - 1];
      }
    }
  }

  /** The first free column is the one the skip loop stops at; the rest start after it. */
  lemma {:induction false} FreeColumnsHead(used: set<int>, c: int, width: int)
    decreases width - c
    ensures var f := FreeColumns(used, c, width);
      && (|f| == 0 ==> NextFree(used, c, width) >= width)
      && (|f| > 0 ==> f[0] == NextFree(used, c, width) && f[1..] == FreeColumns(used, f[0] + 1, width))
  {
    if c < width && c in used {
      FreeColumnsHead(used, c + 1, width);
    }
  }

  /** Only the columns from c on matter to the free columns from c. */
  lemma {:induction false} FreeColumnsAbove(u1: set<int>, u2: set<int>, c: int, width: int)
    requires forall d :: d >= c ==> (d in u1 <==> d in u2)
    decreases width - c
    ensures FreeColumns(u1, c, width) == FreeColumns(u2, c, width)
    ensures NextFree(u1, c, width) == NextFree(u2, c, width)
  {
    if c < width {
      FreeColumnsAbove(u1, u2, c + 1, width);
    }
  }

  predicate DistinctKeys(es: seq<Expected>)
  {
    forall i, j :: 0 <= i < j < |es| ==> es[i].key != es[j].key
  }

  /** The columns above st.next are used exactly when reserved, and the free ones left are f[n..]. */
  ghost predicate Tracked(reserved: set<int>, width: int, f: seq<int>, n: nat, st: Filling)
  {
    && (forall d :: d >= st.next ==> (d in st.used <==> d in reserved))
    && FreeColumns(reserved, st.next, width) == (if n <= |f| then f[n..] else [])
  }

  /** Entry i < n holds f[i] when there is one and no column otherwise. */
  ghost predicate Placed(es: seq<Expected>, f: seq<int>, n: nat, m: map<string, int>)
    requires n <= |es|
  {
    && (forall i :: 0 <= i < n && i < |f| ==> es[i].key in m && m[es[i].key] == f[i])
    && (forall i :: 0 <= i < n && i >= |f| ==> es[i].key !in m)
  }

  /** The map the first n entries build when entry i takes f[i] while free columns last. */
  ghost function PositionMap(es: seq<Expected>, f: seq<int>, n: nat): map<string, int>
    requires n <= |es|
  {
    if n == 0 then map[]
    else if n - 1 < |f| then PositionMap(es, f, n - 1)[es[n - 1].key := f[n - 1]]
    else PositionMap(es, f, n - 1)
  }

  /** With distinct keys, the position map places every entry as intended. */
  lemma {:induction false} PositionMapPlaced(es: seq<Expected>, f: seq<int>, n: nat)
    requires n <= |es| && DistinctKeys(es)
    ensures Placed(es, f, n, PositionMap(es, f, n))
    ensures forall key :: key in PositionMap(es, f, n) ==> exists i :: 0 <= i < n && i < |f| && es[i].key == key
  {
    if n > 0 {
      PositionMapPlaced(es, f, n - 1);
    }
  }

  /** Entry i < n with a free column keeps f[i] unless a later entry with a free column shares its key. */
  ghost predicate KeptUnlessReused(es: seq<Expected>, f: seq<int>, n: nat, m: map<string, int>)
    requires n <= |es|
  {
    forall i :: 0 <= i < n && i < |f| && (forall j :: i < j < n && j < |f| ==> es[j].key != es[i].key) ==>
      es[i].key in m && m[es[i].key] == f[i]
  }

  /** A key is mapped exactly when some entry i < n that has a free column carries it. */
  ghost predicate KeysPlaced(es: seq<Expected>, f: seq<int>, n: nat, m: map<string, int>)
    requires n <= |es|
  {
    forall key :: key in m <==> exists i :: 0 <= i < n && i < |f| && es[i].key == key
  }

  /** With repeated keys, a key is mapped exactly when some entry carrying it took a free column. */
  lemma {:induction false} PositionMapKeys(es: seq<Expected>, f: seq<int>, n: nat)
    requires n <= |es|
    ensures KeysPlaced(es, f, n, PositionMap(es, f, n))
  {
    if n > 0 {
      var m := n - 1;
      PositionMapKeys(es, f, m);
      var prev, cur := PositionMap(es, f, m), PositionMap(es, f, n);
      forall key
        ensures key in cur <==> exists i :: 0 <= i < n && i < |f| && es[i].key == key
      {
        if key in cur && !(m < |f| && key == es[m].key) {
          assert key in prev;
          var i :| 0 <= i < m && i < |f| && es[i].key == key;
        }
        if exists i :: 0 <= i < n && i < |f| && es[i].key == key {
          var i :| 0 <= i < n && i < |f| && es[i].key == key;
          if i < m {
            assert key in prev;
          }
        }
      }
    }
  }

  /**
   * With repeated keys, a later entry overwrites an earlier one: an entry with a
   * free column keeps it when no later entry with a free column shares its key.
   */
  lemma {:induction false} PositionMapLastWins(es: seq<Expected>, f: seq<int>, n: nat)
    requires n <= |es|
    ensures KeptUnlessReused(es, f, n, PositionMap(es, f, n))
  {
    if n > 0 {
      var m := n - 1;
      PositionMapLastWins(es, f, m);
      var prev, cur := PositionMap(es, f, m), PositionMap(es, f, n);
      forall i | 0 <= i < n && i < |f| && (forall j :: i < j < n && j < |f| ==> es[j].key != es[i].key)
        ensures es[i].key in cur && cur[es[i].key] == f[i]
      {
        if i < m {
          assert forall j :: i < j < m && j < |f| ==> es[j].key != es[i].key;
          assert es[i].key in prev && prev[es[i].key] == f[i];
        }
      }
    }
  }

  lemma FillByPositionStep(es: seq<Expected>, reserved: set<int>, width: int, f: seq<int>, p: Filling, j: nat, st: Filling)
    requires j < |es|
    requires Tracked(reserved, width, f, j, p) && p.m == PositionMap(es, f, j)
    requires st == FillStep(es, false, width, p, j)
    ensures Tracked(reserved, width, f, j + 1, st) && st.m == PositionMap(es, f, j + 1) && st.next >= p.next
  {
    FreeColumnsAbove(p.used, reserved, p.next, width);
    FreeColumnsHead(reserved, p.next, width);
    FreeColumnsBounds(reserved, p.next, width);
    var c := NextFree(p.used, p.next, width);
    if j < |f| {
      assert f[j..][0] == f[j] && f[j..][1..] == f[j + 1..];
      assert c == f[j] && c < width;
    } else {
      assert c >= width;
      assert FreeColumns(reserved, c, width) == [];
    }
  }

  /** The fill from an empty map, entry by entry. */
  lemma {:induction false} FillByPosition(es: seq<Expected>, reserved: set<int>, start: int, width: int, n: nat)
    requires n <= |es|
    ensures var st := Fill(es, false, width, Filling(map[], reserved, start), n);
      var f := FreeColumns(reserved, start, width);
      st.next >= start && Tracked(reserved, width, f, n, st) && st.m == PositionMap(es, f, n)
  {
    var f := FreeColumns(reserved, start, width);
    if n > 0 {
      FillByPosition(es, reserved, start, width, n - 1);
      var p := Fill(es, false, width, Filling(map[], reserved, start), n - 1);
      FillByPositionStep(es, reserved, width, f, p, n - 1, Fill(es, false, width, Filling(map[], reserved, start), n));
    } else {
      assert f[0..] == f;
    }
  }

  /**
   * In the position-based fallback the text matches play no part: the i-th
   * expected entry takes the i-th column after ID and Name that is none of ID,
   * Name and No., and entries beyond the last such column take none. A key that
   * several entries share ends up with the column of the last of them that took
   * one, as the source's repeated assignment leaves it; with distinct keys every
   * entry keeps its own column.
   */
  lemma FallbackByPosition(es: seq<Expected>, t: HeaderTests, k: KeyColumns, width: nat)
    ensures var text := MatchColumns(es, t, Reserved(k), width);
      var start := (if k.idCol > k.nameCol then k.idCol else k.nameCol) + 1;
      var f := FreeColumns(Reserved(k), start, width);
      var m := ColumnMap(es, t, k, width);
      2 * |text.m| < |es| ==>
        && KeptUnlessReused(es, f, |es|, m)
        && KeysPlaced(es, f, |es|, m)
        && (DistinctKeys(es) ==> Placed(es, f, |es|, m))
  {
    var text := MatchColumns(es, t, Reserved(k), width);
    var start := (if k.idCol > k.nameCol then k.idCol else k.nameCol) + 1;
    if 2 * |text.m| < |es| {
      var st := Fill(es, false, width, Filling(map[], Reserved(k), start), |es|);
      assert ColumnMap(es, t, k, width) == st.m;
      FillByPosition(es, Reserved(k), start, width, |es|);
      PositionMapLastWins(es, FreeColumns(Reserved(k), start, width), |es|);
      PositionMapKeys(es, FreeColumns(Reserved(k), start, width), |es|);
      if DistinctKeys(es) {
        PositionMapPlaced(es, FreeColumns(Reserved(k), start, width), |es|);
      }
    }
  }
}
