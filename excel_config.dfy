/**
 * The assessment-configuration block of an uploaded sheet (`extractAssessmentConfig`
 * in src/utils/excelParser.js): locate the names row, the max-marks row and the CO
 * row, then sort each column into a family.
 */
module ExcelConfig {
  import opened Options
  import opened Strings
  import opened Cells
  import opened Assessments

  function Min(a: int, b: int): int { if a <= b then a else b }

  // ---------------------------------------------------------------------------
  // Row tests

  /** A cell that names an assessment: CT-n, Qn, ASSIGNMENT, or mentions ATTENDANCE/PERFORMANCE. */
  predicate IsNameCell(rt: Runtime, c: Cell)
  {
    var u := Trim(Upper(CellString(rt, c)));
    IsCtLabel(u) || IsQuestionLabel(u) || u == "ASSIGNMENT"
    || Contains(u, "ATTENDANCE") || Contains(u, "PERFORMANCE")
  }

  /** A cell holding one of the template's maximum marks, 10 or 30. */
  predicate IsMaxMarksCell(rt: Runtime, c: Cell)
  {
    CellNumber(rt, c) == Some(10.0) || CellNumber(rt, c) == Some(30.0)
  }

  /** A cell holding a whole number between 1 and 12. */
  predicate IsCoCell(rt: Runtime, c: Cell)
  {
    var v := CellNumber(rt, c);
    v.Some? && 1.0 <= v.value <= 12.0 && v.value == v.value.Floor as real
  }

  datatype RowKind = NamesRow | MaxMarksRow | CoRow

  predicate IsKindCell(rt: Runtime, c: Cell, k: RowKind)
  {
    match k
    case NamesRow => IsNameCell(rt, c)
    case MaxMarksRow => IsMaxMarksCell(rt, c)
    case CoRow => IsCoCell(rt, c)
  }

  /** `row.some(...)` with the test of the given kind. */
  predicate HasCell(rt: Runtime, row: seq<Cell>, k: RowKind)
  {
    exists j :: 0 <= j < |row| && IsKindCell(rt, row[j], k)
  }

  /** The three row tests of the scan, each a `row.some(...)` predicate. */
  datatype RowTests = RowTests(names: seq<Cell> -> bool, maxMarks: seq<Cell> -> bool, cos: seq<Cell> -> bool)

  /** The tests of the sheet template: assessment names, max marks 10 or 30, CO numbers 1..12. */
  function TemplateTests(rt: Runtime): RowTests
  {
    RowTests(row => HasCell(rt, row, NamesRow), row => HasCell(rt, row, MaxMarksRow), row => HasCell(rt, row, CoRow))
  }

  function Test(tests: RowTests, k: RowKind): seq<Cell> -> bool
  {
    match k
    case NamesRow => tests.names
    case MaxMarksRow => tests.maxMarks
    case CoRow => tests.cos
  }

  /** Row i is non-empty and has a cell of the given kind. */
  predicate RowIs(tests: RowTests, rows: seq<seq<Cell>>, i: int, k: RowKind)
  {
    |RowAt(rows, i)| > 0 && Test(tests, k)(RowAt(rows, i))
  }

  /** The first row in [lo, hi) of kind k, or -1. */
  function FirstRow(tests: RowTests, rows: seq<seq<Cell>>, lo: int, hi: int, k: RowKind): (r: int)
    decreases hi - lo
    ensures r == -1 || (lo <= r < hi && RowIs(tests, rows, r, k))
    ensures forall j :: lo <= j < hi && RowIs(tests, rows, j, k) ==> r != -1 && r <= j
  {
    if hi <= lo then -1
    else
      var f := FirstRow(tests, rows, lo, hi - 1, k);
      if f != -1 then f else if RowIs(tests, rows, hi - 1, k) then hi - 1 else -1
  }

  /** Once a first row is found, extending the range does not move it. */
  lemma FirstRowStable(tests: RowTests, rows: seq<seq<Cell>>, lo: int, mid: int, hi: int, k: RowKind)
    requires mid <= hi
    requires FirstRow(tests, rows, lo, mid, k) != -1
    ensures FirstRow(tests, rows, lo, hi, k) == FirstRow(tests, rows, lo, mid, k)
  {
    var f := FirstRow(tests, rows, lo, mid, k);
    var g := FirstRow(tests, rows, lo, hi, k);
    assert g != -1 && g <= f;
  }

  /** One more row: the first match stays, or row i becomes it. */
  lemma FirstRowNext(tests: RowTests, rows: seq<seq<Cell>>, lo: int, i: int, k: RowKind)
    requires lo <= i
    ensures FirstRow(tests, rows, lo, i + 1, k) ==
      if FirstRow(tests, rows, lo, i, k) != -1 then FirstRow(tests, rows, lo, i, k)
      else if RowIs(tests, rows, i, k) then i else -1
  {
  }

  datatype ConfigRows = ConfigRows(nameRow: int, maxMarksRow: int, coRow: int)

  /** The scan covers rows startRow .. min(startRow + 20, studentDataStartRow) - 1. */
  function ScanEnd(startRow: int, studentDataStartRow: int): int
  {
    Min(startRow + 20, studentDataStartRow)
  }

  /**
   * The three configuration rows among rows lo .. hi-1: the first names row, the
   * first max-marks row after it, the first CO row after that (-1 for each one not found).
   */
  function FirstRows(tests: RowTests, rows: seq<seq<Cell>>, lo: int, hi: int): (r: ConfigRows)
    ensures r.nameRow != -1 ==> lo <= r.nameRow < hi && RowIs(tests, rows, r.nameRow, NamesRow)
    ensures r.maxMarksRow != -1 ==>
      r.nameRow != -1 && r.nameRow < r.maxMarksRow < hi && RowIs(tests, rows, r.maxMarksRow, MaxMarksRow)
    ensures r.coRow != -1 ==>
      r.maxMarksRow != -1 && r.maxMarksRow < r.coRow < hi && RowIs(tests, rows, r.coRow, CoRow)
  {
    var n := FirstRow(tests, rows, lo, hi, NamesRow);
    var m := if n == -1 then -1 else FirstRow(tests, rows, n + 1, hi, MaxMarksRow);
    var c := if m == -1 then -1 else FirstRow(tests, rows, m + 1, hi, CoRow);
    ConfigRows(n, m, c)
  }

  /** The rows `extractAssessmentConfig` settles on. */
  function FindConfigRows(tests: RowTests, rows: seq<seq<Cell>>, startRow: int, studentDataStartRow: int): ConfigRows
  {
    FirstRows(tests, rows, startRow, ScanEnd(startRow, studentDataStartRow))
  }

  /** One iteration of the scan loop on row i, for a state whose CO row is still missing. */
  function ScanStep(tests: RowTests, rows: seq<seq<Cell>>, st: ConfigRows, i: int): ConfigRows
  {
    if RowIs(tests, rows, i, NamesRow) && st.nameRow == -1 then st.(nameRow := i)
    else if st.nameRow != -1 && i > st.nameRow && RowIs(tests, rows, i, MaxMarksRow) && st.maxMarksRow == -1 then st.(maxMarksRow := i)
    else if st.maxMarksRow != -1 && i > st.maxMarksRow && RowIs(tests, rows, i, CoRow) then st.(coRow := i)
    else st
  }

  /** The scan state after rows lo .. i-1; it stops changing once the CO row is found (`break`). */
  function Scan(tests: RowTests, rows: seq<seq<Cell>>, lo: int, i: int): ConfigRows
    decreases i - lo
  {
    if i <= lo then ConfigRows(-1, -1, -1)
    else
      var prev := Scan(tests, rows, lo, i - 1);
      if prev.coRow != -1 then prev else ScanStep(tests, rows, prev, i - 1)
  }

  /** The scan loop of `extractAssessmentConfig`, with its `continue`s and its `break`. */
  method LocateConfigRows(tests: RowTests, rows: seq<seq<Cell>>, startRow: int, studentDataStartRow: int)
    returns (r: ConfigRows)
    ensures r == FindConfigRows(tests, rows, startRow, studentDataStartRow)
  {
    var hi := ScanEnd(startRow, studentDataStartRow);
    var nameRow, maxMarksRow, coRow := -1, -1, -1;
    var i := startRow;
    while i < hi
      invariant startRow <= i <= if hi < startRow then startRow else hi
      invariant ConfigRows(nameRow, maxMarksRow, coRow) == Scan(tests, rows, startRow, i)
      invariant coRow == -1
    {
      var row := RowAt(rows, i);
      if |row| == 0 {
        i := i + 1;
        continue;
      }
      if tests.names(row) && nameRow == -1 {
        nameRow := i;
        i := i + 1;
        continue;
      }
      if nameRow != -1 && i > nameRow {
        if tests.maxMarks(row) && maxMarksRow == -1 {
          maxMarksRow := i;
          i := i + 1;
          continue;
        }
      }
      if maxMarksRow != -1 && i > maxMarksRow {
        if tests.cos(row) && coRow == -1 {
          coRow := i;
          ScanStopped(tests, rows, startRow, i + 1, hi);
          break;
        }
      }
      i := i + 1;
    }
    r := ConfigRows(nameRow, maxMarksRow, coRow);
    ScanFindsFirstRows(tests, rows, startRow, hi);
  }

  /** The scan loop finds exactly the rows `FirstRows` describes. */
  lemma {:induction false} ScanFindsFirstRows(tests: RowTests, rows: seq<seq<Cell>>, lo: int, i: int)
    ensures Scan(tests, rows, lo, i) == FirstRows(tests, rows, lo, i)
    decreases i - lo
  {
    if i > lo {
      ScanFindsFirstRows(tests, rows, lo, i - 1);
      var prev := FirstRows(tests, rows, lo, i - 1);
      if prev.coRow != -1 {
        FoundAll(tests, rows, lo, i - 1, i, prev);
      } else {
        StepFindsFirstRows(tests, rows, lo, i - 1);
      }
    }
  }

  /** Once all three rows are found, one more row changes nothing. */
  lemma FoundAll(tests: RowTests, rows: seq<seq<Cell>>, lo: int, mid: int, hi: int, found: ConfigRows)
    requires mid <= hi
    requires found == FirstRows(tests, rows, lo, mid) && found.coRow != -1
    ensures FirstRows(tests, rows, lo, hi) == found
  {
    FirstRowStable(tests, rows, lo, mid, hi, NamesRow);
    FirstRowStable(tests, rows, found.nameRow + 1, mid, hi, MaxMarksRow);
    FirstRowStable(tests, rows, found.maxMarksRow + 1, mid, hi, CoRow);
  }

  /** While the CO row is missing, one loop iteration extends the first rows by row i. */
  lemma StepFindsFirstRows(tests: RowTests, rows: seq<seq<Cell>>, lo: int, i: int)
    requires lo <= i
    requires FirstRows(tests, rows, lo, i).coRow == -1
    ensures FirstRows(tests, rows, lo, i + 1) == ScanStep(tests, rows, FirstRows(tests, rows, lo, i), i)
  {
    var prev := FirstRows(tests, rows, lo, i);
    FirstRowNext(tests, rows, lo, i, NamesRow);
    if prev.nameRow != -1 {
      FirstRowNext(tests, rows, prev.nameRow + 1, i, MaxMarksRow);
    }
    if prev.maxMarksRow != -1 {
      FirstRowNext(tests, rows, prev.maxMarksRow + 1, i, CoRow);
    }
  }

  /** After the CO row is found the state no longer changes. */
  lemma {:induction false} ScanStopped(tests: RowTests, rows: seq<seq<Cell>>, lo: int, mid: int, hi: int)
    requires mid <= hi
    requires Scan(tests, rows, lo, mid).coRow != -1
    ensures Scan(tests, rows, lo, hi) == Scan(tests, rows, lo, mid)
    decreases hi - mid
  {
    if mid < hi {
      ScanStopped(tests, rows, lo, mid, hi - 1);
    }
  }

  // ---------------------------------------------------------------------------
  // Column classification

  /** `CO${Math.floor(n)}` when the CO cell parses to n in [1, 12], otherwise "" (never defaulted). */
  function CoValue(n: Option<real>): (co: string)
    ensures co != "" <==> n.Some? && 1.0 <= n.value <= 12.0
    ensures co != "" ==> exists k :: 1 <= k <= 12 && co == CoKey(k)
    ensures co != "" ==> co == CoKey(n.value.Floor)
  {
    if n.Some? && 1.0 <= n.value <= 12.0 then
      var k := n.value.Floor;
      assert 1 <= k <= 12;
      CoKey(k)
    else ""
  }

  datatype Slot = CtSlot | AssignmentSlot | AttendanceSlot | PerformanceSlot | QuestionSlot | NoSlot

  /** Which family an upper-cased name selects, checked in the order the parser uses. */
  function SlotOf(u: string): Slot
  {
    if IsCtLabel(u) then CtSlot
    else if Contains(u, "ASSIGNMENT") then AssignmentSlot
    else if Contains(u, "ATTENDANCE") then AttendanceSlot
    else if Contains(u, "PERFORMANCE") then PerformanceSlot
    else if IsQuestionLabel(u) then QuestionSlot
    else NoSlot
  }

  /** An accepted column: its assessment and the family slot its name selects. */
  datatype Column = Column(assessment: Assessment, slot: Slot)

  /**
   * What column `col` of the three configuration rows describes, or None when the
   * column is skipped: an empty name, or a max mark that parses to 0 or NaN.
   */
  function ColumnAt(rt: Runtime, names: seq<Cell>, maxs: seq<Cell>, cos: seq<Cell>, col: int): Option<Column>
  {
    var name := Trim(CellOrBlank(rt, CellAt(names, col)));
    var maxMark := OrZero(CellNumber(rt, CellAt(maxs, col)));
    if name == "" || maxMark == 0.0 then None
    else Some(Column(Assessment(name, maxMark, CoValue(CellNumber(rt, CellAt(cos, col)))), SlotOf(Upper(name))))
  }

  /** The template's column reader. */
  function TemplateReader(rt: Runtime, names: seq<Cell>, maxs: seq<Cell>, cos: seq<Cell>): int -> Option<Column>
  {
    col => ColumnAt(rt, names, maxs, cos, col)
  }

  /** Adds one accepted column to the configuration; a question goes to midTerm while it holds fewer than 3. */
  function Place(c: Config, col: Column): Config
  {
    var a := col.assessment;
    match col.slot
    case CtSlot => c.(cts := c.cts + [a])
    case AssignmentSlot => c.(assignments := c.assignments + [a])
    case AttendanceSlot => c.(attendance := Some(a))
    case PerformanceSlot => c.(performance := Some(a))
    case QuestionSlot =>
      if |c.midTerm| < 3 then c.(midTerm := c.midTerm + [a]) else c.(final := c.final + [a])
    case NoSlot => c
  }

  /** The configuration built by placing the columns of s in order, starting from the empty one. */
  function PlaceAll(s: seq<Column>): Config
  {
    if |s| == 0 then EmptyConfig else Place(PlaceAll(s[..|s| - 1]), s[|s| - 1])
  }

  /** The accepted columns among 0 .. n-1, in order. */
  function Columns(read: int -> Option<Column>, n: nat): seq<Column>
  {
    if n == 0 then []
    else
      var prev := Columns(read, n - 1);
      match read(n - 1)
      case None => prev
      case Some(c) => prev + [c]
  }

  /** The positions of the accepted columns among 0 .. n-1 (`assessmentColPositions`): increasing and below n. */
  function Positions(read: int -> Option<Column>, n: nat): (ps: seq<int>)
    ensures |ps| == |Columns(read, n)|
    ensures forall k :: 0 <= k < |ps| ==> 0 <= ps[k] < n && read(ps[k]).Some?
    ensures forall k, l :: 0 <= k < l < |ps| ==> ps[k] < ps[l]
  {
    if n == 0 then []
    else
      var prev := Positions(read, n - 1);
      match read(n - 1)
      case None => prev
      case Some(_) => prev + [n - 1]
  }

  /** The configuration and the accepted column positions. */
  datatype Classified = Classified(config: Config, positions: seq<int>)

  /** The k-th accepted column is what the reader gives for the k-th accepted position. */
  lemma {:induction false} ColumnsAtPositions(read: int -> Option<Column>, n: nat)
    ensures |Positions(read, n)| == |Columns(read, n)|
    ensures forall k :: 0 <= k < |Columns(read, n)| ==> read(Positions(read, n)[k]) == Some(Columns(read, n)[k])
  {
    if n > 0 {
      ColumnsAtPositions(read, n - 1);
    }
  }

  /** Classification of columns 0 .. n-1. */
  function Classify(read: int -> Option<Column>, n: nat): Classified
  {
    Classified(PlaceAll(Columns(read, n)), Positions(read, n))
  }

  function ColumnCount(names: seq<Cell>, maxs: seq<Cell>, cos: seq<Cell>): nat
  {
    Min(Min(|names|, |maxs|), |cos|)
  }

  /**
   * The classification loop of `extractAssessmentConfig` over columns 0 .. n-1;
   * `read` reads one column (`ColumnAt` for the template).
   */
  method ClassifyColumns(read: int -> Option<Column>, n: nat) returns (config: Config, positions: seq<int>)
    ensures Classified(config, positions) == Classify(read, n)
  {
    config, positions := EmptyConfig, [];
    var col := 0;
    while col < n
      invariant 0 <= col <= n
      invariant config == PlaceAll(Columns(read, col))
      invariant positions == Positions(read, col)
    {
      match read(col) {
        case None =>
        case Some(c) =>
          ghost var before := Columns(read, col);
          assert (before + [c])[..|before|] == before;
          positions := positions + [col];
          config := Place(config, c);
      }
      col := col + 1;
    }
  }

  /** The assessments of the columns of s in slot `slot`, in order. */
  function InSlot(s: seq<Column>, slot: Slot): (r: seq<Assessment>)
    ensures forall a :: a in r ==> exists c :: c in s && c.assessment == a
  {
    if |s| == 0 then []
    else
      var prev := InSlot(s[..|s| - 1], slot);
      if s[|s| - 1].slot == slot then prev + [s[|s| - 1].assessment] else prev
  }

  function Last(s: seq<Assessment>): Option<Assessment>
  {
    if |s| == 0 then None else Some(s[|s| - 1])
  }

  /**
   * The placement, stated family by family: class tests and assignments are the
   * matching columns in order; the questions are split into the first three
   * (mid-term) and the rest (final); attendance and performance hold the last match.
   */
  lemma {:induction false} PlaceAllByFamily(s: seq<Column>)
    ensures var c := PlaceAll(s);
      && c.cts == InSlot(s, CtSlot)
      && c.assignments == InSlot(s, AssignmentSlot)
      && c.midTerm + c.final == InSlot(s, QuestionSlot)
      && |c.midTerm| == Min(3, |InSlot(s, QuestionSlot)|)
      && c.attendance == Last(InSlot(s, AttendanceSlot))
      && c.performance == Last(InSlot(s, PerformanceSlot))
  {
    if |s| > 0 {
      var init := s[..|s| - 1];
      var col := s[|s| - 1];
      PlaceAllByFamily(init);
      var prev := PlaceAll(init);
      if col.slot == QuestionSlot && |prev.midTerm| >= 3 {
        var a := col.assessment;
        assert prev.midTerm + (prev.final + [a]) == (prev.midTerm + prev.final) + [a];
      }
    }
  }

  /** The mid-term family never holds more than three questions, and final questions only follow three mid-term ones. */
  lemma MidTermAtMostThree(s: seq<Column>)
    ensures |PlaceAll(s).midTerm| <= 3
    ensures |PlaceAll(s).final| > 0 ==> |PlaceAll(s).midTerm| == 3
  {
    PlaceAllByFamily(s);
  }

  /** Every assessment the placement keeps comes from one of its columns. */
  lemma PlaceAllFromInput(s: seq<Column>)
    ensures var c := PlaceAll(s);
      (forall a :: a in c.cts + c.midTerm + c.final + c.assignments ==> exists x :: x in s && x.assessment == a)
      && (c.attendance.Some? ==> exists x :: x in s && x.assessment == c.attendance.value)
      && (c.performance.Some? ==> exists x :: x in s && x.assessment == c.performance.value)
  {
    PlaceAllByFamily(s);
    var c := PlaceAll(s);
    assert forall a :: a in c.midTerm ==> a in c.midTerm + c.final;
    assert forall a :: a in c.final ==> a in c.midTerm + c.final;
  }

  /** A classified assessment has a name, a non-zero maximum and a CO that is "" or CO1..CO12. */
  predicate WellFormed(a: Assessment)
  {
    a.name != "" && a.maxMarks != 0.0 && (a.co == "" || exists k :: 1 <= k <= 12 && a.co == CoKey(k))
  }

  /**
   * A column is accepted exactly when its trimmed name is non-empty and its max
   * mark reads as non-zero; it then carries that name, that maximum, the CO its CO
   * cell gives and the family its upper-cased name selects.
   */
  lemma ColumnAtAccepts(rt: Runtime, names: seq<Cell>, maxs: seq<Cell>, cos: seq<Cell>, col: int)
    ensures ColumnAt(rt, names, maxs, cos, col).Some? <==>
      Trim(CellOrBlank(rt, CellAt(names, col))) != "" && OrZero(CellNumber(rt, CellAt(maxs, col))) != 0.0
    ensures ColumnAt(rt, names, maxs, cos, col).Some? ==> WellFormed(ColumnAt(rt, names, maxs, cos, col).value.assessment)
    ensures ColumnAt(rt, names, maxs, cos, col).Some? ==>
      var name := Trim(CellOrBlank(rt, CellAt(names, col)));
      ColumnAt(rt, names, maxs, cos, col).value ==
        Column(Assessment(name, OrZero(CellNumber(rt, CellAt(maxs, col))), CoValue(CellNumber(rt, CellAt(cos, col)))),
               SlotOf(Upper(name)))
  {
  }

  /** A reader whose every accepted column below n is well formed yields only well-formed columns. */
  lemma {:induction false} ReadColumnsWellFormed(read: int -> Option<Column>, n: nat)
    requires forall col :: 0 <= col < n && read(col).Some? ==> WellFormed(read(col).value.assessment)
    ensures forall x :: x in Columns(read, n) ==> WellFormed(x.assessment)
  {
    if n > 0 {
      ReadColumnsWellFormed(read, n - 1);
      forall x | x in Columns(read, n)
        ensures WellFormed(x.assessment)
      {
        if x !in Columns(read, n - 1) {
          assert read(n - 1) == Some(x);
        }
      }
    }
  }

  lemma ColumnsWellFormed(rt: Runtime, names: seq<Cell>, maxs: seq<Cell>, cos: seq<Cell>, n: nat)
    ensures forall x :: x in Columns(TemplateReader(rt, names, maxs, cos), n) ==> WellFormed(x.assessment)
  {
    var read := TemplateReader(rt, names, maxs, cos);
    forall col | 0 <= col < n && read(col).Some?
      ensures WellFormed(read(col).value.assessment)
    {
      ColumnAtAccepts(rt, names, maxs, cos, col);
    }
    ReadColumnsWellFormed(read, n);
  }

  // ---------------------------------------------------------------------------
  // extractAssessmentConfig

  /** The configuration read from the rows, or the empty one when any of the three rows is missing. */
  function AssessmentConfigOf(rt: Runtime, rows: seq<seq<Cell>>, startRow: int, studentDataStartRow: int): Classified
  {
    var found := FindConfigRows(TemplateTests(rt), rows, startRow, studentDataStartRow);
    if found.nameRow != -1 && found.maxMarksRow != -1 && found.coRow != -1 then
      var names := RowAt(rows, found.nameRow);
      var maxs := RowAt(rows, found.maxMarksRow);
      var cos := RowAt(rows, found.coRow);
      Classify(TemplateReader(rt, names, maxs, cos), ColumnCount(names, maxs, cos))
    else Classified(EmptyConfig, [])
  }

  method ExtractAssessmentConfig(rt: Runtime, rows: seq<seq<Cell>>, startRow: int, studentDataStartRow: int)
    returns (config: Config, positions: seq<int>)
    ensures Classified(config, positions) == AssessmentConfigOf(rt, rows, startRow, studentDataStartRow)
  {
    var found := LocateConfigRows(TemplateTests(rt), rows, startRow, studentDataStartRow);
    if found.nameRow != -1 && found.maxMarksRow != -1 && found.coRow != -1 {
      var names := RowAt(rows, found.nameRow);
      var maxs := RowAt(rows, found.maxMarksRow);
      var cos := RowAt(rows, found.coRow);
      config, positions := ClassifyColumns(TemplateReader(rt, names, maxs, cos), ColumnCount(names, maxs, cos));
    } else {
      config, positions := EmptyConfig, [];
    }
  }

  /**
   * With no student-data row (-1) the scan range is empty: no family is filled and
   * attendance and performance stay absent.
   */
  lemma NoStudentRowNoConfig(rt: Runtime, rows: seq<seq<Cell>>, startRow: int)
    ensures AssessmentConfigOf(rt, rows, startRow, -1) == Classified(EmptyConfig, [])
  {
    assert FindConfigRows(TemplateTests(rt), rows, startRow, -1).nameRow == -1;
  }

  /** Any configuration read from a sheet keeps at most three mid-term questions, each assessment well formed. */
  lemma ConfigOfWellFormed(rt: Runtime, rows: seq<seq<Cell>>, startRow: int, studentDataStartRow: int)
    ensures var c := AssessmentConfigOf(rt, rows, startRow, studentDataStartRow).config;
      |c.midTerm| <= 3
      && (forall a :: a in c.cts + c.midTerm + c.final + c.assignments ==> WellFormed(a))
      && (c.attendance.Some? ==> WellFormed(c.attendance.value))
      && (c.performance.Some? ==> WellFormed(c.performance.value))
  {
    var found := FindConfigRows(TemplateTests(rt), rows, startRow, studentDataStartRow);
    if found.nameRow != -1 && found.maxMarksRow != -1 && found.coRow != -1 {
      var names := RowAt(rows, found.nameRow);
      var maxs := RowAt(rows, found.maxMarksRow);
      var cos := RowAt(rows, found.coRow);
      var s := Columns(TemplateReader(rt, names, maxs, cos), ColumnCount(names, maxs, cos));
      ColumnsWellFormed(rt, names, maxs, cos, ColumnCount(names, maxs, cos));
      MidTermAtMostThree(s);
      PlaceAllFromInput(s);
    }
  }
}
