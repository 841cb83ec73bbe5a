/**
 * The top level of the spreadsheet parser (src/utils/excelParser.js):
 * `parseExcelStructure` locates the configuration block and the student block,
 * then hands them to the configuration reader and the roster reader;
 * `extractCourseInfo` picks a course code out of the first rows.
 */
module ExcelParser {
  import opened Options
  import opened Strings
  import opened Cells
  import opened Assessments
  import opened ExcelConfig
  import opened ExcelRoster
  import CourseInfo

  // ---------------------------------------------------------------------------
  // Locating the two blocks

  /** What a row says about the layout. */
  datatype RowFlags = RowFlags(configHeading: bool, studentHeading: bool, numericId: bool)

  /** A row text announcing the configuration block. */
  predicate ConfigHeading(text: string)
  {
    Contains(text, "assessment type") || Contains(text, "description")
  }

  /** A row text that looks like the student header: an ID (or roll) and a name. */
  predicate StudentHeading(text: string)
  {
    (Contains(text, "student id") || Contains(text, "id") || Contains(text, "roll")) && Contains(text, "name")
  }

  /** A row whose first cell is a whole number written in digits, like a student ID. */
  predicate NumericIdRow(rt: Runtime, row: seq<Cell>)
  {
    |row| > 0 && IsNumeral(Trim(CellString(rt, row[0])))
  }

  function FlagsOf(rt: Runtime, rows: seq<seq<Cell>>): int -> RowFlags
  {
    i => var row := RowAt(rows, i);
      var text := RowText(rt, row);
      RowFlags(ConfigHeading(text), StudentHeading(text), NumericIdRow(rt, row))
  }

  /** The configuration start row and the student start row, -1 while not found. */
  datatype Blocks = Blocks(assessmentStartRow: int, studentDataStartRow: int)

  /** One iteration of the heading scan on row i. */
  function HeadingStep(st: Blocks, f: RowFlags, i: int): Blocks
  {
    var asr := if f.configHeading then i else st.assessmentStartRow;
    if f.studentHeading && asr != -1 then Blocks(asr, i) else Blocks(asr, st.studentDataStartRow)
  }

  /** The heading scan over rows 0 .. n-1; it stops at the first student heading. */
  function HeadingScan(flags: int -> RowFlags, n: nat): Blocks
  {
    if n == 0 then Blocks(-1, -1)
    else
      var st := HeadingScan(flags, n - 1);
      if st.studentDataStartRow != -1 then st else HeadingStep(st, flags(n - 1), n - 1)
  }

  /** The first row at or after i that starts with a numeric ID, or -1. */
  function FirstNumericRow(flags: int -> RowFlags, i: nat, n: int): (r: int)
    decreases n - i
    ensures r == -1 || (i <= r < n && flags(r).numericId)
    ensures forall j :: i <= j < (if r == -1 then n else r) ==> !flags(j).numericId
  {
    if i >= n then -1
    else if flags(i).numericId then i
    else
      var r := FirstNumericRow(flags, i + 1, n);
      r
  }

  /**
   * The two blocks: the heading scan over the first 30 rows, then a missing
   * configuration start becomes row 0 and a missing student start becomes the
   * first row from row 10 on that starts with a numeric ID.
   */
  function BlocksOf(flags: int -> RowFlags, rowCount: nat): Blocks
  {
    var st := HeadingScan(flags, if rowCount < 30 then rowCount else 30);
    Blocks(if st.assessmentStartRow == -1 then 0 else st.assessmentStartRow,
           if st.studentDataStartRow == -1 then FirstNumericRow(flags, 10, rowCount) else st.studentDataStartRow)
  }

  method LocateBlocks(flags: int -> RowFlags, rowCount: nat) returns (b: Blocks)
    ensures b == BlocksOf(flags, rowCount)
  {
    var asr, sds := -1, -1;
    var limit := if rowCount < 30 then rowCount else 30;
    var i := 0;
    while i < limit
      invariant 0 <= i <= limit
      invariant Blocks(asr, sds) == HeadingScan(flags, i)
      invariant sds == -1
    {
      var f := flags(i);
      if f.configHeading {
        asr := i;
      }
      if f.studentHeading && asr != -1 {
        sds := i;
        HeadingScanStopped(flags, i + 1, limit);
        break;
      }
      i := i + 1;
    }
    if asr == -1 {
      asr := 0;
    }
    if sds == -1 {
      var j := 10;
      while j < rowCount
        invariant 10 <= j <= if rowCount < 10 then 10 else rowCount
        invariant FirstNumericRow(flags, 10, rowCount) == FirstNumericRow(flags, j, rowCount)
      {
        if flags(j).numericId {
          sds := j;
          break;
        }
        j := j + 1;
      }
    }
    b := Blocks(asr, sds);
  }

  /** Once the scan has found the student heading, later rows change nothing. */
  lemma {:induction false} HeadingScanStopped(flags: int -> RowFlags, m: nat, n: nat)
    requires m <= n && HeadingScan(flags, m).studentDataStartRow != -1
    decreases n - m
    ensures HeadingScan(flags, n) == HeadingScan(flags, m)
  {
    if m < n {
      HeadingScanStopped(flags, m, n - 1);
    }
  }

  /**
   * The student block starts at the first row that looks like the student header
   * and has a configuration heading at or above it; the configuration block then
   * starts at the last such heading at or above it.
   */
  lemma {:induction false} HeadingScanFirst(flags: int -> RowFlags, n: nat)
    ensures var st := HeadingScan(flags, n);
      && (st.studentDataStartRow == -1 <==>
            forall i :: 0 <= i < n && flags(i).studentHeading ==> forall j :: 0 <= j <= i ==> !flags(j).configHeading)
      && (st.studentDataStartRow != -1 ==>
            var s := st.studentDataStartRow;
            && 0 <= s < n && flags(s).studentHeading
            && 0 <= st.assessmentStartRow <= s && flags(st.assessmentStartRow).configHeading
            && (forall j :: st.assessmentStartRow < j <= s ==> !flags(j).configHeading)
            && (forall i :: 0 <= i < s && flags(i).studentHeading ==> forall j :: 0 <= j <= i ==> !flags(j).configHeading))
      && (st.studentDataStartRow == -1 ==>
            && (st.assessmentStartRow == -1 <==> forall j :: 0 <= j < n ==> !flags(j).configHeading)
            && (st.assessmentStartRow != -1 ==>
                  0 <= st.assessmentStartRow < n && flags(st.assessmentStartRow).configHeading
                  && forall j :: st.assessmentStartRow < j < n ==> !flags(j).configHeading))
  {
    if n > 0 {
      HeadingScanFirst(flags, n - 1);
    }
  }

  // ---------------------------------------------------------------------------
  // extractCourseInfo

  /** A row that may carry the course code: its text mentions "cse" or "course code". */
  predicate CourseRow(text: string)
  {
    Contains(text, "cse") || Contains(text, "course code")
  }

  /** How the course-code scan reads a sheet: which rows to search, and the code a cell holds. */
  datatype CodeTests = CodeTests(courseRow: seq<Cell> -> bool, code: (seq<Cell>, int) -> Option<string>)

  /** The trimmed text of a cell when it reads as a course code. */
  function CellCode(rt: Runtime, row: seq<Cell>, col: int): Option<string>
  {
    var cell := TrimmedText(rt, row, col);
    if IsCourseCode(cell) then Some(cell) else None
  }

  function TemplateCodeTests(rt: Runtime): CodeTests
  {
    CodeTests(row => CourseRow(RowText(rt, row)), (row, col) => CellCode(rt, row, col))
  }

  /** The last code among columns 0 .. n-1 of a row. */
  function LastCodeInRow(t: CodeTests, row: seq<Cell>, n: nat): (code: Option<string>)
    ensures code.Some? ==> exists col :: 0 <= col < n && t.code(row, col) == code
  {
    if n == 0 then None
    else if t.code(row, n - 1).Some? then t.code(row, n - 1) else LastCodeInRow(t, row, n - 1)
  }

  /**
   * Nothing is found in a row exactly when none of its first n cells holds a
   * code; otherwise the code found is that of the last cell that holds one.
   */
  lemma {:induction false} LastCodeInRowLast(t: CodeTests, row: seq<Cell>, n: nat)
    ensures LastCodeInRow(t, row, n).None? <==> forall col :: 0 <= col < n ==> t.code(row, col).None?
    ensures LastCodeInRow(t, row, n).Some? ==>
      exists col :: (0 <= col < n && t.code(row, col) == LastCodeInRow(t, row, n)
        && forall c :: col < c < n ==> t.code(row, c).None?)
  {
    if n > 0 {
      LastCodeInRowLast(t, row, n - 1);
      if t.code(row, n - 1).Some? {
        assert 0 <= n - 1 < n && t.code(row, n - 1) == LastCodeInRow(t, row, n);
      } else if LastCodeInRow(t, row, n - 1).Some? {
        var col :| 0 <= col < n - 1 && t.code(row, col) == LastCodeInRow(t, row, n - 1)
          && forall c :: col < c < n - 1 ==> t.code(row, c).None?;
        assert forall c :: col < c < n ==> t.code(row, c).None?;
      }
    }
  }

  /** The course code found in rows 0 .. n-1: the last code cell of the last course row that has one. */
  function CourseCodeIn(t: CodeTests, rows: seq<seq<Cell>>, n: nat): (code: string)
    ensures code == "" || exists i, col ::
      0 <= i < n && t.courseRow(RowAt(rows, i)) && t.code(RowAt(rows, i), col) == Some(code)
  {
    if n == 0 then ""
    else
      var row := RowAt(rows, n - 1);
      var found := if t.courseRow(row) then LastCodeInRow(t, row, |row|) else None;
      if found.Some? then found.value else CourseCodeIn(t, rows, n - 1)
  }

  /** Cell (i, col) of a course row among rows 0 .. n-1 holds a code. */
  ghost predicate CodeCell(t: CodeTests, rows: seq<seq<Cell>>, n: nat, i: int, col: int)
  {
    0 <= i < n && t.courseRow(RowAt(rows, i)) && 0 <= col < |RowAt(rows, i)| && t.code(RowAt(rows, i), col).Some?
  }

  /**
   * Code cell (i, col) gives `code` and is the last code cell the scan of rows
   * 0 .. n-1 meets: no code cell follows it in its row, and no later row has one.
   */
  ghost predicate LastCodeCell(t: CodeTests, rows: seq<seq<Cell>>, n: nat, i: int, col: int, code: string)
  {
    && CodeCell(t, rows, n, i, col) && t.code(RowAt(rows, i), col) == Some(code)
    && (forall c :: col < c ==> !CodeCell(t, rows, n, i, c))
    && (forall k, c :: i < k ==> !CodeCell(t, rows, n, k, c))
  }

  /**
   * The course code is empty when no course row among rows 0 .. n-1 has a code
   * cell, and otherwise comes from the last code cell of the last course row
   * that has one: a later assignment overwrites an earlier one.
   */
  lemma {:induction false} CourseCodeInLast(t: CodeTests, rows: seq<seq<Cell>>, n: nat)
    ensures (forall i, col :: !CodeCell(t, rows, n, i, col)) ==> CourseCodeIn(t, rows, n) == ""
    ensures (exists i, col :: CodeCell(t, rows, n, i, col)) ==>
      exists i, col :: LastCodeCell(t, rows, n, i, col, CourseCodeIn(t, rows, n))
  {
    if n > 0 {
      var m := n - 1;
      CourseCodeInLast(t, rows, m);
      var row := RowAt(rows, m);
      LastCodeInRowLast(t, row, |row|);
      if t.courseRow(row) && LastCodeInRow(t, row, |row|).Some? {
        var code := LastCodeInRow(t, row, |row|).value;
        assert CourseCodeIn(t, rows, n) == code;
        var col :| 0 <= col < |row| && t.code(row, col) == Some(code)
          && forall c :: col < c < |row| ==> t.code(row, c).None?;
        assert LastCodeCell(t, rows, n, m, col, code);
      } else {
        assert CourseCodeIn(t, rows, n) == CourseCodeIn(t, rows, m);
        forall i, col
          ensures CodeCell(t, rows, n, i, col) <==> CodeCell(t, rows, m, i, col)
        {
        }
        if exists i, col :: CodeCell(t, rows, n, i, col) {
          var i, col :| LastCodeCell(t, rows, m, i, col, CourseCodeIn(t, rows, m));
          assert LastCodeCell(t, rows, n, i, col, CourseCodeIn(t, rows, n));
        } else {
          assert forall i, col :: !CodeCell(t, rows, m, i, col);
        }
      }
    }
  }

  /** Course information from the first ten rows: only the course code is ever filled in. */
  function CourseInfoOf(t: CodeTests, rows: seq<seq<Cell>>): CourseInfo.Info
  {
    CourseInfo.Blank.(courseCode := CourseCodeIn(t, rows, if |rows| < 10 then |rows| else 10))
  }

  method ExtractCourseInfo(t: CodeTests, rows: seq<seq<Cell>>) returns (info: CourseInfo.Info)
    ensures info == CourseInfoOf(t, rows)
  {
    var code := "";
    var limit := if |rows| < 10 then |rows| else 10;
    var i := 0;
    while i < limit
      invariant 0 <= i <= limit
      invariant code == CourseCodeIn(t, rows, i)
    {
      var row := rows[i];
      ghost var before := code;
      if t.courseRow(row) {
        var col := 0;
        var found: Option<string> := None;
        while col < |row|
          invariant 0 <= col <= |row|
          invariant found == LastCodeInRow(t, row, col)
          invariant code == if found.Some? then found.value else before
        {
          match t.code(row, col) {
            case None =>
            case Some(cell) =>
              code := cell;
              found := Some(cell);
          }
          col := col + 1;
        }
      }
      i := i + 1;
    }
    info := CourseInfo.Blank.(courseCode := code);
  }

  /** Cell (i, col) is a course-code cell of a course row among the first ten rows. */
  ghost predicate TemplateCodeCell(rt: Runtime, rows: seq<seq<Cell>>, i: int, col: int)
  {
    0 <= i < |rows| && i < 10 && CourseRow(RowText(rt, rows[i])) && 0 <= col < |rows[i]|
    && IsCourseCode(TrimmedText(rt, rows[i], col))
  }

  /**
   * Template code cell (i, col) reads `code`, and no template code cell follows
   * it in its row or in a later row.
   */
  ghost predicate LastTemplateCodeCell(rt: Runtime, rows: seq<seq<Cell>>, i: int, col: int, code: string)
  {
    && TemplateCodeCell(rt, rows, i, col) && TrimmedText(rt, rows[i], col) == code
    && (forall c :: col < c ==> !TemplateCodeCell(rt, rows, i, c))
    && (forall k, c :: i < k ==> !TemplateCodeCell(rt, rows, k, c))
  }

  /**
   * The parsed course code is empty or the trimmed text of a cell matching the
   * course-code pattern, in one of the first ten rows that mentions "cse" or
   * "course code"; it is empty exactly when there is no such cell, and otherwise
   * it is the last such cell of the last such row. Every other course field
   * stays empty.
   */
  lemma CourseInfoFacts(rt: Runtime, rows: seq<seq<Cell>>)
    ensures CourseInfoOf(TemplateCodeTests(rt), rows).courseCode == ""
      || (IsCourseCode(CourseInfoOf(TemplateCodeTests(rt), rows).courseCode)
          && exists i, col :: 0 <= i < |rows| && i < 10 && CourseRow(RowText(rt, rows[i]))
               && TrimmedText(rt, rows[i], col) == CourseInfoOf(TemplateCodeTests(rt), rows).courseCode)
    ensures (forall i, col :: !TemplateCodeCell(rt, rows, i, col)) ==> CourseInfoOf(TemplateCodeTests(rt), rows).courseCode == ""
    ensures (exists i, col :: TemplateCodeCell(rt, rows, i, col)) ==>
      && CourseInfoOf(TemplateCodeTests(rt), rows).courseCode != ""
      && exists i, col :: LastTemplateCodeCell(rt, rows, i, col, CourseInfoOf(TemplateCodeTests(rt), rows).courseCode)
    ensures CourseInfoOf(TemplateCodeTests(rt), rows).(courseCode := "") == CourseInfo.Blank
  {
    TemplateCodeNone(rt, rows);
    TemplateCodeLast(rt, rows);
  }

  /** Without a course-code cell in the first ten course rows, the course code stays empty. */
  lemma TemplateCodeNone(rt: Runtime, rows: seq<seq<Cell>>)
    ensures (forall i, col :: !TemplateCodeCell(rt, rows, i, col)) ==> CourseInfoOf(TemplateCodeTests(rt), rows).courseCode == ""
  {
    var t := TemplateCodeTests(rt);
    var n := if |rows| < 10 then |rows| else 10;
    assert CourseInfoOf(t, rows).courseCode == CourseCodeIn(t, rows, n);
    CourseCodeInLast(t, rows, n);
    if exists i, col :: CodeCell(t, rows, n, i, col) {
      var i, col :| CodeCell(t, rows, n, i, col);
      TemplateCells(rt, rows, n, i, col);
    }
  }

  /** With a course-code cell in the first ten course rows, the course code is the last one. */
  lemma TemplateCodeLast(rt: Runtime, rows: seq<seq<Cell>>)
    ensures (exists i, col :: TemplateCodeCell(rt, rows, i, col)) ==>
      && CourseInfoOf(TemplateCodeTests(rt), rows).courseCode != ""
      && exists i, col :: LastTemplateCodeCell(rt, rows, i, col, CourseInfoOf(TemplateCodeTests(rt), rows).courseCode)
  {
    var t := TemplateCodeTests(rt);
    var n := if |rows| < 10 then |rows| else 10;
    var code := CourseCodeIn(t, rows, n);
    assert CourseInfoOf(t, rows).courseCode == code;
    CourseCodeInLast(t, rows, n);
    if exists i, col :: TemplateCodeCell(rt, rows, i, col) {
      var i0, col0 :| TemplateCodeCell(rt, rows, i0, col0);
      TemplateCells(rt, rows, n, i0, col0);
      var i, col :| LastCodeCell(t, rows, n, i, col, code);
      TemplateCells(rt, rows, n, i, col);
      forall c | col < c && TemplateCodeCell(rt, rows, i, c)
        ensures false
      {
        TemplateCells(rt, rows, n, i, c);
      }
      forall k, c | i < k && TemplateCodeCell(rt, rows, k, c)
        ensures false
      {
        TemplateCells(rt, rows, n, k, c);
      }
      assert LastTemplateCodeCell(rt, rows, i, col, code);
    }
  }

  /** The template's code cells are the code cells the generic scan sees in the first ten rows. */
  lemma TemplateCells(rt: Runtime, rows: seq<seq<Cell>>, n: nat, i: int, col: int)
    requires n == if |rows| < 10 then |rows| else 10
    ensures var t := TemplateCodeTests(rt);
      && (TemplateCodeCell(rt, rows, i, col) <==> CodeCell(t, rows, n, i, col))
      && (TemplateCodeCell(rt, rows, i, col) ==>
            t.code(RowAt(rows, i), col) == Some(TrimmedText(rt, rows[i], col)) && TrimmedText(rt, rows[i], col) != "")
  {
  }

  // ---------------------------------------------------------------------------
  // parseExcelStructure

  datatype Parsed = Parsed(assessments: Config, students: seq<Student>, marks: MarksTable, courseInfo: CourseInfo.Info)

  /** The parse of a sheet once its two blocks are located. */
  function ParseWith(rt: Runtime, rows: seq<seq<Cell>>, b: Blocks): Parsed
  {
    var config := AssessmentConfigOf(rt, rows, b.assessmentStartRow, b.studentDataStartRow).config;
    var roster := StudentData(rt, rows, b.studentDataStartRow, config);
    Parsed(config, roster.students, roster.marks, CourseInfoOf(TemplateCodeTests(rt), rows))
  }

  function ParseOf(rt: Runtime, rows: seq<seq<Cell>>): Parsed
  {
    ParseWith(rt, rows, BlocksOf(FlagsOf(rt, rows), |rows|))
  }

  method ParseExcelStructure(rt: Runtime, rows: seq<seq<Cell>>) returns (p: Parsed)
    ensures p == ParseOf(rt, rows)
  {
    var b := LocateBlocks(FlagsOf(rt, rows), |rows|);
    var config, positions := ExtractAssessmentConfig(rt, rows, b.assessmentStartRow, b.studentDataStartRow);
    var students, marks := ExtractStudentData(rt, rows, b.studentDataStartRow, config);
    var info := ExtractCourseInfo(TemplateCodeTests(rt), rows);
    p := Parsed(config, students, marks, info);
  }

  /** The located blocks: the configuration start is a row number, the student start is -1 or a row of the sheet. */
  lemma BlocksInRange(rt: Runtime, rows: seq<seq<Cell>>)
    ensures BlocksOf(FlagsOf(rt, rows), |rows|).assessmentStartRow >= 0
    ensures var sds := BlocksOf(FlagsOf(rt, rows), |rows|).studentDataStartRow;
      sds == -1 || 0 <= sds < |rows|
  {
    HeadingScanFirst(FlagsOf(rt, rows), if |rows| < 30 then |rows| else 30);
  }

  /**
   * Without a student block the parse yields nothing: no assessments, no
   * students, no marks. In every case each student passes the skip rule, the
   * marks table holds exactly the listed students, and at most three mid-term
   * questions are configured.
   */
  lemma {:induction false} ParseWithFacts(rt: Runtime, rows: seq<seq<Cell>>, b: Blocks)
    ensures b.studentDataStartRow == -1 ==>
      ParseWith(rt, rows, b).assessments == EmptyConfig && ParseWith(rt, rows, b).students == []
      && ParseWith(rt, rows, b).marks == map[]
    ensures ParseWith(rt, rows, b).marks.Keys == Ids(ParseWith(rt, rows, b).students)
    ensures forall i :: 0 <= i < |ParseWith(rt, rows, b).students| ==>
      !Skipped(ParseWith(rt, rows, b).students[i].id, ParseWith(rt, rows, b).students[i].name)
    ensures |ParseWith(rt, rows, b).assessments.midTerm| <= 3
  {
    var config := AssessmentConfigOf(rt, rows, b.assessmentStartRow, b.studentDataStartRow).config;
    if b.studentDataStartRow == -1 {
      NoStudentRowNoConfig(rt, rows, b.assessmentStartRow);
    }
    StudentDataFacts(rt, rows, b.studentDataStartRow, config);
    ConfigOfWellFormed(rt, rows, b.assessmentStartRow, b.studentDataStartRow);
  }
}
