/**
 * Reading the student roster and the marks (`extractStudentData` in
 * src/utils/excelParser.js, last part): every data row below the header that
 * names a student adds that student and resets the student's marks record to one
 * coerced number per mapped assessment.
 */
module ExcelRoster {
  import opened Options
  import opened Strings
  import opened Cells
  import opened Assessments
  import opened ExcelColumns
  import opened ExcelMapping

  // ---------------------------------------------------------------------------
  // One data row

  /** A row is not a student when its ID or name is empty or it looks like a header row. */
  predicate Skipped(id: string, name: string)
  {
    id == "" || name == "" || Contains(Lower(id), "id") || Contains(Lower(name), "name")
  }

  /** The student a data row names, if any. */
  function ReadStudent(rt: Runtime, k: KeyColumns, row: seq<Cell>): Option<Student>
  {
    if |row| == 0 then None
    else
      var id := TrimmedText(rt, row, k.idCol);
      var name := TrimmedText(rt, row, k.nameCol);
      if Skipped(id, name) then None else Some(Student(id, name))
  }

  /** A row yields a student exactly when it is non-empty and its trimmed ID and name pass the skip rule. */
  lemma ReadStudentSkipRule(rt: Runtime, k: KeyColumns, row: seq<Cell>)
    ensures ReadStudent(rt, k, row).Some? <==>
      |row| > 0 && !Skipped(TrimmedText(rt, row, k.idCol), TrimmedText(rt, row, k.nameCol))
    ensures ReadStudent(rt, k, row).Some? ==>
      var s := ReadStudent(rt, k, row).value;
      && s.id == TrimmedText(rt, row, k.idCol) && s.name == TrimmedText(rt, row, k.nameCol)
      && s.id != "" && s.name != "" && !Contains(Lower(s.id), "id") && !Contains(Lower(s.name), "name")
  {
  }

  /** A mark cell: blank (absent or `''`) and non-numeric cells read as 0, others as their number. */
  function CoerceMark(rt: Runtime, c: Cell): real
  {
    if c == Empty || c == Text("") then 0.0 else OrZero(CellNumber(rt, c))
  }

  lemma CoerceMarkCases(rt: Runtime, c: Cell)
    ensures c == Empty || c == Text("") ==> CoerceMark(rt, c) == 0.0
    ensures c.Num? ==> CoerceMark(rt, c) == c.r
    ensures c.Text? && c.s != "" && rt.parseFloat(c.s).Some? ==> CoerceMark(rt, c) == rt.parseFloat(c.s).value
    ensures c.Text? && rt.parseFloat(c.s).None? ==> CoerceMark(rt, c) == 0.0
  {
  }

  /** The marks record of a data row: one coerced number per mapped key, nothing else. */
  function RowMarks(rt: Runtime, colMap: map<string, int>, row: seq<Cell>): map<string, Mark>
  {
    map key | key in colMap :: Score(CoerceMark(rt, CellAt(row, colMap[key])))
  }

  lemma RowMarksKeys(rt: Runtime, colMap: map<string, int>, row: seq<Cell>)
    ensures RowMarks(rt, colMap, row).Keys == colMap.Keys
    ensures forall key :: key in colMap ==>
      RowMarks(rt, colMap, row)[key] == Score(CoerceMark(rt, CellAt(row, colMap[key])))
  {
  }

  // ---------------------------------------------------------------------------
  // The row loop

  /** The students read so far and their marks records. */
  datatype Roster = Roster(students: seq<Student>, marks: MarksTable)

  /** How a data row is read: the student it names, and its marks record. */
  datatype RowReaders = RowReaders(student: seq<Cell> -> Option<Student>, marks: seq<Cell> -> map<string, Mark>)

  function TemplateReaders(rt: Runtime, k: KeyColumns, colMap: map<string, int>): RowReaders
  {
    RowReaders(row => ReadStudent(rt, k, row), row => RowMarks(rt, colMap, row))
  }

  function RosterStep(rd: RowReaders, st: Roster, row: seq<Cell>): Roster
  {
    match rd.student(row)
    case None => st
    case Some(s) => Roster(st.students + [s], st.marks[s.id := rd.marks(row)])
  }

  /** The roster read from rows lo .. n-1. */
  function RosterOf(rd: RowReaders, rows: seq<seq<Cell>>, lo: int, n: int): Roster
    decreases n - lo
  {
    if n <= lo then Roster([], map[]) else RosterStep(rd, RosterOf(rd, rows, lo, n - 1), RowAt(rows, n - 1))
  }

  method ReadRoster(rd: RowReaders, rows: seq<seq<Cell>>, lo: int) returns (students: seq<Student>, marks: MarksTable)
    ensures Roster(students, marks) == RosterOf(rd, rows, lo, |rows|)
  {
    students, marks := [], map[];
    var row := lo;
    while row < |rows|
      invariant lo <= row <= if |rows| < lo then lo else |rows|
      invariant Roster(students, marks) == RosterOf(rd, rows, lo, row)
    {
      var rowData := RowAt(rows, row);
      match rd.student(rowData) {
        case None =>
        case Some(s) =>
          students := students + [s];
          marks := marks[s.id := rd.marks(rowData)];
      }
      row := row + 1;
    }
  }

  /** Whether row r of rows lo .. n-1 is the last one naming the student with this id. */
  predicate LastRowFor(rd: RowReaders, rows: seq<seq<Cell>>, n: int, r: int, id: string)
  {
    && rd.student(RowAt(rows, r)).Some? && rd.student(RowAt(rows, r)).value.id == id
    && forall r' :: r < r' < n ==> !(rd.student(RowAt(rows, r')).Some? && rd.student(RowAt(rows, r')).value.id == id)
  }

  /** The marks table has a record for exactly the listed students. */
  lemma {:induction false} RosterIds(rd: RowReaders, rows: seq<seq<Cell>>, lo: int, n: int)
    decreases n - lo
    ensures RosterOf(rd, rows, lo, n).marks.Keys == Ids(RosterOf(rd, rows, lo, n).students)
  {
    if n > lo {
      RosterIds(rd, rows, lo, n - 1);
      var p := RosterOf(rd, rows, lo, n - 1);
      var row := RowAt(rows, n - 1);
      if rd.student(row).Some? {
        var s := rd.student(row).value;
        var students := p.students + [s];
        assert Ids(students) == Ids(p.students) + {s.id} by {
          assert forall i :: 0 <= i < |p.students| ==> students[i] == p.students[i];
          assert students[|p.students|] == s;
        }
      }
    }
  }

  /** Every listed student is the one some row of the range names. */
  lemma {:induction false} RosterFromRows(rd: RowReaders, rows: seq<seq<Cell>>, lo: int, n: int)
    decreases n - lo
    ensures forall i :: 0 <= i < |RosterOf(rd, rows, lo, n).students| ==>
      exists r :: lo <= r < n && rd.student(RowAt(rows, r)) == Some(RosterOf(rd, rows, lo, n).students[i])
  {
    if n > lo {
      RosterFromRows(rd, rows, lo, n - 1);
      var p := RosterOf(rd, rows, lo, n - 1);
      var st := RosterOf(rd, rows, lo, n);
      forall i | 0 <= i < |st.students|
        ensures exists r :: lo <= r < n && rd.student(RowAt(rows, r)) == Some(st.students[i])
      {
        if i < |p.students| {
          assert st.students[i] == p.students[i];
          var r :| lo <= r < n - 1 && rd.student(RowAt(rows, r)) == Some(p.students[i]);
          assert lo <= r < n && rd.student(RowAt(rows, r)) == Some(st.students[i]);
        } else {
          assert rd.student(RowAt(rows, n - 1)) == Some(st.students[i]);
        }
      }
    } else {
      assert RosterOf(rd, rows, lo, n).students == [];
    }
  }

  /** A student named by several rows keeps the marks record of the last of them. */
  lemma {:induction false} RosterLastRowWins(rd: RowReaders, rows: seq<seq<Cell>>, lo: int, n: int)
    decreases n - lo
    ensures forall id :: id in RosterOf(rd, rows, lo, n).marks ==>
      exists r :: lo <= r < n && LastRowFor(rd, rows, n, r, id) && RosterOf(rd, rows, lo, n).marks[id] == rd.marks(RowAt(rows, r))
  {
    if n > lo {
      RosterLastRowWins(rd, rows, lo, n - 1);
      var p := RosterOf(rd, rows, lo, n - 1);
      var st := RosterOf(rd, rows, lo, n);
      var row := RowAt(rows, n - 1);
      forall id | id in st.marks
        ensures exists r :: lo <= r < n && LastRowFor(rd, rows, n, r, id) && st.marks[id] == rd.marks(RowAt(rows, r))
      {
        if rd.student(row).Some? && rd.student(row).value.id == id {
          assert LastRowFor(rd, rows, n, n - 1, id);
        } else {
          assert id in p.marks && st.marks[id] == p.marks[id];
          var r :| lo <= r < n - 1 && LastRowFor(rd, rows, n - 1, r, id) && p.marks[id] == rd.marks(RowAt(rows, r));
          assert LastRowFor(rd, rows, n, r, id);
        }
      }
    }
  }

  // ---------------------------------------------------------------------------
  // extractStudentData

  /** Header, key columns and column map of the student section starting at startRow. */
  datatype Layout = Layout(header: HeaderChoice, keys: KeyColumns, colMap: map<string, int>)

  function LayoutOf(rt: Runtime, rows: seq<seq<Cell>>, startRow: int, c: Config): Layout
  {
    var h := ChooseHeader(rt, rows, startRow);
    var k := KeyColumnsOf(rt, h.header);
    Layout(h, k, ColumnMap(ExpectedOrder(c), TemplateHeaderTests(rt, h.header, c), k, |h.header|))
  }

  /** The roster of a sheet whose student section starts at startRow (-1 when there is none). */
  function StudentData(rt: Runtime, rows: seq<seq<Cell>>, startRow: int, c: Config): Roster
  {
    if startRow == -1 || startRow >= |rows| then Roster([], map[])
    else
      var l := LayoutOf(rt, rows, startRow, c);
      RosterOf(TemplateReaders(rt, l.keys, l.colMap), rows, l.header.dataStart, |rows|)
  }

  method ExtractStudentData(rt: Runtime, rows: seq<seq<Cell>>, startRow: int, c: Config)
    returns (students: seq<Student>, marks: MarksTable)
    ensures Roster(students, marks) == StudentData(rt, rows, startRow, c)
  {
    if startRow == -1 || startRow >= |rows| {
      return [], map[];
    }
    var h := ChooseHeader(rt, rows, startRow);
    var k, used := FindKeyColumns(Kinds(rt, h.header), |h.header|);
    var colMap := MapColumns(ExpectedOrder(c), TemplateHeaderTests(rt, h.header, c), k, used, |h.header|);
    students, marks := ReadRoster(TemplateReaders(rt, k, colMap), rows, h.dataStart);
  }

  /**
   * The roster of a sheet: empty without a student section; otherwise every
   * student passes the skip rule, the marks table holds exactly the listed ids,
   * each record holds exactly the mapped keys, and the column map is injective and
   * stays inside the header row, off the ID, Name and No. columns.
   */
  lemma StudentDataFacts(rt: Runtime, rows: seq<seq<Cell>>, startRow: int, c: Config)
    ensures startRow == -1 || startRow >= |rows| ==> StudentData(rt, rows, startRow, c) == Roster([], map[])
    ensures var r := StudentData(rt, rows, startRow, c);
      && r.marks.Keys == Ids(r.students)
      && (forall i :: 0 <= i < |r.students| ==> !Skipped(r.students[i].id, r.students[i].name))
    ensures !(startRow == -1 || startRow >= |rows|) ==>
      var l := LayoutOf(rt, rows, startRow, c);
      var r := StudentData(rt, rows, startRow, c);
      && (forall id :: id in r.marks ==> r.marks[id].Keys == l.colMap.Keys)
      && (forall key :: key in l.colMap ==>
            0 <= l.colMap[key] < |l.header.header| && l.colMap[key] != l.keys.idCol
            && l.colMap[key] != l.keys.nameCol && l.colMap[key] != l.keys.noCol)
      && (forall k1, k2 :: k1 in l.colMap && k2 in l.colMap && l.colMap[k1] == l.colMap[k2] ==> k1 == k2)
  {
    if !(startRow == -1 || startRow >= |rows|) {
      var l := LayoutOf(rt, rows, startRow, c);
      var rd := TemplateReaders(rt, l.keys, l.colMap);
      var lo := l.header.dataStart;
      RosterIds(rd, rows, lo, |rows|);
      RosterFromRows(rd, rows, lo, |rows|);
      RosterLastRowWins(rd, rows, lo, |rows|);
      var r := RosterOf(rd, rows, lo, |rows|);
      forall i | 0 <= i < |r.students|
        ensures !Skipped(r.students[i].id, r.students[i].name)
      {
        var row :| lo <= row < |rows| && rd.student(RowAt(rows, row)) == Some(r.students[i]);
        ReadStudentSkipRule(rt, l.keys, RowAt(rows, row));
      }
      forall id | id in r.marks
        ensures r.marks[id].Keys == l.colMap.Keys
      {
        var row :| lo <= row < |rows| && LastRowFor(rd, rows, |rows|, row, id) && r.marks[id] == rd.marks(RowAt(rows, row));
        RowMarksKeys(rt, l.colMap, RowAt(rows, row));
      }
      KeyColumnsDistinct(Kinds(rt, l.header.header), |l.header.header|);
      ColumnMapSound(ExpectedOrder(c), TemplateHeaderTests(rt, l.header.header, c), l.keys, |l.header.header|);
    }
  }
}
