/**
 * The student-data header of an uploaded sheet (`extractStudentData` in
 * src/utils/excelParser.js, first half): which row is the header, and which
 * columns hold the student ID, the name and the serial number.
 */
module ExcelColumns {
  import opened Strings
  import opened Cells

  // ---------------------------------------------------------------------------
  // Header row

  /** A row text that mentions an assessment: "ct-", "q1" or "assignment". */
  predicate MentionsAssessments(text: string)
  {
    Contains(text, "ct-") || Contains(text, "q1") || Contains(text, "assignment")
  }

  datatype HeaderChoice = HeaderChoice(header: seq<Cell>, dataStart: int)

  /**
   * The header is the start row itself, with data after it, unless the row above
   * mentions assessments and the start row does not: then the row above is the
   * header and the data starts at the start row.
   */
  function ChooseHeader(rt: Runtime, rows: seq<seq<Cell>>, startRow: int): (h: HeaderChoice)
    ensures h.dataStart == startRow || h.dataStart == startRow + 1
    ensures h.dataStart == startRow <==>
      startRow > 0 && MentionsAssessments(RowText(rt, RowAt(rows, startRow - 1)))
      && !MentionsAssessments(RowText(rt, RowAt(rows, startRow)))
    ensures h.header == RowAt(rows, h.dataStart - 1)
  {
    if startRow > 0
      && MentionsAssessments(RowText(rt, RowAt(rows, startRow - 1)))
      && !MentionsAssessments(RowText(rt, RowAt(rows, startRow)))
    then HeaderChoice(RowAt(rows, startRow - 1), startRow)
    else HeaderChoice(RowAt(rows, startRow), startRow + 1)
  }

  // ---------------------------------------------------------------------------
  // ID, Name and No. columns

  /** `String(headerRow[col] || '').toLowerCase().trim()` */
  function HeaderText(rt: Runtime, header: seq<Cell>, col: int): string
  {
    Trim(Lower(CellOrBlank(rt, CellAt(header, col))))
  }

  predicate IsNoHeader(h: string)
  {
    h == "no." || h == "no" || Contains(h, "number")
  }

  predicate IsIdHeader(h: string)
  {
    (Contains(h, "id") || Contains(h, "roll") || h == "* id" || h == "*id") && !Contains(h, "name")
  }

  predicate IsNameHeader(h: string)
  {
    Contains(h, "name") && !Contains(h, "id")
  }

  /** What a header text can be taken for. */
  datatype HeaderKind = HeaderKind(no: bool, id: bool, name: bool)

  function KindOf(h: string): HeaderKind
  {
    HeaderKind(IsNoHeader(h), IsIdHeader(h), IsNameHeader(h))
  }

  /** The header kinds of a header row, column by column. */
  function Kinds(rt: Runtime, header: seq<Cell>): int -> HeaderKind
  {
    col => KindOf(HeaderText(rt, header, col))
  }

  /** The ID, Name and No. columns (-1 while not found). */
  datatype KeyColumns = KeyColumns(idCol: int, nameCol: int, noCol: int)

  /** One iteration of the header loop on column col. */
  function KeyStep(k: KeyColumns, kind: HeaderKind, col: int): KeyColumns
  {
    if kind.no && k.noCol == -1 then k.(noCol := col)
    else if kind.id && k.idCol == -1 then k.(idCol := col)
    else if kind.name && k.nameCol == -1 then k.(nameCol := col)
    else k
  }

  /** The columns the header loop finds among columns 0 .. n-1. */
  function ScanKeyColumns(kinds: int -> HeaderKind, n: nat): (k: KeyColumns)
    ensures -1 <= k.noCol < n && -1 <= k.idCol < n && -1 <= k.nameCol < n
  {
    if n == 0 then KeyColumns(-1, -1, -1) else KeyStep(ScanKeyColumns(kinds, n - 1), kinds(n - 1), n - 1)
  }

  /**
   * What the header loop finds: No. is the first serial-number header; ID is the
   * first ID header not taken as No.; Name is the first name header not taken as
   * No. (an ID header is never a name header, so Name never lands on ID).
   */
  lemma {:induction false} ScanKeyColumnsFirst(kinds: int -> HeaderKind, n: nat)
    requires forall c :: !(kinds(c).id && kinds(c).name)
    ensures var k := ScanKeyColumns(kinds, n);
      && (k.noCol != -1 ==> kinds(k.noCol).no)
      && (forall c :: 0 <= c < n && kinds(c).no ==> k.noCol != -1 && k.noCol <= c)
      && (k.idCol != -1 ==> kinds(k.idCol).id && k.idCol != k.noCol)
      && (forall c :: 0 <= c < n && kinds(c).id && c != k.noCol ==> k.idCol != -1 && k.idCol <= c)
      && (k.nameCol != -1 ==> kinds(k.nameCol).name && k.nameCol != k.noCol && k.nameCol != k.idCol)
      && (forall c :: 0 <= c < n && kinds(c).name && c != k.noCol ==> k.nameCol != -1 && k.nameCol <= c)
  {
    if n > 0 {
      ScanKeyColumnsFirst(kinds, n - 1);
    }
  }

  /** An ID header never contains "name" and a name header always does. */
  lemma HeaderKindsExclusive(rt: Runtime, header: seq<Cell>)
    ensures forall c :: !(Kinds(rt, header)(c).id && Kinds(rt, header)(c).name)
  {
  }

  /** The first column in [from, width) not in used, or -1. */
  function FirstUnused(used: set<int>, from: int, width: int): (c: int)
    requires from >= 0
    decreases width - from
    ensures c == -1 || (from <= c < width && c !in used)
    ensures c != -1 ==> forall d :: from <= d < c ==> d in used
    ensures c == -1 ==> forall d :: from <= d < width ==> d in used
  {
    if from >= width then -1
    else if from !in used then from
    else FirstUnused(used, from + 1, width)
  }

  /** The columns the header loop itself has taken. */
  function Found(k: KeyColumns): set<int>
  {
    (if k.idCol != -1 then {k.idCol} else {}) + (if k.nameCol != -1 then {k.nameCol} else {})
    + (if k.noCol != -1 then {k.noCol} else {})
  }

  /** The columns taken by the header loop and the defaults. */
  function Reserved(k: KeyColumns): set<int>
  {
    {k.idCol, k.nameCol} + (if k.noCol != -1 then {k.noCol} else {})
  }

  /**
   * The defaults: a missing ID column is the column after No. (or column 0); a
   * missing Name column is the column after ID, or, when that one is taken, the first
   * free column (the column after ID again when every column is taken).
   */
  function WithDefaults(found: KeyColumns, width: int): KeyColumns
  {
    var id := if found.idCol != -1 then found.idCol else if found.noCol != -1 then found.noCol + 1 else 0;
    if found.nameCol != -1 then found.(idCol := id)
    else
      var used := {id} + (if found.noCol != -1 then {found.noCol} else {});
      var name := if id + 1 in used then (var f := FirstUnused(used, 0, width); if f == -1 then id + 1 else f) else id + 1;
      KeyColumns(id, name, found.noCol)
  }

  function KeyColumnsOf(rt: Runtime, header: seq<Cell>): KeyColumns
  {
    WithDefaults(ScanKeyColumns(Kinds(rt, header), |header|), |header|)
  }

  /** The loop searching for a free column for Name. */
  method FindFirstUnused(used: set<int>, width: int) returns (c: int)
    ensures c == FirstUnused(used, 0, width)
  {
    c := -1;
    var col := 0;
    while col < width
      invariant 0 <= col <= if width < 0 then 0 else width
      invariant FirstUnused(used, 0, width) == FirstUnused(used, col, width)
    {
      if col !in used {
        c := col;
        return;
      }
      col := col + 1;
    }
  }

  /** The header loop: the columns whose headers name ID, Name and No., and the set of them. */
  method ScanHeader(kinds: int -> HeaderKind, width: nat) returns (k: KeyColumns, used: set<int>)
    ensures k == ScanKeyColumns(kinds, width)
    ensures used == Found(k)
  {
    var idCol, nameCol, noCol := -1, -1, -1;
    used := {};
    var col := 0;
    while col < width
      invariant 0 <= col <= width
      invariant KeyColumns(idCol, nameCol, noCol) == ScanKeyColumns(kinds, col)
      invariant used == Found(KeyColumns(idCol, nameCol, noCol))
    {
      var kind := kinds(col);
      if kind.no && noCol == -1 {
        noCol := col;
        used := used + {col};
      } else if kind.id && idCol == -1 {
        idCol := col;
        used := used + {col};
      } else if kind.name && nameCol == -1 {
        nameCol := col;
        used := used + {col};
      }
      col := col + 1;
    }
    k := KeyColumns(idCol, nameCol, noCol);
  }

  /** The header loop and the defaults, with the `usedCols` set they leave behind. */
  method FindKeyColumns(kinds: int -> HeaderKind, width: nat) returns (k: KeyColumns, used: set<int>)
    ensures k == WithDefaults(ScanKeyColumns(kinds, width), width)
    ensures used == Reserved(k)
  {
    k, used := ScanHeader(kinds, width);
    if k.idCol == -1 {
      k := k.(idCol := if k.noCol != -1 then k.noCol + 1 else 0);
      used := used + {k.idCol};
    }
    if k.nameCol == -1 {
      k := k.(nameCol := k.idCol + 1);
      if k.nameCol in used {
        var free := FindFirstUnused(used, width);
        if free != -1 {
          k := k.(nameCol := free);
        }
      }
      used := used + {k.nameCol};
    }
  }

  /** The ID column is never the No. column, and both ID and Name end up non-negative. */
  lemma KeyColumnsDistinct(kinds: int -> HeaderKind, width: nat)
    ensures var k := WithDefaults(ScanKeyColumns(kinds, width), width);
      k.idCol >= 0 && k.nameCol >= 0 && (k.noCol != -1 ==> k.idCol != k.noCol)
  {
  }

  /** With headers "No" and "Name" and no ID header, the defaulted ID column is the Name column. */
  lemma IdMayCoincideWithName()
    ensures var kinds := (c: int) => if c == 0 then HeaderKind(true, false, false) else HeaderKind(false, false, true);
      var k := WithDefaults(ScanKeyColumns(kinds, 2), 2);
      k.idCol == 1 && k.nameCol == 1
  {
    var kinds := (c: int) => if c == 0 then HeaderKind(true, false, false) else HeaderKind(false, false, true);
    assert ScanKeyColumns(kinds, 1) == KeyColumns(-1, -1, 0);
    assert ScanKeyColumns(kinds, 2) == KeyColumns(-1, 1, 0);
  }
}
