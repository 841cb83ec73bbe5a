/**
 * The student roster upload (src/components/UploadComponent.jsx): the sheet's
 * rows arrive as objects keyed by the header texts; the header keys of the
 * first row are searched for an ID column and a name column, and every row
 * becomes one `{ id, name }`.
 */
module Upload {
  import opened Options
  import opened Strings
  import opened Cells
  import opened Assessments

  /** A row object of the sheet: its keys in insertion order, and the cell under each. */
  datatype Row = Row(keys: seq<string>, cells: map<string, Cell>)

  /** `row[key]`, with an absent key read as blank. */
  function Get(row: Row, key: string): Cell
  {
    if key in row.cells then row.cells[key] else Empty
  }

  /** `keys.find(p)`: the first key satisfying `p`. */
  function Find(keys: seq<string>, p: string -> bool): (r: Option<string>)
    ensures r.Some? ==> r.value in keys && p(r.value)
    ensures r.Some? ==> exists i :: 0 <= i < |keys| && keys[i] == r.value && forall j :: 0 <= j < i ==> !p(keys[j])
    ensures r.None? ==> forall k :: k in keys ==> !p(k)
  {
    if |keys| == 0 then None
    else if p(keys[0]) then Some(keys[0])
    else
      var r := Find(keys[1..], p);
      if r.Some? then
        var i :| 0 <= i < |keys[1..]| && keys[1..][i] == r.value && forall j :: 0 <= j < i ==> !p(keys[1..][j]);
        assert keys[i + 1] == r.value;
        r
      else r
  }

  /** `a || b` on two optional keys: a found key is truthy because it contains a letter. */
  function OrElse(a: Option<string>, b: Option<string>): Option<string>
  {
    if a.Some? then a else b
  }

  /** The primary ID rule: "id" without "name", or "roll", or "student" with "id" (case-insensitive). */
  predicate IdHeader(key: string)
  {
    var k := Lower(key);
    (Contains(k, "id") && !Contains(k, "name")) || Contains(k, "roll") || (Contains(k, "student") && Contains(k, "id"))
  }

  predicate StudentHeader(key: string)
  {
    Contains(Lower(key), "student")
  }

  /** The ID column: the first key matching the primary rule, else the first containing "student". */
  function IdKey(keys: seq<string>): Option<string>
  {
    OrElse(Find(keys, IdHeader), Find(keys, StudentHeader))
  }

  /** The primary name rule: "name" without "id", and not the ID column. */
  predicate NameHeader(idKey: Option<string>, key: string)
  {
    var k := Lower(key);
    Contains(k, "name") && !Contains(k, "id") && Some(key) != idKey
  }

  /** The fallback name rule: "student" without "id", and not the ID column. */
  predicate StudentNameHeader(idKey: Option<string>, key: string)
  {
    var k := Lower(key);
    Contains(k, "student") && !Contains(k, "id") && Some(key) != idKey
  }

  /** The name column: the first key matching the primary rule, else the first matching the fallback. */
  function NameKey(keys: seq<string>, idKey: Option<string>): Option<string>
  {
    OrElse(Find(keys, k => NameHeader(idKey, k)), Find(keys, k => StudentNameHeader(idKey, k)))
  }

  /**
   * The ID column is a first-row key chosen by the primary rule when any key
   * satisfies it, and by the fallback only otherwise; no column at all exactly
   * when no key satisfies either rule.
   */
  lemma IdKeyRules(keys: seq<string>)
    ensures IdKey(keys).Some? ==> IdKey(keys).value in keys
    ensures (exists k :: k in keys && IdHeader(k)) ==> IdKey(keys) == Find(keys, IdHeader) && IdHeader(IdKey(keys).value)
    ensures (forall k :: k in keys ==> !IdHeader(k)) ==> IdKey(keys) == Find(keys, StudentHeader)
    ensures IdKey(keys).None? <==> forall k :: k in keys ==> !IdHeader(k) && !StudentHeader(k)
  {
  }

  /**
   * The name column is a first-row key that never contains "id" and is never
   * the ID column: the first key of the "name" rule when any key satisfies it,
   * and the first of the "student" fallback only otherwise; no column at all
   * exactly when no key satisfies either rule.
   */
  lemma NameKeyRules(keys: seq<string>)
    ensures var n := NameKey(keys, IdKey(keys));
      n.Some? ==> n.value in keys && !Contains(Lower(n.value), "id") && n != IdKey(keys)
    ensures NameKey(keys, IdKey(keys)).None? <==>
      forall k :: k in keys ==> !NameHeader(IdKey(keys), k) && !StudentNameHeader(IdKey(keys), k)
    ensures (exists k :: k in keys && NameHeader(IdKey(keys), k)) ==>
      NameKey(keys, IdKey(keys)) == Find(keys, k => NameHeader(IdKey(keys), k))
      && NameHeader(IdKey(keys), NameKey(keys, IdKey(keys)).value)
    ensures (forall k :: k in keys ==> !NameHeader(IdKey(keys), k)) ==>
      NameKey(keys, IdKey(keys)) == Find(keys, k => StudentNameHeader(IdKey(keys), k))
  {
  }

  /** `String(row[key] || '').trim()` */
  function Field(rt: Runtime, row: Row, key: string): string
  {
    Trim(CellOrBlank(rt, Get(row, key)))
  }

  /** The student of row `index`: the cells under the two columns, or the numbered defaults. */
  function StudentOf(rt: Runtime, row: Row, index: nat, idKey: Option<string>, nameKey: Option<string>): Student
  {
    Student(
      if idKey.Some? then Field(rt, row, idKey.value) else "STUDENT-" + NatToString(index + 1),
      if nameKey.Some? then Field(rt, row, nameKey.value) else "Student " + NatToString(index + 1))
  }

  /** What the upload shows: the empty-file error, or the extracted roster. */
  datatype Outcome = EmptyFile | Roster(students: seq<Student>)

  /** The reader's `onload` after the sheet has been turned into row objects. */
  function ProcessRows(rt: Runtime, rows: seq<Row>): Outcome
  {
    if |rows| == 0 then EmptyFile
    else
      var keys := rows[0].keys;
      var idKey := IdKey(keys);
      var nameKey := NameKey(keys, idKey);
      Roster(seq(|rows|, i requires 0 <= i < |rows| => StudentOf(rt, rows[i], i, idKey, nameKey)))
  }

  /**
   * An empty sheet is reported and yields no roster; otherwise there is one
   * student per row, in row order, whose id and name are the trimmed cells of
   * the chosen columns (a blank or absent cell giving `''`), or the numbered
   * defaults `STUDENT-<i+1>` and `Student <i+1>` when a column is missing.
   */
  lemma RosterShape(rt: Runtime, rows: seq<Row>)
    ensures ProcessRows(rt, rows).EmptyFile? <==> |rows| == 0
    ensures |rows| > 0 ==> |ProcessRows(rt, rows).students| == |rows|
    ensures |rows| > 0 ==> forall i :: 0 <= i < |rows| ==>
      var idKey := IdKey(rows[0].keys);
      var s := ProcessRows(rt, rows).students[i];
      s.id == (if idKey.Some? then Trim(CellOrBlank(rt, Get(rows[i], idKey.value))) else "STUDENT-" + NatToString(i + 1))
    ensures |rows| > 0 ==> forall i :: 0 <= i < |rows| ==>
      var nameKey := NameKey(rows[0].keys, IdKey(rows[0].keys));
      var s := ProcessRows(rt, rows).students[i];
      s.name == (if nameKey.Some? then Trim(CellOrBlank(rt, Get(rows[i], nameKey.value))) else "Student " + NatToString(i + 1))
  {
  }

  /** Without an ID column every student still gets a distinct id. */
  lemma DefaultIdsDistinct(rt: Runtime, rows: seq<Row>, i: nat, j: nat)
    requires |rows| > 0 && IdKey(rows[0].keys).None?
    requires i < j < |rows|
    ensures ProcessRows(rt, rows).students[i].id != ProcessRows(rt, rows).students[j].id
  {
    var a := "STUDENT-" + NatToString(i + 1);
    var b := "STUDENT-" + NatToString(j + 1);
    if a == b {
      assert a[8..] == NatToString(i + 1);
      assert b[8..] == NatToString(j + 1);
      NatToStringInjective(i + 1, j + 1);
    }
  }
}
