/**
 * The marks table both marks-entry forms keep (src/components/MarksEntry.jsx and
 * src/components/ComprehensiveMarksEntry.jsx): student id -> mark key -> mark.
 * The forms complete it so that every student has a record holding every key,
 * and edit one cell at a time.
 */
module MarksTables {
  import opened Options
  import opened Assessments

  type Record = map<string, Mark>

  /** The mark stored under student `id` and key `key`, if there is one. */
  function Lookup(m: MarksTable, id: string, key: string): Option<Mark>
  {
    if id in m && key in m[id] then Some(m[id][key]) else None
  }

  /** A student's record, or the empty object when there is none. */
  function RecordOf(m: MarksTable, id: string): Record
  {
    if id in m then m[id] else map[]
  }

  // ---------------------------------------------------------------------------
  // Completing the table

  /** The first `n` keys, each set to `''` unless the record already has it. */
  function FillKeys(rec: Record, keys: seq<string>, n: nat): Record
    requires n <= |keys|
  {
    if n == 0 then rec
    else
      var r := FillKeys(rec, keys, n - 1);
      if keys[n - 1] in r then r else r[keys[n - 1] := Blank]
  }

  /** The filled record holds the record's keys and the first `n` keys; the added ones hold `''`. */
  lemma {:induction false} FillKeysCells(rec: Record, keys: seq<string>, n: nat)
    requires n <= |keys|
    ensures forall k :: k in FillKeys(rec, keys, n) <==> k in rec || k in keys[..n]
    ensures forall k :: k in FillKeys(rec, keys, n) ==> FillKeys(rec, keys, n)[k] == if k in rec then rec[k] else Blank
  {
    if n > 0 {
      FillKeysCells(rec, keys, n - 1);
      assert keys[..n] == keys[..n - 1] + [keys[n - 1]];
    }
  }

  /** Some of the first `n` keys is missing from the record. */
  predicate KeysMissing(rec: Record, keys: seq<string>, n: nat)
    requires n <= |keys|
  {
    exists j :: 0 <= j < n && keys[j] !in rec
  }

  /** One more key: it is missing from the record filled so far exactly when it is a new miss. */
  lemma KeysMissingStep(rec: Record, keys: seq<string>, j: nat)
    requires j < |keys|
    ensures KeysMissing(rec, keys, j + 1) <==> KeysMissing(rec, keys, j) || keys[j] !in FillKeys(rec, keys, j)
  {
    FillKeysCells(rec, keys, j);
    if keys[j] !in rec && keys[j] in FillKeys(rec, keys, j) {
      var i :| 0 <= i < j && keys[..j][i] == keys[j];
    }
  }

  /** Filling changes a record exactly when one of the keys was missing from it. */
  lemma FillKeysChanges(rec: Record, keys: seq<string>, n: nat)
    requires n <= |keys|
    ensures FillKeys(rec, keys, n) != rec <==> KeysMissing(rec, keys, n)
  {
    var r := FillKeys(rec, keys, n);
    FillKeysCells(rec, keys, n);
    if KeysMissing(rec, keys, n) {
      var j :| 0 <= j < n && keys[j] !in rec;
      assert keys[..n][j] == keys[j];
      assert keys[j] in r;
    } else {
      assert forall k :: k in keys[..n] ==> k in rec;
      assert r.Keys == rec.Keys;
    }
  }

  /** One student's turn: create the record if absent, then add the missing keys as `''`. */
  function FillRecord(m: MarksTable, id: string, keys: seq<string>): MarksTable
  {
    m[id := FillKeys(RecordOf(m, id), keys, |keys|)]
  }

  /** The table after the first `n` students have had their turn. */
  function Fill(m: MarksTable, students: seq<Student>, keys: seq<string>, n: nat): MarksTable
    requires n <= |students|
  {
    if n == 0 then m else FillRecord(Fill(m, students, keys, n - 1), students[n - 1].id, keys)
  }

  /** Whether one student's turn finds something missing: the record or one of its keys. */
  predicate StudentMissing(m: MarksTable, id: string, keys: seq<string>)
  {
    id !in m || KeysMissing(m[id], keys, |keys|)
  }

  /** The `hasChanges` flag after the first `n` students. */
  predicate HasChanges(m: MarksTable, students: seq<Student>, keys: seq<string>, n: nat)
    requires n <= |students|
  {
    n > 0 && (HasChanges(m, students, keys, n - 1) || StudentMissing(Fill(m, students, keys, n - 1), students[n - 1].id, keys))
  }

  /** Every one of the first `n` students has a record holding every key. */
  predicate Complete(m: MarksTable, students: seq<Student>, keys: seq<string>, n: nat)
    requires n <= |students|
  {
    forall i :: 0 <= i < n ==> students[i].id in m && forall k :: k in keys ==> k in m[students[i].id]
  }

  predicate IsId(students: seq<Student>, n: nat, id: string)
    requires n <= |students|
  {
    exists i :: 0 <= i < n && students[i].id == id
  }

  /** A cell of the completed table, described without the loop. */
  function FilledCell(m: MarksTable, students: seq<Student>, keys: seq<string>, n: nat, id: string, k: string): Option<Mark>
    requires n <= |students|
  {
    if Lookup(m, id, k).Some? then Lookup(m, id, k)
    else if IsId(students, n, id) && k in keys then Some(Blank)
    else None
  }

  /**
   * The completed table, cell by cell: a stored mark stays as it is, a missing
   * cell of a listed student under a listed key becomes `''`, and nothing else
   * appears; the records are those already stored and those of the listed students.
   */
  lemma {:induction false} FillCells(m: MarksTable, students: seq<Student>, keys: seq<string>, n: nat)
    requires n <= |students|
    ensures forall id :: id in Fill(m, students, keys, n) <==> id in m || IsId(students, n, id)
    ensures forall id, k :: Lookup(Fill(m, students, keys, n), id, k) == FilledCell(m, students, keys, n, id, k)
  {
    if n > 0 {
      FillCells(m, students, keys, n - 1);
      var prev := Fill(m, students, keys, n - 1);
      var id := students[n - 1].id;
      assert keys[..|keys|] == keys;
      forall x
        ensures IsId(students, n, x) <==> IsId(students, n - 1, x) || x == id
      {
        if IsId(students, n, x) && x != id {
          var i :| 0 <= i < n && students[i].id == x;
          assert i < n - 1;
        }
      }
      forall x, k
        ensures Lookup(Fill(m, students, keys, n), x, k) == FilledCell(m, students, keys, n, x, k)
      {
        if x == id {
          assert students[n - 1].id == id;
          assert IsId(students, n, id);
          var rec := RecordOf(prev, id);
          assert Fill(m, students, keys, n)[id] == FillKeys(rec, keys, |keys|);
          FillKeysCells(rec, keys, |keys|);
          assert k in rec <==> Lookup(prev, id, k).Some?;
          assert Lookup(prev, id, k) == FilledCell(m, students, keys, n - 1, id, k);
        } else {
          assert Lookup(Fill(m, students, keys, n), x, k) == Lookup(prev, x, k);
          assert Lookup(prev, x, k) == FilledCell(m, students, keys, n - 1, x, k);
        }
      }
    }
  }

  /** Completion only adds records and keys: every stored record and cell is kept. */
  ghost predicate Extends(big: MarksTable, small: MarksTable)
  {
    (forall id :: id in small ==> id in big) &&
    forall id, k :: Lookup(small, id, k).Some? ==> Lookup(big, id, k) == Lookup(small, id, k)
  }

  /**
   * The three promises of the completion: afterwards every listed student has
   * every key, no stored mark is overwritten, and every cell that was added holds `''`.
   */
  lemma FillSound(m: MarksTable, students: seq<Student>, keys: seq<string>)
    ensures Complete(Fill(m, students, keys, |students|), students, keys, |students|)
    ensures Extends(Fill(m, students, keys, |students|), m)
    ensures forall id, k :: Lookup(m, id, k).None? && Lookup(Fill(m, students, keys, |students|), id, k).Some? ==>
      Lookup(Fill(m, students, keys, |students|), id, k) == Some(Blank)
  {
    var f := Fill(m, students, keys, |students|);
    FillCells(m, students, keys, |students|);
    forall i, k | 0 <= i < |students| && k in keys
      ensures students[i].id in f && k in f[students[i].id]
    {
      assert IsId(students, |students|, students[i].id);
      assert Lookup(f, students[i].id, k).Some?;
    }
  }

  /** A table in which every listed student already has every key is left as it is, and only then. */
  lemma {:induction false} FillIdentity(m: MarksTable, students: seq<Student>, keys: seq<string>, n: nat)
    requires n <= |students|
    ensures Fill(m, students, keys, n) == m <==> Complete(m, students, keys, n)
  {
    if n > 0 {
      FillIdentity(m, students, keys, n - 1);
      var id := students[n - 1].id;
      if Complete(m, students, keys, n) {
        assert Complete(m, students, keys, n - 1);
        assert !KeysMissing(m[id], keys, |keys|);
        FillKeysChanges(m[id], keys, |keys|);
        assert FillRecord(m, id, keys) == m;
      } else if Fill(m, students, keys, n) == m {
        FillCells(m, students, keys, n);
        forall i, k | 0 <= i < n && k in keys
          ensures students[i].id in m && k in m[students[i].id]
        {
          assert IsId(students, n, students[i].id);
          assert Lookup(Fill(m, students, keys, n), students[i].id, k).Some?;
        }
        assert false;
      }
    }
  }

  /**
   * The inner loop of the effect over one student's record: every key missing
   * from it is set to `''`, and `missing` records whether any was.
   */
  method CompleteRecord(record: Record, keys: seq<string>) returns (r: Record, missing: bool)
    ensures r == FillKeys(record, keys, |keys|)
    ensures missing == KeysMissing(record, keys, |keys|)
  {
    r := record;
    missing := false;
    for j := 0 to |keys|
      invariant r == FillKeys(record, keys, j)
      invariant missing == KeysMissing(record, keys, j)
    {
      KeysMissingStep(record, keys, j);
      if keys[j] !in r {
        r := r[keys[j] := Blank];
        missing := true;
      }
    }
  }

  /**
   * One student's turn of the effect: create the record when absent, then
   * complete it; `missing` is what the turn contributes to `hasChanges`.
   */
  method StudentTurn(m: MarksTable, id: string, keys: seq<string>) returns (r: MarksTable, missing: bool)
    ensures r == FillRecord(m, id, keys)
    ensures missing == StudentMissing(m, id, keys)
  {
    r := m;
    missing := false;
    if id !in r {
      r := r[id := map[]];
      missing := true;
    }
    var record, absent := CompleteRecord(r[id], keys);
    r := r[id := record];
    missing := missing || absent;
  }

  /** A student's turn changes the table exactly when it finds something missing. */
  lemma FillRecordChanges(m: MarksTable, id: string, keys: seq<string>)
    ensures FillRecord(m, id, keys) != m <==> StudentMissing(m, id, keys)
  {
    if id in m {
      FillKeysChanges(m[id], keys, |keys|);
      if FillRecord(m, id, keys) == m {
        assert FillKeys(m[id], keys, |keys|) == FillRecord(m, id, keys)[id];
      }
    } else {
      assert id in FillRecord(m, id, keys);
    }
  }

  lemma FillRecordExtends(m: MarksTable, id: string, keys: seq<string>)
    ensures Extends(FillRecord(m, id, keys), m)
  {
    FillKeysCells(RecordOf(m, id), keys, |keys|);
    assert keys[..|keys|] == keys;
  }

  /** Two tables that each keep every record and cell of the other are equal. */
  lemma ExtendsAntisymmetric(a: MarksTable, b: MarksTable)
    requires Extends(a, b) && Extends(b, a)
    ensures a == b
  {
    forall id | id in a
      ensures a[id] == b[id]
    {
      forall k | k in a[id] ensures k in b[id] && a[id][k] == b[id][k] { assert Lookup(a, id, k).Some?; }
      forall k | k in b[id] ensures k in a[id] { assert Lookup(b, id, k).Some?; }
    }
  }

  /**
   * `hasChanges` is raised exactly when the completed table differs from the
   * one the effect started from, so the state is replaced only when something
   * was missing.
   */
  lemma {:induction false} HasChangesIff(m: MarksTable, students: seq<Student>, keys: seq<string>, n: nat)
    requires n <= |students|
    ensures HasChanges(m, students, keys, n) <==> Fill(m, students, keys, n) != m
  {
    if n > 0 {
      HasChangesIff(m, students, keys, n - 1);
      var prev := Fill(m, students, keys, n - 1);
      var id := students[n - 1].id;
      FillRecordChanges(prev, id, keys);
      if prev != m && Fill(m, students, keys, n) == m {
        FillCells(m, students, keys, n - 1);
        assert Extends(prev, m);
        FillRecordExtends(prev, id, keys);
        ExtendsAntisymmetric(prev, m);
      }
    }
  }

  /** Completing an already completed table changes nothing. */
  lemma FillIdempotent(m: MarksTable, students: seq<Student>, keys: seq<string>)
    ensures var f := Fill(m, students, keys, |students|);
      Fill(f, students, keys, |students|) == f
  {
    FillSound(m, students, keys);
    FillIdentity(Fill(m, students, keys, |students|), students, keys, |students|);
  }

  // ---------------------------------------------------------------------------
  // updateMark

  /**
   * The mark a cell input stores: `''` for empty text, otherwise
   * `parseFloat(value) || 0`, so text that does not parse stores 0.
   */
  function Entered(parseFloat: string -> Option<real>, value: string): (r: Mark)
    ensures value == "" <==> r == Blank
    ensures value != "" && parseFloat(value).Some? ==> r == Score(parseFloat(value).value)
    ensures value != "" && parseFloat(value).None? ==> r == Score(0.0)
  {
    if value == "" then Blank else Score(parseFloat(value).GetOr(0.0))
  }

  /** `{ ...prev, [id]: { ...prev[id], [key]: mark } }` */
  function UpdateMark(m: MarksTable, id: string, key: string, mark: Mark): (r: MarksTable)
    ensures Lookup(r, id, key) == Some(mark)
    ensures forall id', k :: (id', k) != (id, key) ==> Lookup(r, id', k) == Lookup(m, id', k)
    ensures r.Keys == m.Keys + {id}
  {
    m[id := RecordOf(m, id)[key := mark]]
  }

  /** Editing a cell keeps a completed table complete. */
  lemma UpdateKeepsComplete(m: MarksTable, students: seq<Student>, keys: seq<string>, id: string, key: string, mark: Mark)
    requires Complete(m, students, keys, |students|)
    ensures Complete(UpdateMark(m, id, key, mark), students, keys, |students|)
  {
    var r := UpdateMark(m, id, key, mark);
    forall i, k | 0 <= i < |students| && k in keys
      ensures students[i].id in r && k in r[students[i].id]
    {
      assert Lookup(m, students[i].id, k).Some?;
      assert Lookup(r, students[i].id, k).Some?;
    }
  }

  /** What the calculations read back from an edited cell: the number, or 0 for `''`. */
  lemma UpdateReadBack(m: MarksTable, id: string, key: string, mark: Mark)
    ensures MarkValue(UpdateMark(m, id, key, mark), id, key) == if mark.Score? then mark.value else 0.0
  {
    assert Lookup(UpdateMark(m, id, key, mark), id, key) == Some(mark);
  }

  /**
   * `existingMarks && Object.keys(existingMarks).length > 0 ? existingMarks : {}`:
   * an empty stored table and no stored table both start from `{}`, so the
   * initial table is always the stored one or empty.
   */
  function InitialMarks(existing: Option<MarksTable>): (r: MarksTable)
    ensures r == existing.GetOr(map[])
  {
    if existing.Some? && |existing.value| > 0 then existing.value else map[]
  }
}
