/**
 * The CO-PO mapping matrix (src/components/COPOMapping.jsx): a 12 x 12 table of
 * cells, where a course outcome contributes to a program outcome exactly when
 * its cell holds the number 1, and the per-PO count of contributing COs.
 */
module CoPoMapping {
  import opened Options
  import opened Assessments
  import opened Tables

  /** A matrix cell: a number, or text (a stored mapping may hold the string "1"). */
  datatype Link = LinkNum(n: real) | LinkText(s: string)

  /** CO key -> PO key -> cell; a missing row or cell reads as `undefined`. */
  type Matrix = map<string, map<string, Link>>

  /** `mapping[co] && mapping[co][po] === 1`: only the number 1 links, never the text "1". */
  predicate Linked(m: Matrix, co: string, po: string)
  {
    co in m && po in m[co] && m[co][po] == LinkNum(1.0)
  }

  // ---------------------------------------------------------------------------
  // The initial matrix

  function ZeroCell(): nat -> Link
  {
    _ => LinkNum(0.0)
  }

  /** PO1..PO12, each holding 0. */
  function ZeroRow(): map<string, Link>
  {
    Numbered(PoKey, ZeroCell(), 12)
  }

  function ZeroRowFn(): nat -> map<string, Link>
  {
    _ => ZeroRow()
  }

  /** CO1..CO12, each mapped to a row of twelve zeros. */
  function ZeroMatrix(): Matrix
  {
    Numbered(CoKey, ZeroRowFn(), 12)
  }

  /** The mapping the page starts from: the existing one unchanged, else the zero matrix. */
  function InitialOf(existing: Option<Matrix>): Matrix
  {
    existing.GetOr(ZeroMatrix())
  }

  method InitialMapping(existing: Option<Matrix>) returns (m: Matrix)
    ensures m == InitialOf(existing)
  {
    if existing.Some? {
      return existing.value;
    }
    m := map[];
    var cos := 0;
    while cos < 12
      invariant cos <= 12
      invariant m == Numbered(CoKey, ZeroRowFn(), cos)
    {
      var row: map<string, Link> := map[];
      var pos := 0;
      while pos < 12
        invariant pos <= 12
        invariant row == Numbered(PoKey, ZeroCell(), pos)
      {
        row := row[PoKey(pos + 1) := LinkNum(0.0)];
        pos := pos + 1;
      }
      m := m[CoKey(cos + 1) := row];
      cos := cos + 1;
    }
  }

  /** The zero matrix has exactly the 144 cells CO1..CO12 x PO1..PO12, all 0, so nothing is linked. */
  lemma ZeroMatrixFacts()
    ensures ZeroMatrix().Keys == CoKeys()
    ensures forall co :: co in ZeroMatrix() ==> ZeroMatrix()[co].Keys == PoKeys()
    ensures forall co, po :: co in ZeroMatrix() && po in ZeroMatrix()[co] ==> ZeroMatrix()[co][po] == LinkNum(0.0)
    ensures forall co, po :: !Linked(ZeroMatrix(), co, po)
  {
    var z, r := ZeroMatrix(), ZeroRow();
    CoTable(ZeroRowFn());
    PoTable(ZeroCell());
    forall co | co in z
      ensures z[co] == r
    {
      var j :| 1 <= j <= 12 && co == CoKey(j);
      assert z[CoKey(j)] == ZeroRowFn()(j);
    }
    forall co, po | co in z && po in z[co]
      ensures z[co][po] == LinkNum(0.0)
    {
      var j :| 1 <= j <= 12 && po == PoKey(j);
      assert r[PoKey(j)] == ZeroCell()(j);
    }
  }

  // ---------------------------------------------------------------------------
  // Per-PO totals

  /** CO1..COn whose cell for po is linked, in CO order. */
  function LinkedCOs(m: Matrix, po: string, n: nat): seq<string>
  {
    if n == 0 then []
    else LinkedCOs(m, po, n - 1) + (if Linked(m, CoKey(n), po) then [CoKey(n)] else [])
  }

  /** The COs listed are exactly the linked ones among CO1..COn. */
  lemma {:induction false} LinkedCOsMembers(m: Matrix, po: string, n: nat)
    ensures forall co :: co in LinkedCOs(m, po, n) <==> exists j :: 1 <= j <= n && co == CoKey(j) && Linked(m, co, po)
  {
    if n > 0 {
      LinkedCOsMembers(m, po, n - 1);
    }
  }

  /** The COs among CO1..COn whose cell for po is linked, as outcome numbers. */
  function LinkedNumbers(m: Matrix, po: string, n: nat): set<nat>
  {
    set j: nat | 1 <= j <= n && Linked(m, CoKey(j), po)
  }

  /** The list has one element per linked CO: its length is the number of linked COs. */
  lemma {:induction false} LinkedCOsCount(m: Matrix, po: string, n: nat)
    ensures |LinkedCOs(m, po, n)| == |LinkedNumbers(m, po, n)| <= n
  {
    if n == 0 {
      assert LinkedNumbers(m, po, 0) == {};
    } else {
      LinkedCOsCount(m, po, n - 1);
      if Linked(m, CoKey(n), po) {
        assert LinkedNumbers(m, po, n) == LinkedNumbers(m, po, n - 1) + {n};
      } else {
        assert LinkedNumbers(m, po, n) == LinkedNumbers(m, po, n - 1);
      }
    }
  }

  function TotalFn(m: Matrix): nat -> int
  {
    (k: nat) => |LinkedCOs(m, PoKey(k), 12)|
  }

  /** The totals effect: POk -> number of COs linked to POk. */
  function TotalsOf(m: Matrix): map<string, int>
  {
    Numbered(PoKey, TotalFn(m), 12)
  }

  method Totals(m: Matrix) returns (totals: map<string, int>)
    ensures totals == TotalsOf(m)
  {
    totals := map[];
    var pos := 0;
    while pos < 12
      invariant pos <= 12
      invariant totals == Numbered(PoKey, TotalFn(m), pos)
    {
      var poKey := PoKey(pos + 1);
      var total := 0;
      var cos := 0;
      while cos < 12
        invariant cos <= 12
        invariant total == |LinkedCOs(m, poKey, cos)|
      {
        var coKey := CoKey(cos + 1);
        if coKey in m && poKey in m[coKey] && m[coKey][poKey] == LinkNum(1.0) {
          total := total + 1;
        }
        cos := cos + 1;
      }
      totals := totals[poKey := total];
      pos := pos + 1;
    }
  }

  /** Every PO1..PO12 gets the number of COs whose cell is exactly 1, which lies in 0..12. */
  lemma TotalsFacts(m: Matrix)
    ensures TotalsOf(m).Keys == PoKeys()
    ensures forall k :: 1 <= k <= 12 ==>
      TotalsOf(m)[PoKey(k)] == |LinkedNumbers(m, PoKey(k), 12)| && 0 <= TotalsOf(m)[PoKey(k)] <= 12
  {
    PoTable(TotalFn(m));
    forall k | 1 <= k <= 12
      ensures |LinkedCOs(m, PoKey(k), 12)| == |LinkedNumbers(m, PoKey(k), 12)| <= 12
    {
      LinkedCOsCount(m, PoKey(k), 12);
    }
  }

  function ZeroTotal(): nat -> int
  {
    _ => 0
  }

  /** The totals the page shows before the effect runs: PO1..PO12 all 0. */
  method InitialTotals() returns (totals: map<string, int>)
    ensures totals == Numbered(PoKey, ZeroTotal(), 12)
  {
    totals := map[];
    var pos := 0;
    while pos < 12
      invariant pos <= 12
      invariant totals == Numbered(PoKey, ZeroTotal(), pos)
    {
      totals := totals[PoKey(pos + 1) := 0];
      pos := pos + 1;
    }
  }

  /** The initial totals are PO1..PO12, all 0. */
  lemma InitialTotalsZero()
    ensures Numbered(PoKey, ZeroTotal(), 12).Keys == PoKeys()
    ensures forall po :: po in Numbered(PoKey, ZeroTotal(), 12) ==> Numbered(PoKey, ZeroTotal(), 12)[po] == 0
  {
    PoTable(ZeroTotal());
    forall po | po in Numbered(PoKey, ZeroTotal(), 12)
      ensures Numbered(PoKey, ZeroTotal(), 12)[po] == 0
    {
      var k :| 1 <= k <= 12 && po == PoKey(k);
    }
  }

  /** The initial totals agree with the totals of the zero matrix. */
  lemma InitialTotalsAgree()
    ensures Numbered(PoKey, ZeroTotal(), 12) == TotalsOf(ZeroMatrix())
  {
    ZeroMatrixFacts();
    forall k: nat | 1 <= k <= 12
      ensures ZeroTotal()(k) == TotalFn(ZeroMatrix())(k)
    {
      var linked := LinkedCOs(ZeroMatrix(), PoKey(k), 12);
      LinkedCOsMembers(ZeroMatrix(), PoKey(k), 12);
      if |linked| > 0 {
        assert linked[0] in linked;
      }
    }
    NumberedCongruence(PoKey, ZeroTotal(), TotalFn(ZeroMatrix()), 12);
  }

  // ---------------------------------------------------------------------------
  // toggleMapping

  /**
   * `toggleMapping(co, po)`: the cell becomes 0 when it holds the number 1 and 1
   * otherwise (0, the text "1", or missing). The row must exist: reading a cell
   * of a missing row throws.
   */
  function Toggle(m: Matrix, co: string, po: string): (r: Matrix)
    requires co in m
    ensures r.Keys == m.Keys && r[co].Keys == m[co].Keys + {po}
    ensures forall c :: c in m && c != co ==> r[c] == m[c]
    ensures forall p :: p in m[co] && p != po ==> r[co][p] == m[co][p]
  {
    m[co := m[co][po := if Linked(m, co, po) then LinkNum(0.0) else LinkNum(1.0)]]
  }

  /** Toggling flips whether (co, po) is linked and no other pair. */
  lemma ToggleFlips(m: Matrix, co: string, po: string, c: string, p: string)
    requires co in m
    ensures Linked(Toggle(m, co, po), c, p) <==> if c == co && p == po then !Linked(m, co, po) else Linked(m, c, p)
  {
  }

  /** Toggling a cell that holds 0 or 1 twice restores the matrix. */
  lemma ToggleTwice(m: Matrix, co: string, po: string)
    requires co in m && po in m[co] && m[co][po] in {LinkNum(0.0), LinkNum(1.0)}
    ensures Toggle(Toggle(m, co, po), co, po) == m
  {
    var r := Toggle(Toggle(m, co, po), co, po);
    assert r[co] == m[co];
  }

  /**
   * After a toggle of (COk, po) the total of po moves by one: down when the
   * cell was linked and up otherwise.
   */
  lemma ToggleTotal(m: Matrix, k: nat, po: string)
    requires 1 <= k <= 12 && CoKey(k) in m
    ensures |LinkedNumbers(Toggle(m, CoKey(k), po), po, 12)|
      == |LinkedNumbers(m, po, 12)| + (if Linked(m, CoKey(k), po) then -1 else 1)
  {
    var t := Toggle(m, CoKey(k), po);
    forall j: nat | 1 <= j <= 12
      ensures Linked(t, CoKey(j), po) <==> if j == k then !Linked(m, CoKey(k), po) else Linked(m, CoKey(j), po)
    {
      ToggleFlips(m, CoKey(k), po, CoKey(j), po);
      if j != k {
        OutcomeKeysDistinct(12);
      }
    }
    if Linked(m, CoKey(k), po) {
      assert LinkedNumbers(t, po, 12) + {k} == LinkedNumbers(m, po, 12);
    } else {
      assert LinkedNumbers(t, po, 12) == LinkedNumbers(m, po, 12) + {k};
    }
  }

  /** A toggle in the column of po leaves the COs linked to every other PO as they were. */
  lemma ToggleOtherTotals(m: Matrix, k: nat, po: string, other: string)
    requires 1 <= k <= 12 && CoKey(k) in m && other != po
    ensures LinkedNumbers(Toggle(m, CoKey(k), po), other, 12) == LinkedNumbers(m, other, 12)
  {
    forall j: nat | 1 <= j <= 12
      ensures Linked(Toggle(m, CoKey(k), po), CoKey(j), other) <==> Linked(m, CoKey(j), other)
    {
      ToggleFlips(m, CoKey(k), po, CoKey(j), other);
    }
  }
}
