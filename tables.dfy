/**
 * The keyed tables the calculation engines and forms build: one entry per
 * numbered outcome (`for (let k = 1; k <= 12; k++) t[`CO${k}`] = ...`) and
 * one entry per student (`students.forEach(s => t[s.id] = ...)`).
 */
module Tables {
  import opened Assessments

  /** The map key(1) -> f(1), ..., key(n) -> f(n), written in that order. */
  function Numbered<V>(key: nat -> string, f: nat -> V, n: nat): map<string, V>
  {
    if n == 0 then map[] else Numbered(key, f, n - 1)[key(n) := f(n)]
  }

  /** With distinct keys, the table has exactly keys key(1) .. key(n), and key(j) holds f(j). */
  lemma {:induction false} NumberedFacts<V>(key: nat -> string, f: nat -> V, n: nat)
    requires forall a: nat, b: nat :: 1 <= a <= n && 1 <= b <= n && key(a) == key(b) ==> a == b
    ensures Numbered(key, f, n).Keys == set j | 1 <= j <= n :: key(j)
    ensures forall j :: 1 <= j <= n ==> Numbered(key, f, n)[key(j)] == f(j)
  {
    if n > 0 {
      NumberedFacts(key, f, n - 1);
      assert (set j | 1 <= j <= n :: key(j)) == (set j | 1 <= j <= n - 1 :: key(j)) + {key(n)};
    }
  }

  /** Tables built from functions that agree on 1 .. n are equal. */
  lemma {:induction false} NumberedCongruence<V>(key: nat -> string, f: nat -> V, g: nat -> V, n: nat)
    requires forall j: nat :: 1 <= j <= n ==> f(j) == g(j)
    ensures Numbered(key, f, n) == Numbered(key, g, n)
  {
    if n > 0 {
      NumberedCongruence(key, f, g, n - 1);
    }
  }

  /** The outcome keys are distinct, so every numbered table over them has one entry per outcome. */
  lemma OutcomeKeysDistinct(n: nat)
    ensures forall a: nat, b: nat :: 1 <= a <= n && 1 <= b <= n && CoKey(a) == CoKey(b) ==> a == b
    ensures forall a: nat, b: nat :: 1 <= a <= n && 1 <= b <= n && PoKey(a) == PoKey(b) ==> a == b
  {
    forall a: nat, b: nat | CoKey(a) == CoKey(b) ensures a == b { CoKeyInjective(a, b); }
    forall a: nat, b: nat | PoKey(a) == PoKey(b) ensures a == b { PoKeyInjective(a, b); }
  }

  /** A table over CO1..CO12 has exactly those keys, and COk holds f(k). */
  lemma CoTable<V>(f: nat -> V)
    ensures Numbered(CoKey, f, 12).Keys == CoKeys()
    ensures forall j :: 1 <= j <= 12 ==> Numbered(CoKey, f, 12)[CoKey(j)] == f(j)
  {
    forall a: nat, b: nat | CoKey(a) == CoKey(b) ensures a == b { CoKeyInjective(a, b); }
    NumberedFacts(CoKey, f, 12);
  }

  /** A table over CO1..COn has exactly those keys, and COk holds f(k). */
  lemma CoPrefixTable<V>(f: nat -> V, n: nat)
    ensures Numbered(CoKey, f, n).Keys == set j | 1 <= j <= n :: CoKey(j)
    ensures forall j :: 1 <= j <= n ==> Numbered(CoKey, f, n)[CoKey(j)] == f(j)
  {
    forall a: nat, b: nat | CoKey(a) == CoKey(b) ensures a == b { CoKeyInjective(a, b); }
    NumberedFacts(CoKey, f, n);
  }

  /** A table over PO1..PO12 has exactly those keys, and POk holds f(k). */
  lemma PoTable<V>(f: nat -> V)
    ensures Numbered(PoKey, f, 12).Keys == PoKeys()
    ensures forall j :: 1 <= j <= 12 ==> Numbered(PoKey, f, 12)[PoKey(j)] == f(j)
  {
    forall a: nat, b: nat | PoKey(a) == PoKey(b) ensures a == b { PoKeyInjective(a, b); }
    NumberedFacts(PoKey, f, 12);
  }

  /** Adding student i to the students before it adds exactly that student's id. */
  lemma IdsNext(students: seq<Student>, i: nat)
    requires i < |students|
    ensures Ids(students[..i + 1]) == Ids(students[..i]) + {students[i].id}
  {
    assert forall j :: 0 <= j < i ==> students[..i + 1][j] == students[..i][j];
  }

  /** Maps with the same keys and the same value at every key are equal. */
  lemma SameMap<V>(a: map<string, V>, b: map<string, V>)
    requires a.Keys == b.Keys
    requires forall k :: k in a ==> a[k] == b[k]
    ensures a == b
  {
  }
}
