/**
 * Order-independent folds over the entries of a map, used to state what a loop over
 * an unordered hash map (`tsl::robin_map`) computes: the XOR of the entries (an
 * archetype hash) and their sum (a chunk's per-row footprint).
 */
module Folds {
  import opened Types

  /** XOR of all values of `m`, taken in an arbitrary order. */
  ghost function XorValues(m: map<TypeId, TypeHash>): TypeHash
    decreases |m|
  {
    if m == map[] then ZeroHash
    else
      var k: TypeId :| k in m;
      m[k].Xor(XorValues(m - {k}))
  }

  /** Sum of all values of `m`, taken in an arbitrary order. */
  ghost function SumValues(m: map<TypeId, nat>): nat
    decreases |m|
  {
    if m == map[] then 0
    else
      var k: TypeId :| k in m;
      var v: nat := m[k];
      v + SumValues(m - {k})
  }

  /** The XOR fold may start from any entry: it does not depend on the iteration order. */
  lemma {:induction false} XorValuesRemove(m: map<TypeId, TypeHash>, k: TypeId)
    requires k in m
    ensures XorValues(m) == m[k].Xor(XorValues(m - {k}))
    decreases |m|
  {
    var j: TypeId :| j in m && XorValues(m) == m[j].Xor(XorValues(m - {j}));
    if j != k {
      var mj, mk := m - {j}, m - {k};
      assert |mj| == |m| - 1 && |mk| == |m| - 1;
      XorValuesRemove(mj, k);
      XorValuesRemove(mk, j);
      assert mj - {k} == mk - {j};
      var rest := XorValues(mj - {k});
      XorSwap(m[j], m[k], rest);
    }
  }

  lemma XorSwap(a: TypeHash, b: TypeHash, c: TypeHash)
    ensures a.Xor(b.Xor(c)) == b.Xor(a.Xor(c))
  {
    XorAssoc(a, b, c);
    XorComm(a, b);
    XorAssoc(b, a, c);
  }

  /** Adding an entry under a fresh key XORs its value in. */
  lemma XorValuesAdd(m: map<TypeId, TypeHash>, k: TypeId, v: TypeHash)
    requires k !in m
    ensures XorValues(m[k := v]) == v.Xor(XorValues(m))
  {
    XorValuesRemove(m[k := v], k);
    assert m[k := v] - {k} == m;
  }

  /** The sum fold may start from any entry. */
  lemma {:induction false} SumValuesRemove(m: map<TypeId, nat>, k: TypeId)
    requires k in m
    ensures SumValues(m) == m[k] + SumValues(m - {k})
    decreases |m|
  {
    var j: TypeId :| j in m && SumValues(m) == m[j] + SumValues(m - {j});
    if j != k {
      var mj, mk := m - {j}, m - {k};
      assert |mj| == |m| - 1 && |mk| == |m| - 1;
      SumValuesRemove(mj, k);
      SumValuesRemove(mk, j);
      assert mj - {k} == mk - {j};
    }
  }

  /** Adding an entry under a fresh key adds its value. */
  lemma SumValuesAdd(m: map<TypeId, nat>, k: TypeId, v: nat)
    requires k !in m
    ensures SumValues(m[k := v]) == v + SumValues(m)
  {
    SumValuesRemove(m[k := v], k);
    assert m[k := v] - {k} == m;
  }
}
