/** `union_numpy_dict` on the arrays of a heap: its comparison is `_deep_equal`, which cycles can fool. */
module ArrayUnion {
  import opened DataProtos
  import opened DeepEqual
  import opened InPlace
  import opened Unions

  predicate InHeap(h: Heap, m: map<Key, Id>) {
    forall k :: k in m ==> m[k] in h
  }

  /** `_deep_equal(x, y, visited=set())`. */
  function SameIn(h: Heap): (Id, Id) -> bool {
    (x, y) => WellFormed(h) && x in h && y in h && DeepEq(h, x, y, {})
  }

  method UnionArrays(h: Heap, m1: map<Key, Id>, m2: map<Key, Id>) returns (ok: bool, cols: map<Key, Id>)
    requires WellFormed(h) && InHeap(h, m1) && InHeap(h, m2)
    ensures ok <==> forall k :: k in m1 && k in m2 ==> DeepEq(h, m1[k], m2[k], {})
    ensures ok ==> cols == m1 + m2
    ensures PartlyOverlaid(cols, m1, m2)
  {
    ok, cols := UnionNumpyDict(m1, m2, SameIn(h));
  }

  /** After the union every array of the first dictionary still has its structure. */
  ghost predicate Preserved(h: Heap, m1: map<Key, Id>, m2: map<Key, Id>)
    requires WellFormed(h) && InHeap(h, m1) && InHeap(h, m2)
  {
    forall k :: k in m1 ==> SameStructure(h, m1[k], (m1 + m2)[k])
  }

  /** Whatever it is united with, the arrays of `m1` keep their structure. */
  ghost predicate UnionIsSafe(h: Heap, m1: map<Key, Id>)
    requires InHeap(h, m1)
  {
    forall h': Heap, m2: map<Key, Id> ::
      Extends(h, h') && WellFormed(h') && InHeap(h', m2) && AgreeBy(m1, m2, SameIn(h')) ==> Preserved(h', m1, m2)
  }

  lemma SafeWhenAcyclic(h: Heap, m1: map<Key, Id>, h': Heap, m2: map<Key, Id>)
    requires WellFormed(h) && InHeap(h, m1) && forall k :: k in m1 ==> Acyclic(h, m1[k])
    requires Extends(h, h') && WellFormed(h') && InHeap(h', m2) && AgreeBy(m1, m2, SameIn(h'))
    ensures Preserved(h', m1, m2)
  {
    forall k | k in m1 ensures SameStructure(h', m1[k], (m1 + m2)[k]) {
      if k in m2 {
        TrustworthyIffAcyclic(h, m1[k]);
        assert SameIn(h')(m1[k], m2[k]);
      } else {
        SelfStructure(h', m1[k]);
      }
    }
  }

  lemma SelfStructure(h: Heap, a: Id)
    requires WellFormed(h) && a in h
    ensures SameStructure(h, a, a)
  {
    forall n: nat ensures EqualUpTo(h, a, a, n) {
      Reflexive(h, a, n);
    }
  }

  /** A cyclic array can be overwritten by a different one that compares equal. */
  lemma UnsafeWhenCyclic(h: Heap, m1: map<Key, Id>, k: Key) returns (h': Heap, b: Id)
    requires WellFormed(h) && InHeap(h, m1) && k in m1 && !Acyclic(h, m1[k])
    ensures Extends(h, h') && WellFormed(h') && InHeap(h', m1) && InHeap(h', map[k := b])
    ensures AgreeBy(m1, map[k := b], SameIn(h')) && !Preserved(h', m1, map[k := b])
  {
    TrustworthyIffAcyclic(h, m1[k]);
    h', b :| Extends(h, h') && WellFormed(h') && b in h' && DeepEq(h', m1[k], b, {}) && !SameStructure(h', m1[k], b);
    assert (m1 + map[k := b])[k] == b;
  }

  /** `union_numpy_dict` never loses an array to an unequal one exactly when none of its arrays has a cycle. */
  lemma UnionIsSafeIffAcyclic(h: Heap, m1: map<Key, Id>)
    requires WellFormed(h) && InHeap(h, m1)
    ensures UnionIsSafe(h, m1) <==> forall k :: k in m1 ==> Acyclic(h, m1[k])
  {
    if forall k :: k in m1 ==> Acyclic(h, m1[k]) {
      forall h': Heap, m2: map<Key, Id> |
        Extends(h, h') && WellFormed(h') && InHeap(h', m2) && AgreeBy(m1, m2, SameIn(h'))
        ensures Preserved(h', m1, m2)
      {
        SafeWhenAcyclic(h, m1, h', m2);
      }
    } else {
      var k :| k in m1 && !Acyclic(h, m1[k]);
      var h', b := UnsafeWhenCyclic(h, m1, k);
    }
  }
}
