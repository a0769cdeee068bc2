/** `_deep_equal` and `_array_equal` on a graph of Python objects that may be cyclic. */
module DeepEqual {
  import opened Tensors

  /** An object is named by its `id`. */
  type Id = nat

  /** A number of a float or of a numeric array; every number but NaN is opaque. */
  datatype Num = NaN | Number(bits: int)

  datatype Obj =
    | Float(pyType: nat, num: Num)
    | Other(pyType: nat, payload: int)
    | Numeric(dtype: nat, shape: seq<nat>, data: seq<Num>)
    | Objects(shape: seq<nat>, elems: seq<Id>)

  type Heap = map<Id, Obj>

  /** The number of elements of an array of this shape. */
  function Size(shape: seq<nat>): nat {
    if shape == [] then 1 else Times(shape[0], Size(shape[1..]))
  }

  /** The sizes of two lists of dimensions multiply, and a single dimension is its own size. */
  lemma {:induction false} SizeConcat(a: seq<nat>, b: seq<nat>)
    ensures Size(a + b) == Times(Size(a), Size(b))
    ensures |a| == 1 ==> Size(a) == a[0]
  {
    if a == [] {
      assert a + b == b;
      assert Times(1, Size(b)) == Size(b) + Times(0, Size(b));
    } else {
      assert (a + b)[0] == a[0] && (a + b)[1..] == a[1..] + b;
      SizeConcat(a[1..], b);
      TimesTimes(a[0], Size(a[1..]), Size(b));
      TimesIsProduct(a[0], 1);
    }
  }

  /** The objects an object refers to. */
  function Elems(o: Obj): seq<Id> {
    if o.Objects? then o.elems else []
  }

  predicate Closed(h: Heap, ids: seq<Id>) {
    forall i :: 0 <= i < |ids| ==> ids[i] in h
  }

  predicate WellFormed(h: Heap) {
    forall x :: x in h ==> Closed(h, Elems(h[x])) && (h[x].Objects? ==> |h[x].elems| == Size(h[x].shape))
  }

  // ----- the comparison of two objects without their elements

  predicate IsArray(o: Obj) {
    o.Numeric? || o.Objects?
  }

  /** `type(a) is type(b)`. */
  predicate SameType(x: Obj, y: Obj) {
    if IsArray(x) then IsArray(y)
    else if x.Float? then y.Float? && x.pyType == y.pyType
    else y.Other? && x.pyType == y.pyType
  }

  /** Equality of everything but the elements of object arrays, NaN being equal to NaN. */
  predicate LocallyEqual(x: Obj, y: Obj) {
    match x
    case Float(_, n) => SameType(x, y) && n == y.num
    case Other(_, p) => SameType(x, y) && p == y.payload
    case Numeric(dtype, shape, data) => y.Numeric? && dtype == y.dtype && shape == y.shape && data == y.data
    case Objects(shape, elems) => y.Objects? && shape == y.shape && |elems| == |y.elems|
  }

  /** Structural equality down to `n` levels. */
  ghost predicate EqualUpTo(h: Heap, a: Id, b: Id, n: nat)
    requires WellFormed(h) && a in h && b in h
    decreases n, 0
  {
    n == 0 || (LocallyEqual(h[a], h[b]) && AllEqualUpTo(h, Elems(h[a]), Elems(h[b]), n - 1))
  }

  ghost predicate AllEqualUpTo(h: Heap, xs: seq<Id>, ys: seq<Id>, n: nat)
    requires WellFormed(h) && |xs| == |ys| && Closed(h, xs) && Closed(h, ys)
    decreases n, |xs| + 1
  {
    xs == [] || (EqualUpTo(h, xs[0], ys[0], n) && AllEqualUpTo(h, xs[1..], ys[1..], n))
  }

  /** Structural equality: no finite descent tells the two apart. */
  ghost predicate SameStructure(h: Heap, a: Id, b: Id)
    requires WellFormed(h) && a in h && b in h
  {
    forall n: nat :: EqualUpTo(h, a, b, n)
  }

  // ----- `_deep_equal` as a function of `visited`

  lemma Shrinks(h: Heap, visited: set<Id>, a: Id)
    requires a in h && a !in visited
    ensures |h.Keys - (visited + {a})| < |h.Keys - visited|
  {
    assert h.Keys - visited == (h.Keys - (visited + {a})) + {a};
  }

  function DeepEq(h: Heap, a: Id, b: Id, visited: set<Id>): bool
    requires WellFormed(h) && a in h && b in h
    decreases |h.Keys - visited|, 0
  {
    if !SameType(h[a], h[b]) then false
    else if a in visited then true
    else if !LocallyEqual(h[a], h[b]) then false
    else
      Shrinks(h, visited, a);
      AllDeepEq(h, Elems(h[a]), Elems(h[b]), visited + {a})
  }

  function AllDeepEq(h: Heap, xs: seq<Id>, ys: seq<Id>, visited: set<Id>): bool
    requires WellFormed(h) && |xs| == |ys| && Closed(h, xs) && Closed(h, ys)
    decreases |h.Keys - visited|, |xs|
  {
    xs == [] || (DeepEq(h, xs[0], ys[0], visited) && AllDeepEq(h, xs[1..], ys[1..], visited))
  }

  // ----- what it decides, case by case

  /** Numbers, other objects and numeric arrays are accepted exactly when they are equal, NaN being equal to NaN. */
  lemma LeafEq(h: Heap, a: Id, b: Id, visited: set<Id>)
    requires WellFormed(h) && a in h && b in h && !h[a].Objects? && a !in visited
    ensures DeepEq(h, a, b, visited) <==> h[b] == h[a]
  {
  }

  /** An object that is being compared already is accepted against everything of its type. */
  lemma VisitedEq(h: Heap, a: Id, b: Id, visited: set<Id>)
    requires WellFormed(h) && a in h && b in h && a in visited
    ensures DeepEq(h, a, b, visited) <==>
      || ((h[a].Numeric? || h[a].Objects?) && (h[b].Numeric? || h[b].Objects?))
      || (h[a].Float? && h[b].Float? && h[a].pyType == h[b].pyType)
      || (h[a].Other? && h[b].Other? && h[a].pyType == h[b].pyType)
  {
  }

  lemma {:induction false} AllDeepEqIff(h: Heap, xs: seq<Id>, ys: seq<Id>, visited: set<Id>)
    requires WellFormed(h) && |xs| == |ys| && Closed(h, xs) && Closed(h, ys)
    ensures AllDeepEq(h, xs, ys, visited) <==> forall i :: 0 <= i < |xs| ==> DeepEq(h, xs[i], ys[i], visited)
    decreases |xs|
  {
    if xs != [] {
      AllDeepEqIff(h, xs[1..], ys[1..], visited);
      if forall i :: 0 <= i < |xs| ==> DeepEq(h, xs[i], ys[i], visited) {
        assert forall i :: 0 <= i < |xs[1..]| ==> xs[1..][i] == xs[i + 1] && ys[1..][i] == ys[i + 1];
      }
    }
  }

  /** An array of objects is accepted exactly against one of its shape whose elements are accepted one by one. */
  lemma ArrayEq(h: Heap, a: Id, b: Id, visited: set<Id>)
    requires WellFormed(h) && a in h && b in h && h[a].Objects? && a !in visited
    ensures DeepEq(h, a, b, visited) <==>
      && h[b].Objects? && h[b].shape == h[a].shape && |h[b].elems| == |h[a].elems|
      && forall i :: 0 <= i < |h[a].elems| ==> DeepEq(h, h[a].elems[i], h[b].elems[i], visited + {a})
  {
    if h[b].Objects? && |h[b].elems| == |h[a].elems| {
      AllDeepEqIff(h, h[a].elems, h[b].elems, visited + {a});
    }
  }

  // ----- the code, with its mutable set

  class Visited {
    var ids: set<Id>

    constructor ()
      ensures ids == {}
    {
      ids := {};
    }
  }

  /** `_deep_equal`: terminates on every graph and leaves `visited` as it found it. */
  method DeepEqualObjects(h: Heap, a: Id, b: Id, visited: Visited) returns (r: bool)
    requires WellFormed(h) && a in h && b in h
    modifies visited
    ensures r == DeepEq(h, a, b, old(visited.ids))
    ensures visited.ids == old(visited.ids)
    decreases |h.Keys - visited.ids|, 0
  {
    if !SameType(h[a], h[b]) {
      return false;
    }
    if a in visited.ids {
      return true;
    }
    Shrinks(h, visited.ids, a);
    visited.ids := visited.ids + {a};
    if h[a].Float? && h[a].num == NaN && h[b].num == NaN {
      r := true;
    } else if IsArray(h[a]) {
      r := ArrayEqual(h, a, b, visited);
    } else if h[a].Float? {
      r := h[a].num == h[b].num && h[a].num != NaN;
    } else {
      r := h[a].payload == h[b].payload;
    }
    visited.ids := visited.ids - {a};
  }

  /** `_array_equal`, with the early exit of `all`. */
  method ArrayEqual(h: Heap, a: Id, b: Id, visited: Visited) returns (r: bool)
    requires WellFormed(h) && a in h && b in h && IsArray(h[a]) && IsArray(h[b])
    modifies visited
    ensures h[a].Numeric? ==> r == (h[a] == h[b])
    ensures h[a].Objects? ==> r == (h[b].Objects? && h[a].shape == h[b].shape
                                    && AllDeepEq(h, h[a].elems, h[b].elems, old(visited.ids)))
    ensures visited.ids == old(visited.ids)
    decreases |h.Keys - visited.ids|, |Elems(h[a])| + 2
  {
    var x, y := h[a], h[b];
    if x.Numeric? != y.Numeric? || (x.Numeric? && x.dtype != y.dtype) || x.shape != y.shape {
      return false;
    }
    if x.Numeric? {
      return x.data == y.data;
    }
    r := AllEqual(h, x.elems, y.elems, visited);
  }

  /** `all(_deep_equal(x, y, visited) for x, y in zip(...))`, with its early exit. */
  method AllEqual(h: Heap, xs: seq<Id>, ys: seq<Id>, visited: Visited) returns (r: bool)
    requires WellFormed(h) && |xs| == |ys| && Closed(h, xs) && Closed(h, ys)
    modifies visited
    ensures r == AllDeepEq(h, xs, ys, old(visited.ids))
    ensures visited.ids == old(visited.ids)
    decreases |h.Keys - visited.ids|, |xs| + 1
  {
    for i := 0 to |xs|
      invariant visited.ids == old(visited.ids)
      invariant AllDeepEq(h, xs, ys, visited.ids) == AllDeepEq(h, xs[i..], ys[i..], visited.ids)
    {
      r := DeepEqualObjects(h, xs[i], ys[i], visited);
      assert xs[i..][1..] == xs[i + 1..] && ys[i..][1..] == ys[i + 1..];
      if !r {
        return false;
      }
    }
    r := true;
  }

  // ----- it never rejects equal structures

  /** Agreement down to one level more than the unvisited objects is enough to be accepted. */
  lemma {:induction false} AcceptsEqual(h: Heap, a: Id, b: Id, visited: set<Id>, n: nat)
    requires WellFormed(h) && a in h && b in h
    requires n > |h.Keys - visited| && EqualUpTo(h, a, b, n)
    ensures DeepEq(h, a, b, visited)
    decreases n, 0
  {
    if a !in visited {
      Shrinks(h, visited, a);
      AllAcceptsEqual(h, Elems(h[a]), Elems(h[b]), visited + {a}, n - 1);
    }
  }

  lemma {:induction false} AllAcceptsEqual(h: Heap, xs: seq<Id>, ys: seq<Id>, visited: set<Id>, n: nat)
    requires WellFormed(h) && |xs| == |ys| && Closed(h, xs) && Closed(h, ys)
    requires n > |h.Keys - visited| && AllEqualUpTo(h, xs, ys, n)
    ensures AllDeepEq(h, xs, ys, visited)
    decreases n, |xs| + 1
  {
    if xs != [] {
      AcceptsEqual(h, xs[0], ys[0], visited, n);
      AllAcceptsEqual(h, xs[1..], ys[1..], visited, n);
    }
  }

  /** Structurally equal values are always accepted, cyclic or not. */
  lemma NeverRejectsEqual(h: Heap, a: Id, b: Id, visited: set<Id>)
    requires WellFormed(h) && a in h && b in h && SameStructure(h, a, b)
    ensures DeepEq(h, a, b, visited)
  {
    AcceptsEqual(h, a, b, visited, |h.Keys - visited| + 1);
  }

  // ----- what structural equality is

  /** Related objects are equal, or arrays of objects of one shape with related elements. */
  ghost predicate Matched(h: Heap, related: set<(Id, Id)>, a: Id, b: Id)
    requires a in h && b in h
  {
    if h[a].Objects? then
      && h[b].Objects? && h[b].shape == h[a].shape && |h[b].elems| == |h[a].elems|
      && forall i :: 0 <= i < |h[a].elems| ==> (h[a].elems[i], h[b].elems[i]) in related
    else h[b] == h[a]
  }

  ghost predicate Bisimulation(h: Heap, related: set<(Id, Id)>) {
    forall a, b :: (a, b) in related ==> a in h && b in h && Matched(h, related, a, b)
  }

  lemma {:induction false} BisimilarUpTo(h: Heap, related: set<(Id, Id)>, a: Id, b: Id, n: nat)
    requires WellFormed(h) && Bisimulation(h, related) && (a, b) in related
    ensures a in h && b in h && EqualUpTo(h, a, b, n)
    decreases n, 0
  {
    assert a in h && b in h && Matched(h, related, a, b);
    if n > 0 {
      AllBisimilarUpTo(h, related, Elems(h[a]), Elems(h[b]), n - 1);
    }
  }

  lemma {:induction false} AllBisimilarUpTo(h: Heap, related: set<(Id, Id)>, xs: seq<Id>, ys: seq<Id>, n: nat)
    requires WellFormed(h) && Bisimulation(h, related) && |xs| == |ys| && Closed(h, xs) && Closed(h, ys)
    requires forall i :: 0 <= i < |xs| ==> (xs[i], ys[i]) in related
    ensures AllEqualUpTo(h, xs, ys, n)
    decreases n, |xs| + 1
  {
    if xs != [] {
      BisimilarUpTo(h, related, xs[0], ys[0], n);
      AllBisimilarUpTo(h, related, xs[1..], ys[1..], n);
    }
  }

  ghost function SamePairs(h: Heap): (related: set<(Id, Id)>)
    requires WellFormed(h)
    ensures forall a, b :: (a, b) in related <==> a in h && b in h && SameStructure(h, a, b)
  {
    set a, b | a in h && b in h && SameStructure(h, a, b) :: (a, b)
  }

  lemma SamePairsMatch(h: Heap, a: Id, b: Id)
    requires WellFormed(h) && (a, b) in SamePairs(h)
    ensures a in h && b in h && Matched(h, SamePairs(h), a, b)
  {
    assert EqualUpTo(h, a, b, 1);
    forall i | 0 <= i < |Elems(h[a])|
      ensures |Elems(h[b])| == |Elems(h[a])| && (Elems(h[a])[i], Elems(h[b])[i]) in SamePairs(h)
    {
      forall n: nat ensures EqualUpTo(h, Elems(h[a])[i], Elems(h[b])[i], n) {
        assert EqualUpTo(h, a, b, n + 1);
        RowAgrees(h, Elems(h[a]), Elems(h[b]), i, n);
      }
    }
  }

  /** Two objects have the same structure exactly when some relation matches them and everything it relates. */
  lemma SameStructureIffBisimilar(h: Heap, a: Id, b: Id)
    requires WellFormed(h) && a in h && b in h
    ensures SameStructure(h, a, b) <==> exists related :: Bisimulation(h, related) && (a, b) in related
  {
    if SameStructure(h, a, b) {
      forall x, y | (x, y) in SamePairs(h) ensures x in h && y in h && Matched(h, SamePairs(h), x, y) {
        SamePairsMatch(h, x, y);
      }
      assert Bisimulation(h, SamePairs(h)) && (a, b) in SamePairs(h);
    }
    if related :| Bisimulation(h, related) && (a, b) in related {
      forall n: nat ensures EqualUpTo(h, a, b, n) {
        BisimilarUpTo(h, related, a, b, n);
      }
    }
  }

  // ----- acyclic graphs

  predicate Edge(h: Heap, x: Id, y: Id) {
    x in h && y in Elems(h[x])
  }

  ghost predicate IsPath(h: Heap, p: seq<Id>) {
    |p| > 0 && p[0] in h && forall i :: 0 < i < |p| ==> Edge(h, p[i - 1], p[i])
  }

  predicate Simple(p: seq<Id>) {
    forall i, j :: 0 <= i < j < |p| ==> p[i] != p[j]
  }

  /** No path from `a` comes back to an object it has passed. */
  ghost predicate Acyclic(h: Heap, a: Id) {
    forall p: seq<Id> :: IsPath(h, p) && p[0] == a ==> Simple(p)
  }

  function Passed(p: seq<Id>): set<Id> {
    set x | x in p
  }

  /** Some path from `root` to `a` passes exactly the objects of `visited` before `a`. */
  ghost predicate OnPath(h: Heap, root: Id, a: Id, visited: set<Id>) {
    exists p: seq<Id> :: IsPath(h, p) && p[0] == root && p[|p| - 1] == a && visited == Passed(p[..|p| - 1])
  }

  lemma Descend(h: Heap, root: Id, a: Id, visited: set<Id>, y: Id)
    requires OnPath(h, root, a, visited) && Edge(h, a, y)
    ensures OnPath(h, root, y, visited + {a})
  {
    var p :| IsPath(h, p) && p[0] == root && p[|p| - 1] == a && visited == Passed(p[..|p| - 1]);
    var q := p + [y];
    assert q[..|q| - 1] == p;
    assert Passed(p) == visited + {a};
    assert IsPath(h, q);
  }

  lemma NotYetVisited(h: Heap, root: Id, a: Id, visited: set<Id>)
    requires Acyclic(h, root) && OnPath(h, root, a, visited)
    ensures a !in visited
  {
    var p :| IsPath(h, p) && p[0] == root && p[|p| - 1] == a && visited == Passed(p[..|p| - 1]);
    assert Simple(p);
  }

  /** Down to `n` levels below `a`, no descent meets `visited` or itself. */
  ghost predicate Clear(h: Heap, a: Id, visited: set<Id>, n: nat)
    requires WellFormed(h) && a in h
    decreases n, 0
  {
    n == 0 || (a !in visited && AllClear(h, Elems(h[a]), visited + {a}, n - 1))
  }

  ghost predicate AllClear(h: Heap, xs: seq<Id>, visited: set<Id>, n: nat)
    requires WellFormed(h) && Closed(h, xs)
    decreases n, |xs| + 1
  {
    xs == [] || (Clear(h, xs[0], visited, n) && AllClear(h, xs[1..], visited, n))
  }

  lemma {:induction false} AcyclicIsClear(h: Heap, root: Id, a: Id, visited: set<Id>, n: nat)
    requires WellFormed(h) && a in h && Acyclic(h, root) && OnPath(h, root, a, visited)
    ensures Clear(h, a, visited, n)
    decreases n, 0
  {
    if n > 0 {
      NotYetVisited(h, root, a, visited);
      AcyclicIsAllClear(h, root, a, visited, Elems(h[a]), n - 1);
    }
  }

  lemma {:induction false} AcyclicIsAllClear(h: Heap, root: Id, a: Id, visited: set<Id>, xs: seq<Id>, n: nat)
    requires WellFormed(h) && Closed(h, xs) && forall x :: x in xs ==> Edge(h, a, x)
    requires Acyclic(h, root) && OnPath(h, root, a, visited)
    ensures AllClear(h, xs, visited + {a}, n)
    decreases n, |xs| + 1
  {
    if xs != [] {
      Descend(h, root, a, visited, xs[0]);
      AcyclicIsClear(h, root, xs[0], visited + {a}, n);
      AcyclicIsAllClear(h, root, a, visited, xs[1..], n);
    }
  }

  /** Where nothing is found in `visited`, acceptance means equality. */
  lemma {:induction false} AcceptsOnlyEqual(h: Heap, a: Id, b: Id, visited: set<Id>, n: nat)
    requires WellFormed(h) && a in h && b in h
    requires Clear(h, a, visited, n) && DeepEq(h, a, b, visited)
    ensures EqualUpTo(h, a, b, n)
    decreases n, 0
  {
    if n > 0 {
      assert LocallyEqual(h[a], h[b]);
      AllAcceptsOnlyEqual(h, Elems(h[a]), Elems(h[b]), visited + {a}, n - 1);
    }
  }

  lemma {:induction false} AllAcceptsOnlyEqual(h: Heap, xs: seq<Id>, ys: seq<Id>, visited: set<Id>, n: nat)
    requires WellFormed(h) && |xs| == |ys| && Closed(h, xs) && Closed(h, ys)
    requires AllClear(h, xs, visited, n) && AllDeepEq(h, xs, ys, visited)
    ensures AllEqualUpTo(h, xs, ys, n)
    decreases n, |xs| + 1
  {
    if xs != [] {
      AcceptsOnlyEqual(h, xs[0], ys[0], visited, n);
      AllAcceptsOnlyEqual(h, xs[1..], ys[1..], visited, n);
    }
  }

  /** On an acyclic left value acceptance is exactly structural equality. */
  lemma ExactOnAcyclic(h: Heap, a: Id, b: Id)
    requires WellFormed(h) && a in h && b in h && Acyclic(h, a)
    ensures DeepEq(h, a, b, {}) <==> SameStructure(h, a, b)
  {
    if DeepEq(h, a, b, {}) {
      forall n: nat
        ensures EqualUpTo(h, a, b, n)
      {
        assert IsPath(h, [a]) && Passed([a][..0]) == {};
        AcyclicIsClear(h, a, a, {}, n);
        AcceptsOnlyEqual(h, a, b, {}, n);
      }
    } else if SameStructure(h, a, b) {
      NeverRejectsEqual(h, a, b, {});
    }
  }

  // ----- cyclic graphs

  /** A self-containing array is accepted against an array that merely holds some other array. */
  lemma AcceptsUnequalCycle()
    ensures var h: Heap := map[0 := Objects([1], [0]), 1 := Objects([1], [2]), 2 := Numeric(0, [0], [])];
      WellFormed(h) && DeepEq(h, 0, 1, {}) && !EqualUpTo(h, 0, 1, 2)
  {
    var h: Heap := map[0 := Objects([1], [0]), 1 := Objects([1], [2]), 2 := Numeric(0, [0], [])];
    assert Size([1]) == Times(1, Size([]));
    assert DeepEq(h, 0, 2, {0});
    assert AllDeepEq(h, [0], [2], {0});
    assert !EqualUpTo(h, 0, 2, 1);
  }

  lemma {:induction false} Reflexive(h: Heap, a: Id, n: nat)
    requires WellFormed(h) && a in h
    ensures EqualUpTo(h, a, a, n)
    decreases n, 0
  {
    if n > 0 {
      AllReflexive(h, Elems(h[a]), n - 1);
    }
  }

  lemma {:induction false} AllReflexive(h: Heap, xs: seq<Id>, n: nat)
    requires WellFormed(h) && Closed(h, xs)
    ensures AllEqualUpTo(h, xs, xs, n)
    decreases n, |xs| + 1
  {
    if xs != [] {
      Reflexive(h, xs[0], n);
      AllReflexive(h, xs[1..], n);
    }
  }

  /** Every object is accepted against itself. */
  lemma AcceptsItself(h: Heap, a: Id, visited: set<Id>)
    requires WellFormed(h) && a in h
    ensures DeepEq(h, a, a, visited)
  {
    Reflexive(h, a, |h.Keys - visited| + 1);
    AcceptsEqual(h, a, a, visited, |h.Keys - visited| + 1);
  }

  /** Replacing one element by an accepted one keeps a row of elements accepted. */
  lemma {:induction false} AcceptsReplaced(h: Heap, xs: seq<Id>, m: nat, y: Id, visited: set<Id>)
    requires WellFormed(h) && Closed(h, xs) && m < |xs| && y in h
    requires DeepEq(h, xs[m], y, visited)
    ensures AllDeepEq(h, xs, xs[m := y], visited)
  {
    if m == 0 {
      assert xs[m := y][1..] == xs[1..];
      AcceptsRow(h, xs[1..], visited);
    } else {
      AcceptsItself(h, xs[0], visited);
      assert xs[m := y][1..] == xs[1..][m - 1 := y];
      AcceptsReplaced(h, xs[1..], m - 1, y, visited);
    }
  }

  lemma {:induction false} AcceptsRow(h: Heap, xs: seq<Id>, visited: set<Id>)
    requires WellFormed(h) && Closed(h, xs)
    ensures AllDeepEq(h, xs, xs, visited)
    decreases |xs|
  {
    if xs != [] {
      AcceptsItself(h, xs[0], visited);
      AcceptsRow(h, xs[1..], visited);
    }
  }

  lemma {:induction false} RowAgrees(h: Heap, xs: seq<Id>, ys: seq<Id>, m: nat, n: nat)
    requires WellFormed(h) && |xs| == |ys| && Closed(h, xs) && Closed(h, ys) && m < |xs|
    requires AllEqualUpTo(h, xs, ys, n)
    ensures EqualUpTo(h, xs[m], ys[m], n)
    decreases |xs|
  {
    if m > 0 {
      RowAgrees(h, xs[1..], ys[1..], m - 1, n);
    }
  }

  /** A path that comes back has a prefix that passes no object twice and then comes back. */
  lemma {:induction false} FindLasso(h: Heap, p: seq<Id>) returns (q: seq<Id>)
    requires IsPath(h, p) && !Simple(p)
    ensures IsLasso(h, q) && q[0] == p[0]
  {
    var n := |p| - 1;
    if Simple(p[..n]) {
      q := p;
      var i, j :| 0 <= i < j < |p| && p[i] == p[j];
      assert j == n;
      assert p[..n][i] == p[n];
    } else {
      q := FindLasso(h, p[..n]);
    }
  }

  ghost function Above(ids: set<Id>): (base: Id)
    ensures forall x :: x in ids ==> x < base
  {
    if ids == {} then 0
    else
      var x :| x in ids;
      var rest := Above(ids - {x});
      assert forall y :: y in ids ==> y == x || y in ids - {x};
      if x < rest then rest else x + 1
  }

  function IndexOf(xs: seq<Id>, x: Id): (i: nat)
    requires x in xs
    ensures i < |xs| && xs[i] == x
  {
    if xs[0] == x then 0 else 1 + IndexOf(xs[1..], x)
  }

  /** The lasso `q` with its objects copied to `base`, `base + 1`, ... and its way back cut off: the last
      copy refers to an empty array instead. */
  ghost function Copy(h: Heap, q: seq<Id>, base: Id, i: nat): Obj
    requires IsPath(h, q) && i < |q|
  {
    if i == |q| - 1 then Objects([0], [])
    else
      assert Edge(h, q[i], q[i + 1]);
      var o := h[q[i]];
      Objects(o.shape, o.elems[IndexOf(o.elems, q[i + 1]) := base + i + 1])
  }

  function Ids(base: Id, n: nat): (ids: set<Id>)
    ensures forall x :: x in ids <==> base <= x < base + n
  {
    if n == 0 then {} else Ids(base, n - 1) + {base + n - 1}
  }

  ghost function Decoy(h: Heap, q: seq<Id>, base: Id): Heap
    requires IsPath(h, q)
  {
    h + map x | x in Ids(base, |q|) :: Copy(h, q, base, x - base)
  }

  ghost predicate IsLasso(h: Heap, q: seq<Id>) {
    IsPath(h, q) && |q| > 1 && Simple(q[..|q| - 1]) && q[|q| - 1] in q[..|q| - 1]
  }

  ghost predicate Extends(h: Heap, h': Heap) {
    forall x :: x in h ==> x in h' && h'[x] == h[x]
  }

  ghost predicate IsDecoy(h: Heap, q: seq<Id>, base: Id, h': Heap)
    requires IsPath(h, q)
  {
    Extends(h, h') && forall i: nat :: i < |q| ==> HasCopy(h, q, base, i, h')
  }

  ghost predicate HasCopy(h: Heap, q: seq<Id>, base: Id, i: nat, h': Heap)
    requires IsPath(h, q) && i < |q|
  {
    base + i in h' && h'[base + i] == Copy(h, q, base, i)
  }

  lemma DecoyIsDecoy(h: Heap, q: seq<Id>, base: Id)
    requires IsPath(h, q) && forall x :: x in h ==> x < base
    ensures IsDecoy(h, q, base, Decoy(h, q, base))
    ensures forall x :: x in Decoy(h, q, base) ==> x in h || base <= x < base + |q|
  {
  }

  /** The elements of a copy and their number. */
  lemma CopyIsWellFormed(h: Heap, q: seq<Id>, base: Id, i: nat, h': Heap)
    requires WellFormed(h) && IsPath(h, q) && i < |q| && IsDecoy(h, q, base, h')
    ensures var o := Copy(h, q, base, i); o.Objects? && Closed(h', o.elems) && |o.elems| == Size(o.shape)
  {
    if i < |q| - 1 {
      assert Edge(h, q[i], q[i + 1]);
      assert HasCopy(h, q, base, i + 1, h');
      assert Closed(h, h[q[i]].elems);
    } else {
      assert Size([0]) == 0;
    }
  }

  lemma DecoyIsWellFormed(h: Heap, q: seq<Id>, base: Id)
    requires WellFormed(h) && IsPath(h, q) && forall x :: x in h ==> x < base
    ensures WellFormed(Decoy(h, q, base)) && IsDecoy(h, q, base, Decoy(h, q, base))
  {
    var h' := Decoy(h, q, base);
    DecoyIsDecoy(h, q, base);
    forall x | x in h'
      ensures Closed(h', Elems(h'[x])) && (h'[x].Objects? ==> |h'[x].elems| == Size(h'[x].shape))
    {
      if x in h {
        assert Closed(h, Elems(h[x]));
      } else {
        assert HasCopy(h, q, base, x - base, h');
        CopyIsWellFormed(h, q, base, x - base, h');
      }
    }
  }

  /** What a lasso has passed. */
  lemma LassoPassed(h: Heap, q: seq<Id>, i: nat)
    requires IsLasso(h, q) && i < |q|
    ensures i < |q| - 1 ==> q[i] !in Passed(q[..i]) && Passed(q[..i + 1]) == Passed(q[..i]) + {q[i]}
    ensures i == |q| - 1 ==> q[i] in Passed(q[..i])
  {
    if i < |q| - 1 {
      assert q[..i + 1] == q[..i] + [q[i]];
      var front := q[..|q| - 1];
      assert forall k :: 0 <= k < i ==> front[k] != front[i];
    }
  }

  lemma CopyAccepted(h: Heap, a: Id, c: Id, m: nat, y: Id, visited: set<Id>)
    requires WellFormed(h) && a in h && c in h && y in h && h[a].Objects? && m < |h[a].elems|
    requires h[c] == Objects(h[a].shape, h[a].elems[m := y]) && a !in visited
    requires DeepEq(h, h[a].elems[m], y, visited + {a})
    ensures DeepEq(h, a, c, visited)
  {
    AcceptsReplaced(h, h[a].elems, m, y, visited + {a});
  }

  lemma BackAccepted(h: Heap, a: Id, c: Id, visited: set<Id>)
    requires WellFormed(h) && a in h && c in h && h[a].Objects? && h[c].Objects? && a in visited
    ensures DeepEq(h, a, c, visited)
  {
  }

  /** Every object of a lasso is an array with at least one element. */
  lemma LassoIsArrays(h: Heap, q: seq<Id>, i: nat)
    requires WellFormed(h) && IsLasso(h, q) && i < |q|
    ensures q[i] in h && h[q[i]].Objects? && h[q[i]].elems != []
  {
    var k := if i == |q| - 1 then IndexOf(q[..i], q[i]) else i;
    assert q[k] == q[i] && k < |q| - 1;
    assert Edge(h, q[k], q[k + 1]);
  }

  /** What the proofs need of the copy at `i`: it differs from the original only in the element that goes
      on along the lasso. */
  ghost predicate Linked(h: Heap, q: seq<Id>, base: Id, i: nat)
    requires i + 1 < |q|
  {
    && q[i] in h && base + i in h && q[i + 1] in h && base + (i + 1) in h
    && q[i] !in Passed(q[..i]) && Passed(q[..i + 1]) == Passed(q[..i]) + {q[i]}
    && h[q[i]].Objects?
    && exists m :: 0 <= m < |h[q[i]].elems| && h[q[i]].elems[m] == q[i + 1]
                   && h[base + i] == Objects(h[q[i]].shape, h[q[i]].elems[m := base + (i + 1)])
  }

  /** The lasso and its copy in one graph. */
  ghost predicate Unrolled(h: Heap, q: seq<Id>, base: Id) {
    && |q| > 1
    && (forall i: nat :: i + 1 < |q| ==> Linked(h, q, base, i))
    && var n := |q| - 1;
       && q[n] in h && base + n in h && q[n] in Passed(q[..n])
       && h[q[n]].Objects? && h[q[n]].elems != [] && h[base + n] == Objects([0], [])
  }

  lemma DecoyIsUnrolled(h: Heap, q: seq<Id>, base: Id, h': Heap)
    requires WellFormed(h) && IsLasso(h, q) && IsDecoy(h, q, base, h')
    ensures Unrolled(h', q, base)
  {
    forall i: nat | i + 1 < |q|
      ensures Linked(h', q, base, i)
    {
      assert HasCopy(h, q, base, i, h') && HasCopy(h, q, base, i + 1, h');
      LassoPassed(h, q, i);
      LassoIsArrays(h, q, i);
      LassoIsArrays(h, q, i + 1);
      assert Edge(h, q[i], q[i + 1]);
      var m := IndexOf(h[q[i]].elems, q[i + 1]);
      assert h'[base + i] == Objects(h'[q[i]].shape, h'[q[i]].elems[m := base + (i + 1)]);
    }
    assert HasCopy(h, q, base, |q| - 1, h');
    LassoPassed(h, q, |q| - 1);
    LassoIsArrays(h, q, |q| - 1);
  }

  /** Where the lasso goes on, in the original and in the copy. */
  lemma NextElement(h: Heap, q: seq<Id>, base: Id, i: nat, a: Id, c: Id) returns (m: nat, x: Id, y: Id)
    requires Unrolled(h, q, base) && i + 1 < |q| && a == q[i] && c == base + i
    ensures x == q[i + 1] && y == base + (i + 1) && a in h && c in h && x in h && y in h
    ensures h[a].Objects? && m < |h[a].elems| && h[a].elems[m] == x
    ensures h[c] == Objects(h[a].shape, h[a].elems[m := y])
    ensures a !in Passed(q[..i]) && Passed(q[..i + 1]) == Passed(q[..i]) + {a}
  {
    assert Linked(h, q, base, i);
    x, y := q[i + 1], base + (i + 1);
    m :| 0 <= m < |h[a].elems| && h[a].elems[m] == x && h[c] == Objects(h[a].shape, h[a].elems[m := y]);
  }

  /** The copy of the lasso is accepted against the lasso. */
  lemma {:induction false} CopyIsAccepted(h: Heap, q: seq<Id>, base: Id, i: nat, a: Id, c: Id, visited: set<Id>)
    requires WellFormed(h) && Unrolled(h, q, base) && i < |q|
    requires a == q[i] && c == base + i && visited == Passed(q[..i])
    ensures a in h && c in h && DeepEq(h, a, c, visited)
    decreases |q| - i
  {
    if i + 1 < |q| {
      var m, x, y := NextElement(h, q, base, i, a, c);
      CopyIsAccepted(h, q, base, i + 1, x, y, visited + {a});
      CopyAccepted(h, a, c, m, y, visited);
    } else {
      BackAccepted(h, a, c, visited);
    }
  }

  lemma ElementDiffers(h: Heap, a: Id, c: Id, m: nat, x: Id, y: Id, n: nat)
    requires WellFormed(h) && a in h && c in h && x in h && y in h && h[a].Objects?
    requires m < |h[a].elems| && h[a].elems[m] == x && h[c] == Objects(h[a].shape, h[a].elems[m := y])
    requires n > 0 && !EqualUpTo(h, x, y, n - 1)
    ensures !EqualUpTo(h, a, c, n)
  {
    if EqualUpTo(h, a, c, n) {
      RowAgrees(h, h[a].elems, h[c].elems, m, n - 1);
    }
  }

  lemma EmptyDiffers(h: Heap, a: Id, c: Id)
    requires WellFormed(h) && a in h && c in h && h[a].Objects? && h[a].elems != [] && h[c] == Objects([0], [])
    ensures !EqualUpTo(h, a, c, 1)
  {
  }

  /** Following the lasso tells the two apart: the copy ends in an empty array. */
  lemma {:induction false} CopyDiffers(h: Heap, q: seq<Id>, base: Id, i: nat, a: Id, c: Id, n: nat)
    requires WellFormed(h) && Unrolled(h, q, base) && i < |q| == i + n
    requires a == q[i] && c == base + i
    ensures a in h && c in h && !EqualUpTo(h, a, c, n)
    decreases n
  {
    if i + 1 < |q| {
      var m, x, y := NextElement(h, q, base, i, a, c);
      CopyDiffers(h, q, base, i + 1, x, y, n - 1);
      ElementDiffers(h, a, c, m, x, y, n);
    } else {
      EmptyDiffers(h, a, c);
    }
  }

  // ----- exactly when acceptance can be trusted

  lemma {:induction false} PathStays(h: Heap, h': Heap, p: seq<Id>)
    requires WellFormed(h) && Extends(h, h') && IsPath(h', p) && p[0] in h
    ensures IsPath(h, p) && p[|p| - 1] in h
  {
    var n := |p| - 1;
    if n > 0 {
      PathStays(h, h', p[..n]);
      assert p[..n][n - 1] == p[n - 1];
      assert Edge(h', p[n - 1], p[n]);
      assert Closed(h, Elems(h[p[n - 1]]));
      forall i | 0 < i < |p|
        ensures Edge(h, p[i - 1], p[i])
      {
        assert i < n ==> Edge(h, p[..n][i - 1], p[..n][i]);
      }
    }
  }

  /** Whatever else there is to compare `a` with, acceptance means structural equality. */
  ghost predicate Trustworthy(h: Heap, a: Id)
    requires a in h
  {
    forall h': Heap, b: Id ::
      Extends(h, h') && WellFormed(h') && b in h' && DeepEq(h', a, b, {}) ==> SameStructure(h', a, b)
  }

  lemma AcyclicIsTrustworthy(h: Heap, a: Id)
    requires WellFormed(h) && a in h && Acyclic(h, a)
    ensures Trustworthy(h, a)
  {
    forall h': Heap, b: Id | Extends(h, h') && WellFormed(h') && b in h' && DeepEq(h', a, b, {})
      ensures SameStructure(h', a, b)
    {
      forall p: seq<Id> | IsPath(h', p) && p[0] == a
        ensures Simple(p)
      {
        PathStays(h, h', p);
      }
      ExactOnAcyclic(h', a, b);
    }
  }

  lemma UnrolledFools(h: Heap, q: seq<Id>, base: Id)
    requires WellFormed(h) && Unrolled(h, q, base)
    ensures q[0] in h && base in h && DeepEq(h, q[0], base, {}) && !SameStructure(h, q[0], base)
  {
    assert Passed(q[..0]) == {};
    CopyIsAccepted(h, q, base, 0, q[0], base, {});
    CopyDiffers(h, q, base, 0, q[0], base, |q|);
  }

  /** A lasso gives a value that is accepted and different. */
  lemma LassoFools(h: Heap, q: seq<Id>) returns (h': Heap, b: Id)
    requires WellFormed(h) && IsLasso(h, q)
    ensures Extends(h, h') && WellFormed(h') && q[0] in h' && b in h'
    ensures DeepEq(h', q[0], b, {}) && !SameStructure(h', q[0], b)
  {
    var base := Above(h.Keys);
    h', b := Decoy(h, q, base), base;
    DecoyIsWellFormed(h, q, base);
    DecoyIsUnrolled(h, q, base, h');
    UnrolledFools(h', q, base);
  }

  /** The values whose acceptance always means equality are exactly the values without cycles. */
  lemma TrustworthyIffAcyclic(h: Heap, a: Id)
    requires WellFormed(h) && a in h
    ensures Trustworthy(h, a) <==> Acyclic(h, a)
  {
    if Acyclic(h, a) {
      AcyclicIsTrustworthy(h, a);
    } else {
      var p: seq<Id> :| IsPath(h, p) && p[0] == a && !Simple(p);
      var q := FindLasso(h, p);
      var h', b := LassoFools(h, q);
    }
  }
}
