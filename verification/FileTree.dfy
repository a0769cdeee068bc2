/** A file system as a map from paths to nodes, with the operations the reference-hiding protocol uses. */
module FileTree {
  type Path = seq<string>

  datatype Node = Dir | File(text: string)

  type Fs = map<Path, Node>

  /** The tree at `a` in `fs` and the tree at `b` in `other` have the same nodes at the same relative paths. */
  ghost predicate SameTree(fs: Fs, a: Path, other: Fs, b: Path) {
    forall r: Path :: SameNode(fs, a + r, other, b + r)
  }

  predicate SameNode(fs: Fs, p: Path, other: Fs, q: Path) {
    (p in fs <==> q in other) && (p in fs ==> fs[p] == other[q])
  }

  ghost predicate NoTree(fs: Fs, root: Path) {
    forall p :: p in fs ==> !(root <= p)
  }

  /** Neither path leads into the other. */
  predicate Apart(a: Path, b: Path) {
    !(a <= b) && !(b <= a)
  }

  lemma PrefixesCompare(a: Path, b: Path, r: Path)
    requires a <= b + r
    ensures a <= b || b <= a
  {
    assert a == (b + r)[..|a|];
    if |a| <= |b| {
      assert a == b[..|a|];
    } else {
      assert b == a[..|b|];
    }
  }

  lemma UnderApart(a: Path, b: Path, r: Path)
    requires Apart(a, b)
    ensures !(a <= b + r)
  {
    if a <= b + r {
      PrefixesCompare(a, b, r);
    }
  }

  lemma Relative(root: Path, r: Path)
    ensures root <= root + r && (root + r)[|root|..] == r
  {
  }

  // ----- rmtree

  function Remove(fs: Fs, root: Path): (r: Fs)
    ensures NoTree(r, root)
  {
    map p | p in fs && !(root <= p) :: fs[p]
  }

  // ----- rename

  /** Where the tree at `src` goes. */
  function Moved(fs: Fs, src: Path, dst: Path): set<Path> {
    set p | p in fs && src <= p :: dst + p[|src|..]
  }

  /** `rename(src, dst)` to a free path: with nothing at `dst` there is nothing below it either. */
  function Rename(fs: Fs, src: Path, dst: Path): Fs {
    MovedIff(fs, src, dst);
    map q | q in fs.Keys + Moved(fs, src, dst) && (q in Moved(fs, src, dst) || (!(src <= q) && !(dst <= q))) ::
      if q in Moved(fs, src, dst) then fs[src + q[|dst|..]] else fs[q]
  }

  lemma MovedIff(fs: Fs, src: Path, dst: Path)
    ensures forall q :: q in Moved(fs, src, dst) <==> dst <= q && src + q[|dst|..] in fs
  {
    forall q | q in Moved(fs, src, dst) ensures dst <= q && src + q[|dst|..] in fs {
      var p :| p in fs && src <= p && q == dst + p[|src|..];
      Relative(dst, p[|src|..]);
      assert p == src + p[|src|..];
    }
    forall q: Path | dst <= q && src + q[|dst|..] in fs ensures q in Moved(fs, src, dst) {
      var p := src + q[|dst|..];
      Relative(src, q[|dst|..]);
      assert q == dst + q[|dst|..];
      assert p in fs && src <= p && q == dst + p[|src|..];
    }
  }

  lemma RenameMoves(fs: Fs, src: Path, dst: Path)
    requires Apart(src, dst)
    ensures SameTree(Rename(fs, src, dst), dst, fs, src) && NoTree(Rename(fs, src, dst), src)
  {
    MovedIff(fs, src, dst);
    forall r: Path ensures SameNode(Rename(fs, src, dst), dst + r, fs, src + r) {
      Relative(dst, r);
    }
    forall q | q in Rename(fs, src, dst) ensures !(src <= q) {
      if q in Moved(fs, src, dst) {
        UnderApart(src, dst, q[|dst|..]);
        assert q == dst + q[|dst|..];
      }
    }
  }

  /** A rename leaves every path alone that is not in one of the two trees. */
  lemma RenameElsewhere(fs: Fs, src: Path, dst: Path, p: Path)
    requires !(src <= p) && !(dst <= p)
    ensures SameNode(Rename(fs, src, dst), p, fs, p)
  {
    MovedIff(fs, src, dst);
  }
}
