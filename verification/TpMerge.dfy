/** `_merge_across_tp`: the fused query/key/value and gate/up branches of the checkpoint merger. */
module TpMerge {
  import opened Arith
  import opened Seqs
  import opened Tensors
  import opened QkvPacking

  datatype Result<T> = Ok(value: T) | Error

  datatype Qkv<T> = Qkv(q: seq<T>, k: seq<T>, v: seq<T>)

  // ----- query, key and value

  /** Every shard cut into its query groups, in shard order. */
  function Pieces<T>(shards: seq<seq<T>>, n: nat): seq<seq<T>>
    requires n > 0
  {
    Flatten(seq(|shards|, i requires 0 <= i < |shards| => TorchChunk(shards[i], n)))
  }

  predicate AllOfSize<T>(ps: seq<seq<T>>, size: nat) {
    forall i :: 0 <= i < |ps| ==> |ps[i]| == size
  }

  /** Rows `lo..hi` of every piece. */
  function Part<T>(ps: seq<seq<T>>, lo: nat, hi: nat, size: nat): (r: seq<seq<T>>)
    requires lo <= hi <= size && AllOfSize(ps, size)
    ensures |r| == |ps|
  {
    seq(|ps|, i requires 0 <= i < |ps| => ps[i][lo..hi])
  }

  /** The three concatenations over all pieces. */
  function Parts<T>(ps: seq<seq<T>>, qRows: nat, kvRows: nat): Qkv<T>
    requires AllOfSize(ps, qRows + kvRows + kvRows)
  {
    var size := qRows + kvRows + kvRows;
    Qkv(Flatten(Part(ps, 0, qRows, size)), Flatten(Part(ps, qRows, qRows + kvRows, size)),
        Flatten(Part(ps, qRows + kvRows, size, size)))
  }

  /** The sizes the merger computes from the first shard, when its assertions hold and it can chunk. */
  predicate Mergeable<T>(shards: seq<seq<T>>, heads: nat, kvHeads: nat, tp: nat) {
    && kvHeads > 0 && heads % kvHeads == 0 && shards != []
    && |shards[0]| % (heads / kvHeads + 2) == 0
    && tp > 0 && kvHeads / tp > 0
  }

  /** The query rows and the key rows of one piece, from the rows of a shard. */
  function PieceRows(shardRows: nat, perKv: nat, n: nat): (rows: (nat, nat))
    requires n > 0
  {
    var kvRows: nat := shardRows / (perKv + 2);
    assert kvRows * perKv >= 0;
    NonNegative(kvRows * perKv, n);
    NonNegative(kvRows, n);
    (kvRows * perKv / n, kvRows / n)
  }

  lemma NonNegative(a: nat, d: nat)
    requires d > 0
    ensures a / d >= 0
  {
    DivModBack(a, d);
    if a / d < 0 {
      MulMono(d, a / d, -1);
    }
  }

  function MergedPieces<T>(ps: seq<seq<T>>, qRows: nat, kvRows: nat): Result<Qkv<T>> {
    if AllOfSize(ps, qRows + kvRows + kvRows) then Ok(Parts(ps, qRows, kvRows)) else Error
  }

  /** The result of the query/key/value branch. */
  function Merged<T>(shards: seq<seq<T>>, heads: nat, kvHeads: nat, tp: nat): Result<Qkv<T>> {
    if !Mergeable(shards, heads, kvHeads, tp) then Error
    else
      var rows := PieceRows(|shards[0]|, heads / kvHeads, kvHeads / tp);
      MergedPieces(Pieces(shards, kvHeads / tp), rows.0, rows.1)
  }

  lemma PiecesAppend<T>(shards: seq<seq<T>>, shard: seq<T>, n: nat)
    requires n > 0
    ensures Pieces(shards + [shard], n) == Pieces(shards, n) + TorchChunk(shard, n)
  {
    var chunks := seq(|shards|, i requires 0 <= i < |shards| => TorchChunk(shards[i], n));
    var all := shards + [shard];
    assert seq(|all|, i requires 0 <= i < |all| => TorchChunk(all[i], n)) == chunks + [TorchChunk(shard, n)];
    FlattenAppend(chunks, TorchChunk(shard, n));
  }

  /** The pieces of one shard, split one after the other; not `ok` when a piece does not have the right size. */
  method SplitPieces<T>(pieces: seq<seq<T>>, qRows: nat, kvRows: nat)
    returns (ok: bool, qs: seq<seq<T>>, ks: seq<seq<T>>, vs: seq<seq<T>>)
    ensures ok <==> AllOfSize(pieces, qRows + kvRows + kvRows)
    ensures ok ==> Listed(pieces, qRows, kvRows, qs, ks, vs)
  {
    ok, qs, ks, vs := true, [], [], [];
    var size := qRows + kvRows + kvRows;
    for j := 0 to |pieces|
      invariant Listed(pieces[..j], qRows, kvRows, qs, ks, vs)
    {
      var chunk := pieces[j];
      if |chunk| != size {
        return false, [], [], [];
      }
      qs := qs + [chunk[..qRows]];
      ks := ks + [chunk[qRows..qRows + kvRows]];
      vs := vs + [chunk[qRows + kvRows..size]];
    }
    assert pieces[..|pieces|] == pieces;
  }

  /** The three lists hold the three parts of every piece. */
  ghost predicate Listed<T>(
    ps: seq<seq<T>>, qRows: nat, kvRows: nat, qs: seq<seq<T>>, ks: seq<seq<T>>, vs: seq<seq<T>>)
  {
    var size := qRows + kvRows + kvRows;
    && AllOfSize(ps, size)
    && qs == Part(ps, 0, qRows, size)
    && ks == Part(ps, qRows, qRows + kvRows, size)
    && vs == Part(ps, qRows + kvRows, size, size)
  }

  lemma ListedAppend<T>(
    ps: seq<seq<T>>, qRows: nat, kvRows: nat, qs: seq<seq<T>>, ks: seq<seq<T>>, vs: seq<seq<T>>,
    ps': seq<seq<T>>, qs': seq<seq<T>>, ks': seq<seq<T>>, vs': seq<seq<T>>)
    requires Listed(ps, qRows, kvRows, qs, ks, vs) && Listed(ps', qRows, kvRows, qs', ks', vs')
    ensures Listed(ps + ps', qRows, kvRows, qs + qs', ks + ks', vs + vs')
  {
    var size := qRows + kvRows + kvRows;
  }

  lemma NotAllOfSize<T>(ps: seq<seq<T>>, rs: seq<seq<T>>, ts: seq<seq<T>>, size: nat)
    requires !AllOfSize(rs, size)
    ensures !AllOfSize(ps + rs + ts, size)
  {
    var i :| 0 <= i < |rs| && |rs[i]| != size;
    assert (ps + rs + ts)[|ps| + i] == rs[i];
  }

  lemma PiecesSplit<T>(shards: seq<seq<T>>, i: nat, n: nat) returns (rest: seq<seq<T>>)
    requires n > 0 && i < |shards|
    ensures Pieces(shards, n) == Pieces(shards[..i], n) + TorchChunk(shards[i], n) + rest
  {
    var chunks := seq(|shards|, j requires 0 <= j < |shards| => TorchChunk(shards[j], n));
    var front := seq(i, j requires 0 <= j < i => TorchChunk(shards[..i][j], n));
    var back := chunks[i + 1..];
    assert chunks == front + [chunks[i]] + back;
    FlattenConcat(front + [chunks[i]], back);
    FlattenAppend(front, chunks[i]);
    rest := Flatten(back);
  }

  /** The nested loops over the shards and their pieces. */
  method MergeShards<T>(shards: seq<seq<T>>, n: nat, qRows: nat, kvRows: nat) returns (r: Result<Qkv<T>>)
    requires n > 0
    ensures r == MergedPieces(Pieces(shards, n), qRows, kvRows)
  {
    ghost var size := qRows + kvRows + kvRows;
    var qLst, kLst, vLst := [], [], [];
    for i := 0 to |shards|
      invariant Listed(Pieces(shards[..i], n), qRows, kvRows, qLst, kLst, vLst)
    {
      ghost var done, chunks := Pieces(shards[..i], n), TorchChunk(shards[i], n);
      var ok, qs, ks, vs := SplitPieces(TorchChunk(shards[i], n), qRows, kvRows);
      if !ok {
        ghost var rest := PiecesSplit(shards, i, n);
        NotAllOfSize(done, chunks, rest, size);
        return Error;
      }
      assert shards[..i + 1] == shards[..i] + [shards[i]];
      PiecesAppend(shards[..i], shards[i], n);
      ListedAppend(done, qRows, kvRows, qLst, kLst, vLst, chunks, qs, ks, vs);
      qLst, kLst, vLst := qLst + qs, kLst + ks, vLst + vs;
    }
    assert shards[..|shards|] == shards;
    r := Ok(Qkv(Flatten(qLst), Flatten(kLst), Flatten(vLst)));
  }

  /** The query/key/value branch of `_merge_across_tp`. */
  method MergeQkv<T>(shards: seq<seq<T>>, heads: nat, kvHeads: nat, tp: nat) returns (r: Result<Qkv<T>>)
    ensures r == Merged(shards, heads, kvHeads, tp)
  {
    if kvHeads == 0 || heads % kvHeads != 0 || shards == [] {
      return Error;
    }
    var perKv := heads / kvHeads;
    if |shards[0]| % (perKv + 2) != 0 || tp == 0 || kvHeads / tp == 0 {
      return Error;
    }
    var n := kvHeads / tp;
    var rows := PieceRows(|shards[0]|, perKv, n);
    r := MergeShards(shards, n, rows.0, rows.1);
  }

  // ----- merging undoes packing and sharding

  /** Cutting equal shards into their groups gives the groups of the whole. */
  lemma {:induction false} PiecesOfShards<T>(xs: seq<T>, c: nat, m: nat, n: nat)
    requires m > 0 && |xs| == Times(n, Times(m, c)) && Times(Times(n, m), c) == |xs|
    ensures Pieces(Blocks(xs, Times(m, c), n), m) == Blocks(xs, c, Times(n, m))
  {
    if n > 0 {
      var size := Times(m, c);
      var head, tail := xs[..size], xs[size..];
      assert xs == head + tail;
      TimesTimes(n - 1, m, c);
      PiecesOfShards(tail, c, m, n - 1);
      ChunkEvenly(head, c, m);
      BlocksAppend(head, tail, c, m, Times(n - 1, m));
      PiecesCons(head, Blocks(tail, size, n - 1), m);
      assert Blocks(xs, size, n) == [head] + Blocks(tail, size, n - 1);
    }
  }

  lemma PiecesCons<T>(shard: seq<T>, shards: seq<seq<T>>, n: nat)
    requires n > 0
    ensures Pieces([shard] + shards, n) == TorchChunk(shard, n) + Pieces(shards, n)
  {
    var all := [shard] + shards;
    var chunks := seq(|all|, i requires 0 <= i < |all| => TorchChunk(all[i], n));
    assert chunks[1..] == seq(|shards|, i requires 0 <= i < |shards| => TorchChunk(shards[i], n));
  }

  lemma CutGroups<T>(qs: seq<seq<T>>, ks: seq<seq<T>>, vs: seq<seq<T>>, a: nat, b: nat)
    requires |qs| == |ks| == |vs| && AllOfSize(qs, a) && AllOfSize(ks, b) && AllOfSize(vs, b)
    ensures Listed(CatGroups(qs, ks, vs), a, b, qs, ks, vs)
  {
    var gs, size := CatGroups(qs, ks, vs), a + b + b;
    forall g | 0 <= g < |gs|
      ensures |gs[g]| == size
      ensures gs[g][0..a] == qs[g]
      ensures gs[g][a..a + b] == ks[g]
      ensures gs[g][a + b..size] == vs[g]
    {
    }
  }

  /** Taking the groups apart gives back the three lists. */
  lemma PartsOfGroups<T>(q: seq<T>, k: seq<T>, v: seq<T>, groups: nat, perGroup: nat, headDim: nat)
    requires Sizes(q, k, v, groups, perGroup, headDim)
    ensures var a := Times(perGroup, headDim);
      var gs := CatGroups(Blocks(q, a, groups), Blocks(k, headDim, groups), Blocks(v, headDim, groups));
      AllOfSize(gs, a + headDim + headDim) && Parts(gs, a, headDim) == Qkv(q, k, v)
  {
    var a := Times(perGroup, headDim);
    CutGroups(Blocks(q, a, groups), Blocks(k, headDim, groups), Blocks(v, headDim, groups), a, headDim);
    FlattenBlocks(q, a, groups);
    FlattenBlocks(k, headDim, groups);
    FlattenBlocks(v, headDim, groups);
  }

  /** The merger recovers the sizes of a piece. */
  lemma PieceRowsRecovered(perKv: nat, headDim: nat, n: nat)
    requires n > 0
    ensures var shard := Times(n, Times(perKv, headDim) + headDim + headDim);
      shard % (perKv + 2) == 0 && PieceRows(shard, perKv, n) == (Times(perKv, headDim), headDim)
  {
    var c := Times(perKv, headDim) + headDim + headDim;
    TimesIsProduct(perKv, headDim);
    TimesIsProduct(n, c);
    var rows := n * headDim;
    assert n * c == (perKv + 2) * rows by {
      assert c == (perKv + 2) * headDim;
      assert n * ((perKv + 2) * headDim) == (perKv + 2) * (n * headDim);
    }
    DivExact(perKv + 2, rows);
    assert rows * perKv == n * (perKv * headDim);
    DivExact(n, perKv * headDim);
    DivExact(n, headDim);
  }

  /** The number of fused rows: every group has its query, key and value rows. */
  lemma FusedSize<T>(q: seq<T>, k: seq<T>, v: seq<T>, groups: nat, perGroup: nat, headDim: nat)
    requires Sizes(q, k, v, groups, perGroup, headDim)
    ensures |Pack(q, k, v, groups, perGroup, headDim)| == Times(groups, Times(perGroup, headDim) + headDim + headDim)
    ensures Blocks(Pack(q, k, v, groups, perGroup, headDim), Times(perGroup, headDim) + headDim + headDim, groups)
         == CatGroups(Blocks(q, Times(perGroup, headDim), groups), Blocks(k, headDim, groups), Blocks(v, headDim, groups))
  {
    var a := Times(perGroup, headDim);
    var gs := CatGroups(Blocks(q, a, groups), Blocks(k, headDim, groups), Blocks(v, headDim, groups));
    BlocksOfFlatten(gs, a + headDim + headDim);
  }

  /** The shards of the fused rows on `tp` tensor-parallel ranks. */
  function Shards<T>(fused: seq<T>, tp: nat): seq<seq<T>>
    requires tp > 0 && |fused| % tp == 0
  {
    DivModBack(|fused|, tp);
    NonNegative(|fused|, tp);
    TimesIsProduct(tp, |fused| / tp);
    Blocks(fused, |fused| / tp, tp)
  }

  /** Packing per query group, sharding the fused rows evenly and merging across the ranks gives back the
      original weights, for every head count, group count, head size and rank count that divide. */
  lemma MergeUndoesPack<T>(q: seq<T>, k: seq<T>, v: seq<T>, heads: nat, kvHeads: nat, headDim: nat, tp: nat)
    requires kvHeads > 0 && heads % kvHeads == 0 && tp > 0 && kvHeads % tp == 0
    requires heads / kvHeads >= 0 && Sizes(q, k, v, kvHeads, heads / kvHeads, headDim)
    ensures var fused := Pack(q, k, v, kvHeads, heads / kvHeads, headDim);
      |fused| % tp == 0 && Merged(Shards(fused, tp), heads, kvHeads, tp) == Ok(Qkv(q, k, v))
  {
    var perKv: nat, n := heads / kvHeads, kvHeads / tp;
    DivModBack(kvHeads, tp);
    NonNegative(kvHeads, tp);
    assert n > 0;
    var c := Times(perKv, headDim) + headDim + headDim;
    var fused := Pack(q, k, v, kvHeads, perKv, headDim);
    FusedSize(q, k, v, kvHeads, perKv, headDim);
    TimesIsProduct(tp, n);
    assert kvHeads == Times(tp, n);
    TimesTimes(tp, n, c);
    TimesIsProduct(tp, Times(n, c));
    DivExact(tp, Times(n, c));
    var shards := Shards(fused, tp);
    assert shards == Blocks(fused, Times(n, c), tp);
    assert |shards[0]| == Times(n, c);
    PieceRowsRecovered(perKv, headDim, n);
    PiecesOfShards(fused, c, n, tp);
    PartsOfGroups(q, k, v, kvHeads, perKv, headDim);
  }

  /** Two layers with the same fused shards have the same weights. */
  lemma PackIsInjective<T>(q: seq<T>, k: seq<T>, v: seq<T>, q': seq<T>, k': seq<T>, v': seq<T>,
                           groups: nat, perGroup: nat, headDim: nat)
    requires Sizes(q, k, v, groups, perGroup, headDim) && Sizes(q', k', v', groups, perGroup, headDim)
    requires Pack(q, k, v, groups, perGroup, headDim) == Pack(q', k', v', groups, perGroup, headDim)
    ensures q == q' && k == k' && v == v'
  {
    FusedSize(q, k, v, groups, perGroup, headDim);
    FusedSize(q', k', v', groups, perGroup, headDim);
    PartsOfGroups(q, k, v, groups, perGroup, headDim);
    PartsOfGroups(q', k', v', groups, perGroup, headDim);
  }

  // ----- gate and up

  /** Every shard chunks into two halves. */
  predicate AllHalved<T>(shards: seq<seq<T>>) {
    forall i :: 0 <= i < |shards| ==> |TorchChunk(shards[i], 2)| == 2
  }

  function Half<T>(shards: seq<seq<T>>, h: nat): seq<seq<T>>
    requires AllHalved(shards) && h < 2
  {
    seq(|shards|, i requires 0 <= i < |shards| => TorchChunk(shards[i], 2)[h])
  }

  /** The gate/up branch: every shard holds its gate rows, then its up rows. */
  method MergeGateUp<T>(shards: seq<seq<T>>) returns (ok: bool, gate: seq<T>, up: seq<T>)
    ensures ok <==> AllHalved(shards)
    ensures ok ==> gate == Flatten(Half(shards, 0)) && up == Flatten(Half(shards, 1))
  {
    var gateLst, upLst := [], [];
    for i := 0 to |shards|
      invariant AllHalved(shards[..i])
      invariant gateLst == Half(shards[..i], 0) && upLst == Half(shards[..i], 1)
    {
      var halves := TorchChunk(shards[i], 2);
      if |halves| != 2 {
        return false, [], [];
      }
      gateLst, upLst := gateLst + [halves[0]], upLst + [halves[1]];
    }
    assert shards[..|shards|] == shards;
    ok, gate, up := true, Flatten(gateLst), Flatten(upLst);
  }

  /** Shards built from equal blocks of gate and up are taken apart again. */
  lemma GateUpRecovered<T>(gate: seq<T>, up: seq<T>, c: nat, tp: nat)
    requires |gate| == |up| == Times(tp, c)
    ensures var shards := GateUpShards(gate, up, c, tp);
      AllHalved(shards) && Flatten(Half(shards, 0)) == gate && Flatten(Half(shards, 1)) == up
  {
    var gs, us, shards := Blocks(gate, c, tp), Blocks(up, c, tp), GateUpShards(gate, up, c, tp);
    FlattenBlocks(gate, c, tp);
    FlattenBlocks(up, c, tp);
    forall i | 0 <= i < tp
      ensures TorchChunk(shards[i], 2) == [gs[i], us[i]]
    {
      Halves(gs[i], us[i], c);
    }
    assert Half(shards, 0) == gs && Half(shards, 1) == us;
  }

  function GateUpShards<T>(gate: seq<T>, up: seq<T>, c: nat, tp: nat): seq<seq<T>>
    requires |gate| == |up| == Times(tp, c)
  {
    var gs, us := Blocks(gate, c, tp), Blocks(up, c, tp);
    seq(tp, i requires 0 <= i < tp => gs[i] + us[i])
  }

  lemma Halves<T>(x: seq<T>, y: seq<T>, c: nat)
    requires |x| == |y| == c
    ensures TorchChunk(x + y, 2) == [x, y]
  {
    assert Times(2, c) == c + Times(1, c) && Times(1, c) == c + Times(0, c);
    ChunkEvenly(x + y, c, 2);
    BlocksOfFlatten([x, y], c);
    assert [x, y][1..] == [y];
    assert Flatten([x, y]) == x + y;
  }
}
