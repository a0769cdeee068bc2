/** Padding to a divisor, dispatching to workers and collecting, directly or through futures. */
module Transfer {
  import opened Wrappers
  import opened Arith
  import opened Seqs
  import opened Tensors
  import opened Rows
  import opened DataProtos
  import opened DataConcat

  // ----- pad_dataproto_to_divisor and unpad_dataproto

  function PadSize(n: nat, divisor: nat): nat
    requires divisor > 0
  {
    if n % divisor == 0 then 0 else divisor - n % divisor
  }

  /** The padded length is the least multiple of the divisor that is at least the length. */
  lemma PaddedLengthIsLeast(n: nat, divisor: nat, m: nat)
    requires divisor > 0
    ensures (n + PadSize(n, divisor)) % divisor == 0
    ensures m >= n && m % divisor == 0 ==> m >= n + PadSize(n, divisor)
  {
    var q, r := n / divisor, n % divisor;
    DivModBack(n, divisor);
    if r != 0 {
      assert n + PadSize(n, divisor) == divisor * (q + 1) by {
        assert divisor * (q + 1) == divisor * q + divisor;
      }
      DivExact(divisor, q + 1);
      if m >= n && m % divisor == 0 {
        DivModBack(m, divisor);
        if m / divisor <= q {
          MulMono(divisor, m / divisor, q);
        } else {
          MulMono(divisor, q + 1, m / divisor);
        }
      }
    }
  }

  /** Row `i` of the padded data is row `i % n` of the data. */
  function Cycle(n: nat, m: nat): (idx: seq<nat>)
    requires n == 0 ==> m == 0
    ensures |idx| == m && InRange(idx, n)
    ensures forall i :: 0 <= i < m ==> idx[i] == i % n
  {
    seq(m, i requires 0 <= i < m => i % n)
  }

  lemma SmallMod(n: nat, i: nat)
    requires i < n
    ensures i % n == i
  {
    DivMod(n, 0, i);
  }

  lemma CycleOnce(n: nat)
    ensures Cycle(n, n) == Range(0, n)
  {
    forall i | 0 <= i < n ensures i % n == i {
      SmallMod(n, i);
    }
  }

  lemma CycleRow(n: nat, q: nat, i: nat)
    requires i < n
    ensures (Times(q, n) + i) % n == i
  {
    TimesIsProduct(q, n);
    DivMod(n, q, i);
  }

  lemma CycleAppend(n: nat, q: nat, base: nat, take: nat)
    requires 0 < n && take <= n && base == Times(q, n)
    ensures Cycle(n, base + take) == Cycle(n, base) + Range(0, take)
  {
    var all, both := Cycle(n, base + take), Cycle(n, base) + Range(0, take);
    forall j | 0 <= j < base + take ensures all[j] == both[j] {
      if base <= j {
        CycleRow(n, q, j - base);
      }
    }
  }

  /** The padding collected so far picks `parts`; with the data itself, the first `n + done` rows of the cycle. */
  ghost predicate PaddedSoFar<V>(d: Data<V>, n: nat, parts: seq<seq<nat>>, protos: seq<Data<V>>, done: nat) {
    0 < n && Aligned(d, n) && AllInRange(parts, n) && protos == PickEach(d, n, parts) && Cycled(n, parts, done)
  }

  ghost predicate Cycled(n: nat, parts: seq<seq<nat>>, done: nat)
    requires 0 < n
  {
    Range(0, n) + Flatten(parts) == Cycle(n, n + done)
  }

  lemma CycledStep(n: nat, parts: seq<seq<nat>>, done: nat, take: nat)
    requires 0 < n && Cycled(n, parts, done) && done == Times(|parts|, n) && take <= n
    ensures Cycled(n, parts + [Range(0, take)], done + take)
  {
    FlattenAppend(parts, Range(0, take));
    CycleAppend(n, |parts| + 1, n + done, take);
    assert Range(0, n) + (Flatten(parts) + Range(0, take)) == (Range(0, n) + Flatten(parts)) + Range(0, take);
    assert n + (done + take) == (n + done) + take;
  }

  lemma SliceTake<V>(d: Data<V>, n: nat, take: nat)
    requires Aligned(d, n) && take <= n
    ensures InRange(Range(0, take), n) && Slice(d, None, Some(take), None) == Ok(Pick(d, n, Range(0, take)))
  {
    SliceIsPick(d, n, None, Some(take), None);
    SlicePrefix(n, take);
  }

  lemma PadStart<V>(d: Data<V>, n: nat)
    requires 0 < n && Aligned(d, n)
    ensures PaddedSoFar(d, n, [], [], 0)
  {
    CycleOnce(n);
  }

  lemma PadStep<V>(d: Data<V>, n: nat, parts: seq<seq<nat>>, protos: seq<Data<V>>, done: nat, take: nat)
    requires PaddedSoFar(d, n, parts, protos, done) && done == Times(|parts|, n) && take <= n
    ensures Slice(d, None, Some(take), None).Ok?
    ensures PaddedSoFar(d, n, parts + [Range(0, take)], protos + [Slice(d, None, Some(take), None).value], done + take)
    ensures Times(|parts + [Range(0, take)]|, n) == done + n
  {
    SliceTake(d, n, take);
    CycledStep(n, parts, done, take);
  }

  lemma PadEnd<V>(d: Data<V>, n: nat, parts: seq<seq<nat>>, protos: seq<Data<V>>, done: nat)
    requires PaddedSoFar(d, n, parts, protos, done)
    ensures Concat([d] + protos) == Ok(Pick(d, n, Cycle(n, n + done)))
  {
    PickAll(d, n);
    PickEachCons(d, n, Range(0, n), parts);
    ConcatPicks(d, n, [Range(0, n)] + parts);
  }

  /** `pad_dataproto_to_divisor`: the rows are repeated from the first one on, as often as it takes. */
  method PadToDivisor<V>(d: Data<V>, divisor: nat, ghost n: nat) returns (padded: Result<Data<V>>, padSize: nat)
    requires divisor > 0 && Aligned(d, n)
    ensures padSize == PadSize(n, divisor) && (n == 0 ==> padSize == 0)
    ensures padded == Ok(Pick(d, n, Cycle(n, n + padSize)))
  {
    var len := Length(d, n);
    if len % divisor != 0 {
      padSize := divisor - len % divisor;
      var protos := [];
      var remaining: nat := padSize;
      ghost var parts: seq<seq<nat>> := [];
      ghost var done: nat := 0;
      SmallMod(divisor, 0);
      PadStart(d, n);
      while remaining > 0
        invariant done + remaining == padSize && PaddedSoFar(d, n, parts, protos, done)
        invariant remaining > 0 ==> done == Times(|parts|, n)
      {
        var take := if remaining < len then remaining else len;
        PadStep(d, n, parts, protos, done, take);
        protos := protos + [Slice(d, None, Some(take), None).value];
        parts := parts + [Range(0, take)];
        done, remaining := done + take, remaining - take;
      }
      PadEnd(d, n, parts, protos, done);
      padded := Concat([d] + protos);
    } else {
      padSize := 0;
      padded := Ok(d);
      PickAll(d, n);
      CycleOnce(n);
    }
  }

  /** `unpad_dataproto`. */
  function Unpad<V>(d: Data<V>, padSize: int): Result<Data<V>>
    requires Consistent(d)
  {
    if padSize != 0 then Slice(d, None, Some(-padSize), None) else Ok(d)
  }

  /** Unpadding what was padded, whatever row-wise work was done in between. */
  lemma UnpadUndoesPad<V>(d: Data<V>, n: nat, padSize: nat)
    requires Aligned(d, n) && (n == 0 ==> padSize == 0)
    ensures Unpad(Pick(d, n, Cycle(n, n + padSize)), padSize) == Ok(d)
  {
    var idx := Cycle(n, n + padSize);
    var padded := Pick(d, n, idx);
    CycleOnce(n);
    PickAll(d, n);
    if padSize != 0 {
      var stop := 0 - padSize;
      SliceIsPick(padded, n + padSize, None, Some(stop), None);
      SlicePrefix(n + padSize, n);
      PickTwice(d, n, idx, Range(0, n));
      assert Gather(idx, Range(0, n)) == Cycle(n, n);
    }
  }

  // ----- row-wise work on the chunks

  /**
   * Worker code is row-wise when each row of its result depends on the same row of its input only:
   * working on picked rows gives the picked rows of working on all of them.
   */
  ghost predicate RowWise<V(!new), W>(f: Data<V> -> Data<W>) {
    forall d: Data<V>, n: nat, idx: seq<nat> :: Aligned(d, n) && InRange(idx, n) ==>
      Aligned(f(d), n) && f(Pick(d, n, idx)) == Pick(f(d), n, idx)
  }

  lemma WorkOnPicks<V(!new), W>(f: Data<V> -> Data<W>, d: Data<V>, n: nat, parts: seq<seq<nat>>)
    requires RowWise(f) && Aligned(d, n) && AllInRange(parts, n)
    ensures Aligned(f(d), n) && Map(f, PickEach(d, n, parts)) == PickEach(f(d), n, parts)
  {
    WorkOnPick(f, d, n, []);
    forall i | 0 <= i < |parts| ensures Map(f, PickEach(d, n, parts))[i] == PickEach(f(d), n, parts)[i] {
      WorkOnPick(f, d, n, parts[i]);
    }
  }

  lemma WorkOnPick<V(!new), W>(f: Data<V> -> Data<W>, d: Data<V>, n: nat, idx: seq<nat>)
    requires RowWise(f) && Aligned(d, n) && InRange(idx, n)
    ensures Aligned(f(d), n) && f(Pick(d, n, idx)) == Pick(f(d), n, idx)
  {
  }

  /** Working on the pieces of any chunk and concatenating is working on the whole. */
  lemma WorkOnChunks<V(!new), W>(f: Data<V> -> Data<W>, d: Data<V>, n: nat, chunks: nat, padding: bool)
    requires RowWise(f) && Aligned(d, n) && chunks > 0 && Chunk(d, chunks, padding).Ok?
    ensures Aligned(f(d), n) && Concat(Map(f, Chunk(d, chunks, padding).value)) == Ok(f(d))
  {
    var sizes := ChunkSizes(d, n, chunks);
    ChunkIsPick(d, n, chunks, padding);
    ChunkSizesSum(d, n, chunks);
    RangesFacts(0, sizes, n);
    WorkOnPicks(f, d, n, Ranges(0, sizes));
    ConcatPicks(f(d), n, Ranges(0, sizes));
    PickAll(f(d), n);
  }

  lemma EvenChunkOk<V>(d: Data<V>, n: nat, chunks: nat, padding: bool)
    requires Aligned(d, n) && chunks > 0 && n % chunks == 0
    requires n > 0 || chunks == 1 || d.batch.None?
    ensures Chunk(d, chunks, padding).Ok?
  {
    ChunkOkIff(d, n, chunks, padding);
    DivModBack(n, chunks);
    if n > 0 {
      if n / chunks <= 0 {
        MulMono(chunks, n / chunks, 0);
      }
      EvenlyIsEnough(n / chunks, chunks);
    }
  }

  /**
   * Pad to the number of workers, chunk, let every worker do its row-wise work, concatenate and unpad:
   * exactly the work done on every original row, in order.
   */
  lemma TransferIsRowWise<V(!new), W>(f: Data<V> -> Data<W>, d: Data<V>, n: nat, workers: nat, padding: bool,
                                     padded: Data<V>, padSize: nat)
    requires RowWise(f) && Aligned(d, n) && n > 0 && workers > 0
    requires padSize == PadSize(n, workers) && padded == Pick(d, n, Cycle(n, n + padSize))
    ensures Chunk(padded, workers, padding).Ok? && |Chunk(padded, workers, padding).value| == workers
    ensures Concat(Map(f, Chunk(padded, workers, padding).value)).Ok?
    ensures Unpad(Concat(Map(f, Chunk(padded, workers, padding).value)).value, padSize) == Ok(f(d))
  {
    PaddedLengthIsLeast(n, workers, 0);
    EvenChunkOk(padded, n + padSize, workers, padding);
    ChunkIsPick(padded, n + padSize, workers, padding);
    WorkOnChunks(f, padded, n + padSize, workers, padding);
    WorkOnPick(f, d, n, Cycle(n, n + padSize));
    UnpadUndoesPad(f(d), n, padSize);
  }

  /** The whole way: pad, dispatch a chunk to each worker, collect, unpad. */
  method TransferData<V(!new), W>(f: Data<V> -> Data<W>, d: Data<V>, workers: nat, padding: bool, ghost n: nat)
      returns (r: Result<Data<W>>)
    requires RowWise(f) && Aligned(d, n) && n > 0 && workers > 0
    ensures r == Ok(f(d))
  {
    var padded, padSize := PadToDivisor(d, workers, n);
    TransferIsRowWise(f, d, n, workers, padding, padded.value, padSize);
    var chunks := ChunkData(padded.value, workers, padding, n + padSize);
    var collected := Concat(Map(f, chunks.value));
    r := Unpad(collected.value, padSize);
  }

  // ----- the row-wise work a function of one row does

  datatype Row<V> = Row(batch: Option<map<Key, V>>, nonTensor: map<Key, V>)

  function CellsAt<V>(cols: map<Key, seq<V>>, n: nat, i: nat): map<Key, V>
    requires Long(cols, n) && i < n
  {
    map k | k in cols :: cols[k][i]
  }

  function RowAt<V>(d: Data<V>, n: nat, i: nat): Row<V>
    requires Aligned(d, n) && i < n
  {
    Row(if d.batch.Some? then Some(CellsAt(d.batch.value.cols, n, i)) else None, CellsAt(d.nonTensor, n, i))
  }

  lemma RowOfPick<V>(d: Data<V>, n: nat, idx: seq<nat>, i: nat)
    requires Aligned(d, n) && InRange(idx, n) && i < |idx|
    ensures RowAt(Pick(d, n, idx), |idx|, i) == RowAt(d, n, idx[i])
  {
    var p := Pick(d, n, idx);
    assert CellsAt(p.nonTensor, |idx|, i) == CellsAt(d.nonTensor, n, idx[i]);
    if d.batch.Some? {
      assert CellsAt(p.batch.value.cols, |idx|, i) == CellsAt(d.batch.value.cols, n, idx[i]);
    }
  }

  ghost function Column<V, W>(g: (Key, Row<V>) -> W, d: Data<V>, n: nat, k: Key): (col: seq<W>)
    requires Aligned(d, n)
    ensures |col| == n && forall i :: 0 <= i < n ==> col[i] == g(k, RowAt(d, n, i))
  {
    seq(n, i requires 0 <= i < n => g(k, RowAt(d, n, i)))
  }

  ghost function Columns<V, W>(keys: set<Key>, g: (Key, Row<V>) -> W, d: Data<V>, n: nat): (cols: map<Key, seq<W>>)
    requires Aligned(d, n)
    ensures cols.Keys == keys && Long(cols, n)
  {
    map k | k in keys :: Column(g, d, n, k)
  }

  /** The worker that computes every cell `k` of its tensor and numpy columns as `g(k, row)`. */
  ghost function PerRow<V, W>(tensors: set<Key>, arrays: set<Key>, g: (Key, Row<V>) -> W, d: Data<V>): Data<W> {
    var n := Len(d);
    if Aligned(d, n) then Data(Some(TensorDict(n, Columns(tensors, g, d, n))), Columns(arrays, g, d, n))
    else Data(None, map[])
  }

  lemma ColumnsOfPick<V, W>(keys: set<Key>, g: (Key, Row<V>) -> W, d: Data<V>, n: nat, idx: seq<nat>)
    requires Aligned(d, n) && InRange(idx, n)
    ensures Columns(keys, g, Pick(d, n, idx), |idx|) == PickCols(Columns(keys, g, d, n), n, idx)
  {
    var p := Pick(d, n, idx);
    forall k | k in keys ensures Column(g, p, |idx|, k) == Gather(Column(g, d, n, k), idx) {
      forall i | 0 <= i < |idx| ensures Column(g, p, |idx|, k)[i] == Column(g, d, n, k)[idx[i]] {
        RowOfPick(d, n, idx, i);
      }
    }
  }

  lemma PerRowPicks<V, W>(tensors: set<Key>, arrays: set<Key>, g: (Key, Row<V>) -> W, d: Data<V>, n: nat, idx: seq<nat>)
    requires Aligned(d, n) && InRange(idx, n)
    ensures Aligned(PerRow(tensors, arrays, g, d), n)
    ensures PerRow(tensors, arrays, g, Pick(d, n, idx)) == Pick(PerRow(tensors, arrays, g, d), n, idx)
  {
    LenIsRows(d, n);
    LenIsRows(Pick(d, n, idx), |idx|);
    ColumnsOfPick(tensors, g, d, n, idx);
    ColumnsOfPick(arrays, g, d, n, idx);
  }

  lemma PerRowIsRowWise<V(!new), W>(tensors: set<Key>, arrays: set<Key>, g: (Key, Row<V>) -> W)
    ensures RowWise((d: Data<V>) => PerRow(tensors, arrays, g, d))
  {
    forall d: Data<V>, n: nat, idx: seq<nat> | Aligned(d, n) && InRange(idx, n)
      ensures Aligned(PerRow(tensors, arrays, g, d), n)
      ensures PerRow(tensors, arrays, g, Pick(d, n, idx)) == Pick(PerRow(tensors, arrays, g, d), n, idx)
    {
      PerRowPicks(tensors, arrays, g, d, n, idx);
    }
  }

  // ----- futures

  /** A `DataProtoFuture`: the results being computed, and the piece a dispatch function will select. */
  datatype Future<V> = Future(futures: seq<Data<V>>, dispatch: Option<Dispatch>)

  datatype Dispatch = Dispatch(i: nat, chunks: nat)

  /** `DataProtoFuture.chunk`: nothing is fetched, each future remembers its piece. */
  function ChunkFuture<V>(future: Future<V>, chunks: nat): (r: seq<Future<V>>)
    ensures |r| == chunks
  {
    seq(chunks, i requires 0 <= i < chunks => Future(future.futures, Some(Dispatch(i, chunks))))
  }

  /** `DataProtoFuture.get`. */
  ghost function Get<V>(future: Future<V>, padding: bool): Result<Data<V>> {
    var output := Concat(future.futures);
    if output.Err? || future.dispatch.None? then output
    else
      var Dispatch(i, chunks) := future.dispatch.value;
      if chunks == 0 || !Consistent(output.value) then Err(RuntimeError)
      else
        var pieces := Chunk(output.value, chunks, padding);
        if pieces.Err? then Err(pieces.error)
        else if i >= |pieces.value| then Err(IndexError)
        else Ok(pieces.value[i])
  }

  /** Each of the chunked futures gets its own piece of what the future itself would get. */
  lemma GetPiece<V>(future: Future<V>, d: Data<V>, n: nat, chunks: nat, padding: bool, i: nat)
    requires future.dispatch.None? && Get(future, padding) == Ok(d) && Aligned(d, n)
    requires chunks > 0 && i < chunks && Chunk(d, chunks, padding).Ok?
    ensures |Chunk(d, chunks, padding).value| == chunks
    ensures Get(ChunkFuture(future, chunks)[i], padding) == Ok(Chunk(d, chunks, padding).value[i])
  {
    ChunkIsPick(d, n, chunks, padding);
  }

  ghost predicate GetEach<V>(futures: seq<Future<V>>, padding: bool, ds: seq<Data<V>>) {
    |ds| == |futures| && forall i :: 0 <= i < |ds| ==> Get(futures[i], padding) == Ok(ds[i])
  }

  /**
   * Handing the results of one worker group to another through futures: every worker of the second group gets its
   * piece, `ds` together, and whatever the sizes of the groups the results concatenate to `g` of `f` of the data.
   */
  lemma FuturesCompose<V(!new), W(!new), X>(f: Data<V> -> Data<W>, g: Data<W> -> Data<X>, d: Data<V>, n: nat,
                                          first: nat, second: nat, padding: bool) returns (ds: seq<Data<W>>)
    requires RowWise(f) && RowWise(g) && Aligned(d, n) && first > 0 && second > 0
    requires Chunk(d, first, padding).Ok? && Aligned(f(d), n) && Chunk(f(d), second, padding).Ok?
    ensures GetEach(ChunkFuture(Future(Map(f, Chunk(d, first, padding).value), None), second), padding, ds)
    ensures Concat(ds) == Ok(f(d)) && Concat(Map(g, ds)) == Ok(g(f(d)))
  {
    var future := Future(Map(f, Chunk(d, first, padding).value), None);
    WorkOnChunks(f, d, n, first, padding);
    ds := Chunk(f(d), second, padding).value;
    ChunkIsPick(f(d), n, second, padding);
    forall i | 0 <= i < second ensures Get(ChunkFuture(future, second)[i], padding) == Ok(ds[i]) {
      GetPiece(future, f(d), n, second, padding, i);
    }
    ConcatUndoesChunk(f(d), n, second, padding);
    WorkOnChunks(g, f(d), n, second, padding);
  }
}
