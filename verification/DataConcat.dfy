/** `DataProto.concat`, and the two ways of taking a `DataProto` apart, `chunk` and `split`. */
module DataConcat {
  import opened Wrappers
  import opened Arith
  import opened Seqs
  import opened Tensors
  import opened Rows
  import opened DataProtos

  // ----- concat

  /** `torch.cat` of the tensor batches: every part must hold the same keys. */
  predicate Catable<V>(ds: seq<Data<V>>)
    requires ds != [] && ds[0].batch.Some?
  {
    forall i :: 0 <= i < |ds| ==> ds[i].batch.Some? && ds[i].batch.value.cols.Keys == ds[0].batch.value.cols.Keys
  }

  function BatchSizes<V>(ds: seq<Data<V>>): (sizes: seq<nat>)
    requires ds != [] && ds[0].batch.Some? && Catable(ds)
    ensures |sizes| == |ds|
  {
    seq(|ds|, i requires 0 <= i < |ds| => ds[i].batch.value.size)
  }

  function TensorColumn<V>(ds: seq<Data<V>>, k: Key): (ps: seq<seq<V>>)
    requires ds != [] && ds[0].batch.Some? && Catable(ds) && k in ds[0].batch.value.cols
    ensures |ps| == |ds|
  {
    seq(|ds|, i requires 0 <= i < |ds| => ds[i].batch.value.cols[k])
  }

  /** The numpy columns named `k`, in order; parts without one are passed over. */
  function NumpyColumn<V>(ds: seq<Data<V>>, k: Key): seq<seq<V>> {
    if ds == [] then []
    else (if k in ds[0].nonTensor then [ds[0].nonTensor[k]] else []) + NumpyColumn(ds[1..], k)
  }

  predicate NoStrayKeys<V>(ds: seq<Data<V>>)
    requires ds != []
  {
    forall i :: 0 <= i < |ds| ==> ds[i].nonTensor.Keys <= ds[0].nonTensor.Keys
  }

  /** `concat`. The first part decides whether there is a tensor batch and which numpy keys there are. */
  function Concat<V>(ds: seq<Data<V>>): Result<Data<V>> {
    if ds == [] then Err(IndexError)
    else if ds[0].batch.Some? && !Catable(ds) then Err(RuntimeError)
    else if !NoStrayKeys(ds) then Err(AssertionError)
    else
      var batch := if ds[0].batch.None? then None else
        Some(TensorDict(Sum(BatchSizes(ds)),
          map k | k in ds[0].batch.value.cols :: Flatten(TensorColumn(ds, k))));
      Build(batch, map k | k in ds[0].nonTensor :: Flatten(NumpyColumn(ds, k)))
  }

  lemma {:induction false} NumpyColumnOfAll<V>(ds: seq<Data<V>>, k: Key)
    requires forall i :: 0 <= i < |ds| ==> k in ds[i].nonTensor
    ensures NumpyColumn(ds, k) == seq(|ds|, i requires 0 <= i < |ds| => ds[i].nonTensor[k])
  {
    if ds != [] {
      NumpyColumnOfAll(ds[1..], k);
    }
  }

  lemma NumpyColumnOfPicks<V>(d: Data<V>, n: nat, parts: seq<seq<nat>>, k: Key)
    requires Aligned(d, n) && AllInRange(parts, n) && k in d.nonTensor
    ensures NumpyColumn(PickEach(d, n, parts), k) == GatherEach(d.nonTensor[k], parts)
  {
    var ds := PickEach(d, n, parts);
    assert forall i :: 0 <= i < |ds| ==> ds[i] == Pick(d, n, parts[i]);
    NumpyColumnOfAll(ds, k);
  }

  lemma TensorColumnOfPicks<V>(d: Data<V>, n: nat, parts: seq<seq<nat>>, ds: seq<Data<V>>, k: Key)
    requires Aligned(d, n) && AllInRange(parts, n) && parts != []
    requires d.batch.Some? && k in d.batch.value.cols && ds == PickEach(d, n, parts)
    ensures Catable(ds) && TensorColumn(ds, k) == GatherEach(d.batch.value.cols[k], parts)
  {
    assert forall i :: 0 <= i < |ds| ==> ds[i] == Pick(d, n, parts[i]);
  }

  lemma {:induction false} SumOfLengths(parts: seq<seq<nat>>, sizes: seq<nat>)
    requires |sizes| == |parts| && forall i :: 0 <= i < |parts| ==> sizes[i] == |parts[i]|
    ensures Sum(sizes) == |Flatten(parts)|
  {
    if parts != [] {
      SumOfLengths(parts[1..], sizes[1..]);
    }
  }

  lemma BatchOfPicks<V>(d: Data<V>, n: nat, parts: seq<seq<nat>>, ds: seq<Data<V>>)
    requires Aligned(d, n) && AllInRange(parts, n) && parts != []
    requires d.batch.Some? && ds == PickEach(d, n, parts)
    ensures Catable(ds) && Sum(BatchSizes(ds)) == |Flatten(parts)|
  {
    assert forall i :: 0 <= i < |ds| ==> ds[i] == Pick(d, n, parts[i]);
    SumOfLengths(parts, BatchSizes(ds));
  }

  /** Concatenating picks of one `DataProto` picks the concatenated rows out of every column. */
  lemma ConcatPicks<V>(d: Data<V>, n: nat, parts: seq<seq<nat>>)
    requires Aligned(d, n) && AllInRange(parts, n) && parts != []
    ensures InRange(Flatten(parts), n)
    ensures Concat(PickEach(d, n, parts)) == Ok(Pick(d, n, Flatten(parts)))
  {
    var idx := Flatten(parts);
    var ds := PickEach(d, n, parts);
    FlattenGathers(Range(0, n), parts);
    assert ds[0] == Pick(d, n, parts[0]);
    assert NoStrayKeys(ds) by {
      assert forall i :: 0 <= i < |ds| ==> ds[i] == Pick(d, n, parts[i]);
    }
    var nonTensor := map k | k in ds[0].nonTensor :: Flatten(NumpyColumn(ds, k));
    forall k | k in d.nonTensor ensures nonTensor[k] == Gather(d.nonTensor[k], idx) {
      NumpyColumnOfPicks(d, n, parts, k);
      FlattenGathers(d.nonTensor[k], parts);
    }
    if d.batch.Some? {
      BatchOfPicks(d, n, parts, ds);
      var cols := map k | k in ds[0].batch.value.cols :: Flatten(TensorColumn(ds, k));
      forall k | k in d.batch.value.cols ensures cols[k] == Gather(d.batch.value.cols[k], idx) {
        TensorColumnOfPicks(d, n, parts, ds, k);
        FlattenGathers(d.batch.value.cols[k], parts);
      }
      BuildPicked(Some(TensorDict(|idx|, cols)), nonTensor, d, n, idx);
    } else {
      BuildPicked(None, nonTensor, d, n, idx);
    }
  }

  // ----- concat of parts that do not hold the same numpy keys

  ghost predicate PartsAligned<V>(ds: seq<Data<V>>, ns: seq<nat>) {
    |ns| == |ds| && forall i :: 0 <= i < |ds| ==> Aligned(ds[i], ns[i])
  }

  /** Every part with a row holds a numpy column `k`. */
  ghost predicate InAllRows<V>(ds: seq<Data<V>>, ns: seq<nat>, k: Key)
    requires |ns| == |ds|
  {
    forall i :: 0 <= i < |ds| && ns[i] > 0 ==> k in ds[i].nonTensor
  }

  lemma {:induction false} NumpyColumnLength<V>(ds: seq<Data<V>>, ns: seq<nat>, k: Key)
    requires PartsAligned(ds, ns)
    ensures |Flatten(NumpyColumn(ds, k))| <= Sum(ns)
    ensures |Flatten(NumpyColumn(ds, k))| == Sum(ns) <==> InAllRows(ds, ns, k)
  {
    if ds != [] {
      var here := if k in ds[0].nonTensor then [ds[0].nonTensor[k]] else [];
      NumpyColumnLength(ds[1..], ns[1..], k);
      FlattenConcat(here, NumpyColumn(ds[1..], k));
      assert here != [] ==> Flatten(here) == here[0] + Flatten([]);
      assert InAllRows(ds, ns, k) <==> (ns[0] > 0 ==> k in ds[0].nonTensor) && InAllRows(ds[1..], ns[1..], k) by {
        assert forall i :: 1 <= i < |ds| ==> ds[i] == ds[1..][i - 1] && ns[i] == ns[1..][i - 1];
      }
    }
  }

  lemma BatchTotal<V>(ds: seq<Data<V>>, ns: seq<nat>)
    requires ds != [] && PartsAligned(ds, ns) && ds[0].batch.Some? && Catable(ds)
    ensures Sum(BatchSizes(ds)) == Sum(ns)
  {
    assert BatchSizes(ds) == ns;
  }

  /**
   * Concatenating aligned parts gives a value of all their rows exactly when every part with a row holds every numpy
   * column of the first part, and the first part has a column to hold rows in at all (or there are none). A tensor
   * batch makes the constructor refuse anything else.
   */
  lemma ConcatAlignedIff<V>(ds: seq<Data<V>>, ns: seq<nat>)
    requires ds != [] && PartsAligned(ds, ns) && Concat(ds).Ok?
    ensures Aligned(Concat(ds).value, Sum(ns)) <==>
      ((forall k :: k in ds[0].nonTensor ==> InAllRows(ds, ns, k))
       && (ds[0].batch.None? && ds[0].nonTensor.Keys == {} ==> Sum(ns) == 0))
    ensures ds[0].batch.Some? ==> Aligned(Concat(ds).value, Sum(ns))
  {
    var whole := Concat(ds).value;
    forall k | k in ds[0].nonTensor ensures |whole.nonTensor[k]| == Sum(ns) <==> InAllRows(ds, ns, k) {
      NumpyColumnLength(ds, ns, k);
    }
    if ds[0].batch.Some? {
      BatchTotal(ds, ns);
    }
  }

  /** Every numpy column of any part is one of the first part. */
  ghost predicate KnownKeys<V>(ds: seq<Data<V>>)
    requires ds != []
  {
    forall i, k :: 0 <= i < |ds| && k in ds[i].nonTensor ==> k in ds[0].nonTensor
  }

  /** Every part has a tensor batch with the tensor columns of the first part, no more and no fewer. */
  ghost predicate KnownTensors<V>(ds: seq<Data<V>>)
    requires ds != [] && ds[0].batch.Some?
  {
    forall i :: 0 <= i < |ds| ==>
      ds[i].batch.Some? && forall k :: k in ds[i].batch.value.cols <==> k in ds[0].batch.value.cols
  }

  lemma CatableIff<V>(ds: seq<Data<V>>)
    requires ds != [] && ds[0].batch.Some?
    ensures Catable(ds) <==> KnownTensors(ds)
  {
    if KnownTensors(ds) {
      forall i | 0 <= i < |ds|
        ensures ds[i].batch.Some? && ds[i].batch.value.cols.Keys == ds[0].batch.value.cols.Keys
      {
        assert forall k :: k in ds[i].batch.value.cols <==> k in ds[0].batch.value.cols;
      }
    }
  }

  lemma NoStrayIff<V>(ds: seq<Data<V>>)
    requires ds != []
    ensures NoStrayKeys(ds) <==> KnownKeys(ds)
  {
    if KnownKeys(ds) {
      forall i | 0 <= i < |ds| ensures ds[i].nonTensor.Keys <= ds[0].nonTensor.Keys {
        assert forall k :: k in ds[i].nonTensor ==> k in ds[0].nonTensor;
      }
    }
    if NoStrayKeys(ds) {
      forall i, k | 0 <= i < |ds| && k in ds[i].nonTensor ensures k in ds[0].nonTensor {
        assert k in ds[i].nonTensor.Keys;
      }
    }
  }

  /** Parts are refused when one has a numpy column the first lacks; and, if the first has a tensor batch, when one has
      other tensor columns, or a row without some numpy column of the first. */
  lemma ConcatOkIff<V>(ds: seq<Data<V>>, ns: seq<nat>)
    requires ds != [] && PartsAligned(ds, ns)
    ensures ds[0].batch.None? ==> (Concat(ds).Ok? <==> KnownKeys(ds))
    ensures ds[0].batch.Some? ==>
      (Concat(ds).Ok? <==> KnownKeys(ds) && KnownTensors(ds) && forall k :: k in ds[0].nonTensor ==> InAllRows(ds, ns, k))
  {
    NoStrayIff(ds);
    if ds[0].batch.Some? {
      CatableIff(ds);
    }
    if ds[0].batch.Some? && Catable(ds) {
      var cols := map k | k in ds[0].batch.value.cols :: Flatten(TensorColumn(ds, k));
      var arrays := map k | k in ds[0].nonTensor :: Flatten(NumpyColumn(ds, k));
      BatchTotal(ds, ns);
      ConcatBatchFits(ds, ns, cols);
      ConcatArraysFit(ds, ns, arrays);
    }
  }

  lemma ConcatBatchFits<V>(ds: seq<Data<V>>, ns: seq<nat>, cols: map<Key, seq<V>>)
    requires ds != [] && PartsAligned(ds, ns) && ds[0].batch.Some? && Catable(ds)
    requires cols == map k | k in ds[0].batch.value.cols :: Flatten(TensorColumn(ds, k))
    ensures Long(cols, Sum(ns))
  {
    forall k | k in cols ensures |cols[k]| == Sum(ns) {
      FlattenedLength(TensorColumn(ds, k), ns);
    }
  }

  lemma ConcatArraysFit<V>(ds: seq<Data<V>>, ns: seq<nat>, arrays: map<Key, seq<V>>)
    requires ds != [] && PartsAligned(ds, ns)
    requires arrays == map k | k in ds[0].nonTensor :: Flatten(NumpyColumn(ds, k))
    ensures Long(arrays, Sum(ns)) <==> forall k :: k in ds[0].nonTensor ==> InAllRows(ds, ns, k)
  {
    forall k | k in ds[0].nonTensor ensures k in arrays && (|arrays[k]| == Sum(ns) <==> InAllRows(ds, ns, k)) {
      NumpyColumnLength(ds, ns, k);
    }
  }

  lemma {:induction false} FlattenedLength<T>(ps: seq<seq<T>>, ns: seq<nat>)
    requires |ps| == |ns| && forall i :: 0 <= i < |ps| ==> |ps[i]| == ns[i]
    ensures |Flatten(ps)| == Sum(ns)
  {
    if ps != [] {
      FlattenedLength(ps[1..], ns[1..]);
    }
  }

  lemma NumpyColumnOfOne<V>(d: Data<V>, k: Key)
    ensures NumpyColumn([d], k) == if k in d.nonTensor then [d.nonTensor[k]] else []
  {
    assert [d][1..] == [];
  }

  /** Without a tensor batch nothing refuses a part that lacks a column: the column comes out short. */
  lemma ConcatMisaligns<V>(a: Key, b: Key, x: V)
    requires a != b
    ensures
      var whole := Concat([Data(None, map[a := [x], b := [x]]), Data(None, map[a := [x]])]);
      whole.Ok? && whole.value.nonTensor.Keys == {a, b} && whole.value.nonTensor[a] == [x, x]
      && whole.value.nonTensor[b] == [x]
  {
    var both, one := Data(None, map[a := [x], b := [x]]), Data(None, map[a := [x]]);
    var ds := [both, one];
    assert ds[1..] == [one] && [one][1..] == [];
    NumpyColumnOfOne(one, a);
    NumpyColumnOfOne(one, b);
    assert NumpyColumn(ds, a) == [[x], [x]] && NumpyColumn(ds, b) == [[x]];
    assert [[x], [x]][1..] == [[x]];
    assert Flatten([[x]]) == [x] + Flatten([]) == [x];
    assert Flatten([[x], [x]]) == [x] + [x];
    assert NoStrayKeys(ds);
  }

  // ----- chunk

  /** Rows per piece that `TensorDict.chunk` asks `split` for. */
  function ChunkSize(n: nat, chunks: nat): (size: nat)
    requires chunks > 0
    ensures n > 0 ==> size > 0
  {
    (n + chunks - 1) / chunks
  }

  /** The tensor pieces, and the sizes that then place numpy's cuts. */
  function TensorPiece<V>(td: TensorDict<V>, size: nat, sizes: seq<nat>, i: nat): TensorDict<V>
    requires Long(td.cols, td.size) && (td.size > 0 ==> size > 0)
    requires sizes == PieceSizes(td.size, size) && i < |sizes|
  {
    TensorDict(sizes[i], map k | k in td.cols :: SplitPiece(td.cols[k], size, i))
  }

  function SplitPiece<V>(xs: seq<V>, size: nat, i: nat): seq<V>
    requires (|xs| > 0 ==> size > 0) && i < |PieceSizes(|xs|, size)|
  {
    TorchSplitIsRanges(xs, 0, size, PieceSizes(|xs|, size));
    TorchSplit(xs, 0, size)[i]
  }

  function ArrayPiece<V>(cols: map<Key, seq<V>>, cuts: seq<nat>, i: nat): map<Key, seq<V>>
    requires i <= |cuts|
  {
    map k | k in cols :: ArraySplit(cols[k], 0, cuts)[i]
  }

  function SectionPiece<V>(cols: map<Key, seq<V>>, sections: nat, i: nat): map<Key, seq<V>>
    requires i < sections
  {
    map k | k in cols :: ArraySplit(cols[k], 0, InnerCuts(0, SectionSizes(|cols[k]|, sections)))[i]
  }

  /** `chunk`; `padding` is whether padding is enabled, which switches the divisibility check off. */
  ghost function Chunk<V>(d: Data<V>, chunks: nat, padding: bool): Result<seq<Data<V>>>
    requires chunks > 0 && Consistent(d)
  {
    if !padding && Len(d) % chunks != 0 then Err(AssertionError)
    else if d.batch.None? then Ok(seq(chunks, i requires 0 <= i < chunks => Data(None, SectionPiece(d.nonTensor, chunks, i))))
    else
      var td := d.batch.value;
      var size := ChunkSize(td.size, chunks);
      var sizes := PieceSizes(td.size, size);
      if |sizes| != chunks then Err(if d.nonTensor.Keys != {} then AssertionError else IndexError)
      else Ok(seq(chunks, i requires 0 <= i < chunks =>
                Data(Some(TensorPiece(td, size, sizes, i)), ArrayPiece(d.nonTensor, InnerCuts(0, sizes), i))))
  }

  /** The sizes of the pieces. */
  function ChunkSizes<V>(d: Data<V>, n: nat, chunks: nat): (sizes: seq<nat>)
    requires chunks > 0
  {
    if d.batch.Some? then PieceSizes(n, ChunkSize(n, chunks)) else SectionSizes(n, chunks)
  }

  lemma ChunkSizesSum<V>(d: Data<V>, n: nat, chunks: nat)
    requires chunks > 0
    ensures Sum(ChunkSizes(d, n, chunks)) == n && ChunkSizes(d, n, chunks) != []
    ensures d.batch.None? ==> |ChunkSizes(d, n, chunks)| == chunks
  {
    SectionSizesSum(n, chunks);
  }

  /** `ceil(n / size)` pieces: more than `c` of them exactly when `c` pieces do not hold all rows. */
  lemma {:induction false} PieceCount(n: nat, size: nat, c: nat)
    requires n > 0 && size > 0
    ensures |PieceSizes(n, size)| > c <==> Times(c, size) < n
    decreases n
  {
    if n > size && c > 0 {
      PieceCount(n - size, size, c - 1);
    }
  }

  /** The tensor path returns as many pieces as asked exactly when one piece fewer would not hold all rows. */
  predicate EnoughPieces(n: nat, chunks: nat)
    requires chunks > 0
  {
    chunks == 1 || (chunks - 1) * ChunkSize(n, chunks) < n
  }

  lemma PiecesAsAsked(n: nat, chunks: nat)
    requires chunks > 0
    ensures |PieceSizes(n, ChunkSize(n, chunks))| == chunks <==> EnoughPieces(n, chunks)
  {
    var size := ChunkSize(n, chunks);
    DivModBack(n + chunks - 1, chunks);
    TimesIsProduct(chunks, size);
    TimesIsProduct(chunks - 1, size);
    if n > 0 {
      PieceCount(n, size, chunks);
      PieceCount(n, size, chunks - 1);
      assert chunks * size >= n;
    } else {
      assert |PieceSizes(0, size)| == 1;
      assert (chunks - 1) * size >= 0;
    }
  }

  lemma EvenlyIsEnough(k: nat, chunks: nat)
    requires chunks > 0 && k > 0
    ensures ChunkSize(chunks * k, chunks) == k && EnoughPieces(chunks * k, chunks)
  {
    DivMod(chunks, k, chunks - 1);
    assert chunks * k == (chunks - 1) * k + k;
  }

  lemma SplitPieceIsGather<V>(xs: seq<V>, size: nat, sizes: seq<nat>, i: nat)
    requires (|xs| > 0 ==> size > 0) && sizes == PieceSizes(|xs|, size) && i < |sizes|
    ensures AllInRange(Ranges(0, sizes), |xs|) && SplitPiece(xs, size, i) == Gather(xs, Ranges(0, sizes)[i])
  {
    TorchSplitIsRanges(xs, 0, size, sizes);
  }

  lemma TensorPiecePicked<V>(td: TensorDict<V>, n: nat, size: nat, sizes: seq<nat>, i: nat)
    requires td.size == n && Long(td.cols, n) && (n > 0 ==> size > 0)
    requires sizes == PieceSizes(n, size) && i < |sizes|
    ensures AllInRange(Ranges(0, sizes), n) && |Ranges(0, sizes)[i]| == sizes[i]
    ensures TensorPiece(td, size, sizes, i) == TensorDict(sizes[i], PickCols(td.cols, n, Ranges(0, sizes)[i]))
  {
    RangesFacts(0, sizes, n);
    forall k | k in td.cols ensures SplitPiece(td.cols[k], size, i) == Gather(td.cols[k], Ranges(0, sizes)[i]) {
      SplitPieceIsGather(td.cols[k], size, sizes, i);
    }
  }

  lemma ArrayPiecePicked<V>(cols: map<Key, seq<V>>, n: nat, sizes: seq<nat>, i: nat)
    requires Long(cols, n) && sizes != [] && Sum(sizes) == n && i < |sizes|
    ensures AllInRange(Ranges(0, sizes), n)
    ensures ArrayPiece(cols, InnerCuts(0, sizes), i) == PickCols(cols, n, Ranges(0, sizes)[i])
  {
    RangesFacts(0, sizes, n);
    forall k | k in cols
      ensures ArraySplit(cols[k], 0, InnerCuts(0, sizes))[i] == Gather(cols[k], Ranges(0, sizes)[i])
    {
      ArraySplitIsRanges(cols[k], 0, sizes);
    }
  }

  /** Piece `i` of a chunk, from either library, holds the `i`-th consecutive range of rows. */
  lemma ChunkPiece<V>(d: Data<V>, n: nat, chunks: nat, padding: bool, i: nat)
    requires Aligned(d, n) && chunks > 0 && i < chunks
    requires Chunk(d, chunks, padding).Ok?
    ensures |ChunkSizes(d, n, chunks)| == chunks && AllInRange(Ranges(0, ChunkSizes(d, n, chunks)), n)
    ensures |Chunk(d, chunks, padding).value| == chunks
    ensures Chunk(d, chunks, padding).value[i] == Pick(d, n, Ranges(0, ChunkSizes(d, n, chunks))[i])
  {
    var sizes := ChunkSizes(d, n, chunks);
    ChunkSizesSum(d, n, chunks);
    RangesFacts(0, sizes, n);
    if d.batch.Some? {
      TensorPiecePicked(d.batch.value, n, ChunkSize(n, chunks), sizes, i);
      ArrayPiecePicked(d.nonTensor, n, sizes, i);
    } else {
      assert SectionPiece(d.nonTensor, chunks, i) == ArrayPiece(d.nonTensor, InnerCuts(0, sizes), i);
      ArrayPiecePicked(d.nonTensor, n, sizes, i);
    }
  }

  /** `chunk` succeeds exactly when its own check passes and torch returns as many pieces as asked. */
  lemma ChunkOkIff<V>(d: Data<V>, n: nat, chunks: nat, padding: bool)
    requires Aligned(d, n) && chunks > 0
    ensures Chunk(d, chunks, padding).Ok?
       <==> (padding || n % chunks == 0) && (d.batch.None? || EnoughPieces(n, chunks))
  {
    LenIsRows(d, n);
    PiecesAsAsked(n, chunks);
  }

  lemma ChunkIsPick<V>(d: Data<V>, n: nat, chunks: nat, padding: bool)
    requires Aligned(d, n) && chunks > 0 && Chunk(d, chunks, padding).Ok?
    ensures AllInRange(Ranges(0, ChunkSizes(d, n, chunks)), n) && |ChunkSizes(d, n, chunks)| == chunks
    ensures Chunk(d, chunks, padding).value == PickEach(d, n, Ranges(0, ChunkSizes(d, n, chunks)))
  {
    var parts := Ranges(0, ChunkSizes(d, n, chunks));
    ChunkPiece(d, n, chunks, padding, 0);
    forall i | 0 <= i < chunks ensures Chunk(d, chunks, padding).value[i] == Pick(d, n, parts[i]) {
      ChunkPiece(d, n, chunks, padding, i);
    }
  }

  lemma EvenSizes<V>(d: Data<V>, n: nat, chunks: nat)
    requires chunks > 0 && n % chunks == 0 && |ChunkSizes(d, n, chunks)| == chunks
    ensures forall i :: 0 <= i < chunks ==> ChunkSizes(d, n, chunks)[i] == n / chunks
  {
    DivModBack(n, chunks);
    if d.batch.Some? && n > 0 {
      if n / chunks <= 0 {
        MulMono(chunks, n / chunks, 0);
      }
      EvenlyIsEnough(n / chunks, chunks);
      TimesIsProduct(chunks, n / chunks);
      EvenPieces(chunks, n / chunks);
    }
  }

  /** The rows of piece `i`: the same for all if the chunks divide the rows; else torch fills all pieces but the last,
      and numpy gives one row more to the first ones. */
  predicate PieceRows(tensors: bool, n: nat, chunks: nat, i: nat, rows: nat)
    requires chunks > 0
  {
    && (n % chunks == 0 ==> rows == n / chunks)
    && (tensors && i < chunks - 1 ==> rows == (n + chunks - 1) / chunks)
    && (!tensors ==> rows == if i < n % chunks then n / chunks + 1 else n / chunks)
  }

  lemma SizesOfPieces<V>(d: Data<V>, n: nat, chunks: nat, sizes: seq<nat>, i: nat)
    requires chunks > 0 && sizes == ChunkSizes(d, n, chunks) && |sizes| == chunks && i < chunks
    ensures PieceRows(d.batch.Some?, n, chunks, i, sizes[i])
  {
    if d.batch.Some? {
      PieceSizesAre(n, ChunkSize(n, chunks));
    }
    if n % chunks == 0 {
      EvenSizes(d, n, chunks);
    }
  }

  lemma ChunkRows<V>(d: Data<V>, n: nat, chunks: nat, padding: bool, pieces: seq<Data<V>>, i: nat) returns (rows: nat)
    requires Aligned(d, n) && chunks > 0 && Chunk(d, chunks, padding) == Ok(pieces) && i < chunks
    ensures |pieces| == chunks && Aligned(pieces[i], rows) && PieceRows(d.batch.Some?, n, chunks, i, rows)
  {
    var sizes := ChunkSizes(d, n, chunks);
    ChunkPiece(d, n, chunks, padding, i);
    ChunkSizesSum(d, n, chunks);
    RangesFacts(0, sizes, n);
    SizesOfPieces(d, n, chunks, sizes, i);
    rows := sizes[i];
  }

  /** `concat` undoes every successful `chunk`, even or not. */
  lemma ConcatUndoesChunk<V>(d: Data<V>, n: nat, chunks: nat, padding: bool)
    requires Aligned(d, n) && chunks > 0 && Chunk(d, chunks, padding).Ok?
    ensures Concat(Chunk(d, chunks, padding).value) == Ok(d)
  {
    var sizes := ChunkSizes(d, n, chunks);
    ChunkIsPick(d, n, chunks, padding);
    ChunkSizesSum(d, n, chunks);
    RangesFacts(0, sizes, n);
    ConcatPicks(d, n, Ranges(0, sizes));
    PickAll(d, n);
  }

  /** `chunk`, computed. */
  method ChunkData<V>(d: Data<V>, chunks: nat, padding: bool, ghost n: nat) returns (r: Result<seq<Data<V>>>)
    requires chunks > 0 && Aligned(d, n)
    ensures r == Chunk(d, chunks, padding)
  {
    LenIsRows(d, n);
    var len := Length(d, n);
    if !padding && len % chunks != 0 {
      return Err(AssertionError);
    }
    if d.batch.None? {
      return Ok(seq(chunks, i requires 0 <= i < chunks => Data(None, SectionPiece(d.nonTensor, chunks, i))));
    }
    var td := d.batch.value;
    var size := ChunkSize(td.size, chunks);
    var sizes := PieceSizes(td.size, size);
    if |sizes| != chunks {
      return Err(if d.nonTensor.Keys != {} then AssertionError else IndexError);
    }
    r := Ok(seq(chunks, i requires 0 <= i < chunks =>
      Data(Some(TensorPiece(td, size, sizes, i)), ArrayPiece(d.nonTensor, InnerCuts(0, sizes), i))));
  }

  // ----- split

  /** `[self[i : i + size] for i in range(a, n, size)]`. */
  function SplitFrom<V>(d: Data<V>, a: nat, n: nat, size: nat): Result<seq<Data<V>>>
    requires size > 0 && Consistent(d)
    decreases n - a
  {
    if a >= n then Ok([])
    else
      var first := Slice(d, Some(a), Some(a + size), None);
      var rest := SplitFrom(d, a + size, n, size);
      if first.Err? then Err(first.error) else if rest.Err? then rest else Ok([first.value] + rest.value)
  }

  /** `split`: a negative size gives no piece at all. */
  ghost function Split<V>(d: Data<V>, size: int): Result<seq<Data<V>>>
    requires Consistent(d)
  {
    if size == 0 then Err(ValueError) else if size < 0 then Ok([]) else SplitFrom(d, 0, Len(d), size)
  }

  lemma SlicePiece<V>(d: Data<V>, n: nat, a: nat, size: nat)
    requires Aligned(d, n) && a < n
    ensures InRange(Range(a, if size < n - a then size else n - a), n)
    ensures Slice(d, Some(a), Some(a + size), None)
         == Ok(Pick(d, n, Range(a, if size < n - a then size else n - a)))
  {
    SliceIsPick(d, n, Some(a), Some(a + size), None);
    SliceBetween(n, a, a + size);
  }

  lemma SplitStep<V>(d: Data<V>, n: nat, a: nat, size: nat, rest: seq<Data<V>>)
    requires Aligned(d, n) && a < n && size > 0 && SplitFrom(d, a + size, n, size) == Ok(rest)
    ensures InRange(Range(a, if size < n - a then size else n - a), n)
    ensures SplitFrom(d, a, n, size) == Ok([Pick(d, n, Range(a, if size < n - a then size else n - a))] + rest)
  {
    SlicePiece(d, n, a, size);
  }

  lemma PickEachCons<V>(d: Data<V>, n: nat, part: seq<nat>, parts: seq<seq<nat>>)
    requires Aligned(d, n) && InRange(part, n) && AllInRange(parts, n)
    ensures AllInRange([part] + parts, n)
    ensures PickEach(d, n, [part] + parts) == [Pick(d, n, part)] + PickEach(d, n, parts)
  {
  }

  lemma {:induction false} SplitFromIsPick<V>(d: Data<V>, n: nat, a: nat, size: nat, sizes: seq<nat>)
    requires Aligned(d, n) && size > 0 && a < n && sizes == PieceSizes(n - a, size)
    ensures AllInRange(Ranges(a, sizes), n)
    ensures SplitFrom(d, a, n, size) == Ok(PickEach(d, n, Ranges(a, sizes)))
    decreases n - a
  {
    if size < n - a {
      var parts := Ranges(a + size, sizes[1..]);
      SplitFromIsPick(d, n, a + size, size, sizes[1..]);
      SplitStep(d, n, a, size, PickEach(d, n, parts));
      PickEachCons(d, n, Range(a, size), parts);
      assert Ranges(a, sizes) == [Range(a, size)] + parts;
    } else {
      SplitStep(d, n, a, size, []);
      PickEachCons(d, n, Range(a, n - a), []);
      assert Ranges(a, sizes) == [Range(a, n - a)] + [];
    }
  }

  /** A negative size gives no piece, and zero is refused. */
  lemma SplitOddSizes<V>(d: Data<V>, n: nat, size: int)
    requires Aligned(d, n) && size <= 0
    ensures Split(d, size) == if size == 0 then Err(ValueError) else Ok([])
  {
    LenIsRows(d, n);
  }

  lemma SplitIsPick<V>(d: Data<V>, n: nat, size: nat)
    requires Aligned(d, n) && size > 0
    ensures AllInRange(Ranges(0, if n == 0 then [] else PieceSizes(n, size)), n)
    ensures Split(d, size) == Ok(PickEach(d, n, Ranges(0, if n == 0 then [] else PieceSizes(n, size))))
  {
    LenIsRows(d, n);
    if n > 0 {
      SplitFromIsPick(d, n, 0, size, PieceSizes(n, size));
    }
  }

  /** `concat` undoes `split` on every `DataProto` with a row. */
  lemma ConcatUndoesSplit<V>(d: Data<V>, n: nat, size: nat)
    requires Aligned(d, n) && size > 0 && n > 0
    ensures Split(d, size).Ok? && Concat(Split(d, size).value) == Ok(d)
  {
    SplitIsPick(d, n, size);
    RangesFacts(0, PieceSizes(n, size), n);
    ConcatPicks(d, n, Ranges(0, PieceSizes(n, size)));
    PickAll(d, n);
  }
}
