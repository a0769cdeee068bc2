/**
 * `DataProto` as a value: a `TensorDict` of tensor columns beside a dictionary of numpy columns. Rows are opaque.
 * Every operation below is shown to pick the same rows, in the same order, out of every column.
 */
module DataProtos {
  import opened Wrappers
  import opened Arith
  import opened Seqs
  import opened Tensors
  import opened Rows

  type Key = string

  datatype Error = AssertionError | AttributeError | IndexError | RuntimeError | TypeError | ValueError

  datatype Result<+T> = Ok(value: T) | Err(error: Error)

  datatype TensorDict<V> = TensorDict(size: nat, cols: map<Key, seq<V>>)

  datatype Data<V> = Data(batch: Option<TensorDict<V>>, nonTensor: map<Key, seq<V>>)

  predicate Long<V>(cols: map<Key, seq<V>>, n: nat) {
    forall k :: k in cols ==> |cols[k]| == n
  }

  /** What the constructors check. Without a tensor batch nothing is checked about lengths. */
  predicate Consistent<V>(d: Data<V>) {
    d.batch.Some? ==> Long(d.batch.value.cols, d.batch.value.size) && Long(d.nonTensor, d.batch.value.size)
  }

  /** `d` has `n` rows: every column of either kind is `n` long. */
  predicate Aligned<V>(d: Data<V>, n: nat) {
    && Long(d.nonTensor, n)
    && (d.batch.Some? ==> d.batch.value.size == n && Long(d.batch.value.cols, n))
    && (d.batch.None? && d.nonTensor.Keys == {} ==> n == 0)
  }

  predicate HasColumn<V>(d: Data<V>) {
    d.nonTensor.Keys != {} || (d.batch.Some? && d.batch.value.cols.Keys != {})
  }

  /** `len`: the batch size, or the length of some non-tensor column. */
  ghost function Len<V>(d: Data<V>): nat {
    if d.batch.Some? then d.batch.value.size
    else if d.nonTensor.Keys != {} then var k :| k in d.nonTensor; |d.nonTensor[k]|
    else 0
  }

  lemma LenIsRows<V>(d: Data<V>, n: nat)
    requires Aligned(d, n)
    ensures Len(d) == n && Consistent(d)
  {
  }

  /** `len`, computed. */
  method Length<V>(d: Data<V>, ghost n: nat) returns (len: nat)
    requires Aligned(d, n)
    ensures len == n
  {
    if d.batch.Some? {
      len := d.batch.value.size;
    } else if d.nonTensor.Keys != {} {
      var k :| k in d.nonTensor.Keys;
      len := |d.nonTensor[k]|;
    } else {
      len := 0;
    }
  }

  /** `TensorDict(...)` and `DataProto(...)` with their checks. */
  function Build<V>(batch: Option<TensorDict<V>>, nonTensor: map<Key, seq<V>>): (r: Result<Data<V>>)
    ensures r.Ok? <==> Consistent(Data(batch, nonTensor))
    ensures r.Ok? ==> r.value == Data(batch, nonTensor)
    ensures r.Err? ==> r.error == if Long(batch.value.cols, batch.value.size) then AssertionError else RuntimeError
  {
    if batch.Some? && !Long(batch.value.cols, batch.value.size) then Err(RuntimeError)
    else if batch.Some? && !Long(nonTensor, batch.value.size) then Err(AssertionError)
    else Ok(Data(batch, nonTensor))
  }

  // ----- the reference: the same rows out of every column

  function PickCols<V>(cols: map<Key, seq<V>>, n: nat, idx: seq<nat>): (r: map<Key, seq<V>>)
    requires Long(cols, n) && InRange(idx, n)
    ensures r.Keys == cols.Keys && Long(r, |idx|)
  {
    map k | k in cols :: Gather(cols[k], idx)
  }

  function Pick<V>(d: Data<V>, n: nat, idx: seq<nat>): (r: Data<V>)
    requires Aligned(d, n) && InRange(idx, n)
    ensures Aligned(r, |idx|)
  {
    assert |idx| > 0 ==> idx[0] < n;
    var batch := if d.batch.None? then None else Some(TensorDict(|idx|, PickCols(d.batch.value.cols, n, idx)));
    Data(batch, PickCols(d.nonTensor, n, idx))
  }

  /** Cell `i` of every column is cell `r` of the same column of `from`. */
  predicate CellsFrom<V(==)>(cols: map<Key, seq<V>>, i: int, from: map<Key, seq<V>>, r: int) {
    cols.Keys == from.Keys && forall k :: k in from ==>
      0 <= i < |cols[k]| && 0 <= r < |from[k]| && cols[k][i] == from[k][r]
  }

  /** Row `i` of `out`, in every column of either kind, is row `r` of `d`. */
  predicate RowIs<V(==)>(out: Data<V>, i: int, d: Data<V>, r: int) {
    && out.batch.Some? == d.batch.Some? && CellsFrom(out.nonTensor, i, d.nonTensor, r)
    && (d.batch.Some? ==> CellsFrom(out.batch.value.cols, i, d.batch.value.cols, r))
  }

  lemma PickedRows<V>(d: Data<V>, n: nat, idx: seq<nat>)
    requires Aligned(d, n) && InRange(idx, n)
    ensures forall i :: 0 <= i < |idx| ==> RowIs(Pick(d, n, idx), i, d, idx[i])
  {
  }

  function PickEach<V>(d: Data<V>, n: nat, parts: seq<seq<nat>>): (r: seq<Data<V>>)
    requires Aligned(d, n) && AllInRange(parts, n)
    ensures |r| == |parts| && forall i :: 0 <= i < |parts| ==> r[i] == Pick(d, n, parts[i])
  {
    seq(|parts|, i requires 0 <= i < |parts| => Pick(d, n, parts[i]))
  }

  ghost predicate Picked<V>(cols: map<Key, seq<V>>, from: map<Key, seq<V>>, n: nat, idx: seq<nat>)
    requires Long(from, n) && InRange(idx, n)
  {
    cols.Keys == from.Keys && forall k :: k in from ==> cols[k] == Gather(from[k], idx)
  }

  lemma PickedCols<V>(cols: map<Key, seq<V>>, from: map<Key, seq<V>>, n: nat, idx: seq<nat>)
    requires Long(from, n) && InRange(idx, n) && Picked(cols, from, n, idx)
    ensures cols == PickCols(from, n, idx) && Long(cols, |idx|)
  {
  }

  lemma PickColsAll<V>(cols: map<Key, seq<V>>, n: nat)
    requires Long(cols, n)
    ensures PickCols(cols, n, Range(0, n)) == cols
  {
    assert forall k :: k in cols ==> Gather(cols[k], Range(0, n)) == cols[k];
  }

  lemma PickAll<V>(d: Data<V>, n: nat)
    requires Aligned(d, n)
    ensures InRange(Range(0, n), n) && Pick(d, n, Range(0, n)) == d
  {
    PickColsAll(d.nonTensor, n);
    if d.batch.Some? {
      PickColsAll(d.batch.value.cols, n);
    }
  }

  lemma PickColsTwice<V>(cols: map<Key, seq<V>>, n: nat, a: seq<nat>, b: seq<nat>)
    requires Long(cols, n) && InRange(a, n) && InRange(b, |a|)
    ensures InRange(Gather(a, b), n)
    ensures PickCols(PickCols(cols, n, a), |a|, b) == PickCols(cols, n, Gather(a, b))
  {
    forall k | k in cols ensures Gather(Gather(cols[k], a), b) == Gather(cols[k], Gather(a, b)) {
      GatherGather(cols[k], a, b);
    }
  }

  /** Picking rows of picked rows. */
  lemma PickTwice<V>(d: Data<V>, n: nat, a: seq<nat>, b: seq<nat>)
    requires Aligned(d, n) && InRange(a, n) && InRange(b, |a|)
    ensures InRange(Gather(a, b), n) && Pick(Pick(d, n, a), |a|, b) == Pick(d, n, Gather(a, b))
  {
    PickColsTwice(d.nonTensor, n, a, b);
    if d.batch.Some? {
      PickColsTwice(d.batch.value.cols, n, a, b);
    }
  }

  lemma BuildPicked<V>(batch: Option<TensorDict<V>>, nonTensor: map<Key, seq<V>>, d: Data<V>, n: nat, idx: seq<nat>)
    requires Aligned(d, n) && InRange(idx, n)
    requires batch.Some? == d.batch.Some?
    requires batch.Some? ==> batch.value.size == |idx| && Picked(batch.value.cols, d.batch.value.cols, n, idx)
    requires Picked(nonTensor, d.nonTensor, n, idx)
    ensures Build(batch, nonTensor) == Ok(Pick(d, n, idx))
  {
    PickedCols(nonTensor, d.nonTensor, n, idx);
    if batch.Some? {
      PickedCols(batch.value.cols, d.batch.value.cols, n, idx);
    }
  }

  /** A value without columns, of `rows` rows: nothing checks an index or a count against it. */
  function Resized<V>(d: Data<V>, rows: nat): Data<V> {
    Data(if d.batch.Some? then Some(TensorDict(rows, map[])) else None, map[])
  }

  // ----- indexing

  function Wrap(i: int, n: nat): int {
    if i < 0 then i + n else i
  }

  predicate ValidIndices(idxs: seq<int>, n: nat) {
    forall i :: 0 <= i < |idxs| ==> 0 <= idxs[i] + n < n + n
  }

  function WrapAll(idxs: seq<int>, n: nat): (idx: seq<nat>)
    requires ValidIndices(idxs, n)
    ensures |idx| == |idxs| && InRange(idx, n)
    ensures forall i :: 0 <= i < |idxs| ==> idx[i] == if idxs[i] < 0 then idxs[i] + n else idxs[i]
  {
    seq(|idxs|, i requires 0 <= i < |idxs| => Wrap(idxs[i], n))
  }

  /** `{key: val[idxs] for ...}`, each column checked against its own length. */
  function IndexCols<V>(cols: map<Key, seq<V>>, idxs: seq<int>): Result<map<Key, seq<V>>> {
    if forall k :: k in cols ==> ValidIndices(idxs, |cols[k]|)
    then Ok(map k | k in cols :: Gather(cols[k], WrapAll(idxs, |cols[k]|)))
    else Err(IndexError)
  }

  /** `select_idxs` with integers. */
  function SelectIdxs<V>(d: Data<V>, idxs: seq<int>): Result<Data<V>>
    requires Consistent(d)
  {
    var cols := IndexCols(if d.batch.Some? then d.batch.value.cols else map[], idxs);
    var nonTensor := IndexCols(d.nonTensor, idxs);
    if cols.Err? then Err(cols.error)
    else if nonTensor.Err? then Err(nonTensor.error)
    else Build(if d.batch.Some? then Some(TensorDict(|idxs|, cols.value)) else None, nonTensor.value)
  }

  lemma IndexColsPicked<V>(cols: map<Key, seq<V>>, n: nat, idxs: seq<int>)
    requires Long(cols, n)
    ensures ValidIndices(idxs, n) ==> IndexCols(cols, idxs) == Ok(PickCols(cols, n, WrapAll(idxs, n)))
    ensures !ValidIndices(idxs, n) && cols.Keys != {} ==> IndexCols(cols, idxs) == Err(IndexError)
    ensures cols.Keys == {} ==> IndexCols(cols, idxs) == Ok(map[])
  {
    if ValidIndices(idxs, n) {
      PickedCols(IndexCols(cols, idxs).value, cols, n, WrapAll(idxs, n));
    } else if cols.Keys != {} {
      var k :| k in cols;
      assert !ValidIndices(idxs, |cols[k]|);
    }
  }

  lemma SelectIsPick<V>(d: Data<V>, n: nat, idxs: seq<int>)
    requires Aligned(d, n)
    ensures HasColumn(d) && ValidIndices(idxs, n) ==> SelectIdxs(d, idxs) == Ok(Pick(d, n, WrapAll(idxs, n)))
    ensures HasColumn(d) && !ValidIndices(idxs, n) ==> SelectIdxs(d, idxs) == Err(IndexError)
    ensures !HasColumn(d) ==> SelectIdxs(d, idxs) == Ok(Resized(d, |idxs|))
  {
    IndexColsPicked(d.nonTensor, n, idxs);
    if d.batch.Some? {
      IndexColsPicked(d.batch.value.cols, n, idxs);
    }
  }

  /** `out` has a row for each index, in order, and negative indices count from the end. */
  ghost predicate RowsAt<V>(out: Data<V>, d: Data<V>, n: nat, idxs: seq<int>) {
    && Aligned(out, |idxs|)
    && forall i :: 0 <= i < |idxs| ==> RowIs(out, i, d, if idxs[i] < 0 then idxs[i] + n else idxs[i])
  }

  /** It succeeds when all indices are in range, and row `i` of the result is the row that index `i` names. */
  lemma SelectRows<V>(d: Data<V>, n: nat, idxs: seq<int>)
    requires Aligned(d, n) && HasColumn(d)
    ensures SelectIdxs(d, idxs).Ok? <==> forall i :: 0 <= i < |idxs| ==> 0 <= idxs[i] + n && idxs[i] < n
    ensures SelectIdxs(d, idxs).Ok? ==> RowsAt(SelectIdxs(d, idxs).value, d, n, idxs)
  {
    SelectIsPick(d, n, idxs);
    if ValidIndices(idxs, n) {
      PickedRows(d, n, WrapAll(idxs, n));
    }
  }

  /** The positions a boolean mask selects. */
  function MaskIndex(mask: seq<bool>): (idx: seq<nat>)
    ensures InRange(idx, |mask|)
  {
    if mask == [] then [] else
      var last := |mask| - 1;
      MaskIndex(mask[..last]) + if mask[last] then [last] else []
  }

  /** How many positions are true. */
  function Trues(mask: seq<bool>): nat {
    if mask == [] then 0 else Trues(mask[..|mask| - 1]) + if mask[|mask| - 1] then 1 else 0
  }

  /** Every true position is there, after as many as are true before it. */
  lemma {:induction false} MaskIndexAt(mask: seq<bool>, r: nat)
    ensures |MaskIndex(mask)| == Trues(mask)
    ensures r < |mask| && mask[r] ==> Trues(mask[..r]) < Trues(mask) && MaskIndex(mask)[Trues(mask[..r])] == r
  {
    if mask != [] {
      var last := |mask| - 1;
      MaskIndexAt(mask[..last], r);
      assert r < last ==> mask[..last][..r] == mask[..r];
    }
  }

  function MaskCols<V>(cols: map<Key, seq<V>>, mask: seq<bool>): Result<map<Key, seq<V>>> {
    if forall k :: k in cols ==> |cols[k]| == |mask| then Ok(map k | k in cols :: Gather(cols[k], MaskIndex(mask)))
    else Err(IndexError)
  }

  /** `select_idxs` with a boolean mask. */
  function SelectMask<V>(d: Data<V>, mask: seq<bool>): Result<Data<V>>
    requires Consistent(d)
  {
    var cols := MaskCols(if d.batch.Some? then d.batch.value.cols else map[], mask);
    var nonTensor := MaskCols(d.nonTensor, mask);
    if cols.Err? then Err(cols.error)
    else if nonTensor.Err? then Err(nonTensor.error)
    else Build(if d.batch.Some? then Some(TensorDict(|MaskIndex(mask)|, cols.value)) else None, nonTensor.value)
  }

  lemma MaskColsPicked<V>(cols: map<Key, seq<V>>, n: nat, mask: seq<bool>)
    requires Long(cols, n)
    ensures |mask| == n ==> MaskCols(cols, mask) == Ok(PickCols(cols, n, MaskIndex(mask)))
    ensures |mask| != n && cols.Keys != {} ==> MaskCols(cols, mask) == Err(IndexError)
    ensures cols.Keys == {} ==> MaskCols(cols, mask) == Ok(map[])
  {
    if |mask| != n && cols.Keys != {} {
      var k :| k in cols;
      assert |cols[k]| != |mask|;
    }
  }

  lemma MaskIsPick<V>(d: Data<V>, n: nat, mask: seq<bool>)
    requires Aligned(d, n)
    ensures HasColumn(d) && |mask| == n ==> SelectMask(d, mask) == Ok(Pick(d, n, MaskIndex(mask)))
    ensures HasColumn(d) && |mask| != n ==> SelectMask(d, mask) == Err(IndexError)
    ensures !HasColumn(d) ==> SelectMask(d, mask) == Ok(Resized(d, |MaskIndex(mask)|))
  {
    MaskColsPicked(d.nonTensor, n, mask);
    if d.batch.Some? {
      MaskColsPicked(d.batch.value.cols, n, mask);
    }
  }

  /** Whenever it succeeds, the rows at true positions stay, in order, and no other. */
  lemma MaskRows<V>(d: Data<V>, n: nat, mask: seq<bool>, r: nat)
    requires Aligned(d, n) && HasColumn(d) && SelectMask(d, mask).Ok?
    ensures |mask| == n && Aligned(SelectMask(d, mask).value, Trues(mask))
    ensures r < n && mask[r] ==> RowIs(SelectMask(d, mask).value, Trues(mask[..r]), d, r)
  {
    MaskIsPick(d, n, mask);
    MaskIndexAt(mask, r);
    PickedRows(d, n, MaskIndex(mask));
  }

  // ----- slicing

  function SliceCols<V>(cols: map<Key, seq<V>>, start: Option<int>, stop: Option<int>, step: int): map<Key, seq<V>>
    requires step != 0
  {
    map k | k in cols :: Gather(cols[k], SliceIndex(|cols[k]|, start, stop, step))
  }

  /** `slice`: torch refuses a negative step, numpy does not; nothing accepts a zero step. */
  function Slice<V>(d: Data<V>, start: Option<int>, stop: Option<int>, step: Option<int>): Result<Data<V>>
    requires Consistent(d)
  {
    var stride := if step.Some? then step.value else 1;
    if stride == 0 then if d.batch.Some? || d.nonTensor.Keys != {} then Err(ValueError) else Ok(d)
    else if stride < 0 && d.batch.Some? && d.batch.value.cols.Keys != {} then Err(ValueError)
    else
      var batch := if d.batch.None? then None else Some(
        TensorDict(|SliceIndex(d.batch.value.size, start, stop, stride)|, SliceCols(d.batch.value.cols, start, stop, stride)));
      Build(batch, SliceCols(d.nonTensor, start, stop, stride))
  }

  lemma SliceIsPick<V>(d: Data<V>, n: nat, start: Option<int>, stop: Option<int>, step: Option<int>)
    requires Aligned(d, n)
    requires step.Some? ==> step.value > 0 || (step.value < 0 && (d.batch.Some? ==> d.batch.value.cols.Keys == {}))
    ensures Slice(d, start, stop, step)
         == Ok(Pick(d, n, SliceIndex(n, start, stop, if step.Some? then step.value else 1)))
  {
    var stride := if step.Some? then step.value else 1;
    var idx := SliceIndex(n, start, stop, stride);
    assert Picked(SliceCols(d.nonTensor, start, stop, stride), d.nonTensor, n, idx);
    if d.batch.Some? {
      var cols := SliceCols(d.batch.value.cols, start, stop, stride);
      BuildPicked(Some(TensorDict(|idx|, cols)), SliceCols(d.nonTensor, start, stop, stride), d, n, idx);
    } else {
      BuildPicked(None, SliceCols(d.nonTensor, start, stop, stride), d, n, idx);
    }
  }

  /** When a slice is refused: on a zero step, or on a negative one if there is a tensor column. */
  lemma SliceOkIff<V>(d: Data<V>, n: nat, start: Option<int>, stop: Option<int>, step: int)
    requires Aligned(d, n)
    ensures Slice(d, start, stop, Some(step)).Ok? <==>
      if step == 0 then d.batch.None? && d.nonTensor.Keys == {}
      else step > 0 || d.batch.None? || d.batch.value.cols.Keys == {}
  {
    if step != 0 && (step > 0 || d.batch.None? || d.batch.value.cols.Keys == {}) {
      SliceIsPick(d, n, start, stop, Some(step));
    }
  }

  // ----- repeating

  /** `repeat`. */
  function Repeat<V>(d: Data<V>, times: nat, interleave: bool): Result<Data<V>>
    requires Consistent(d)
  {
    var batch := if d.batch.None? then None else
      var cols := d.batch.value.cols;
      Some(TensorDict(d.batch.value.size * times,
        map k | k in cols ::
          if interleave then TorchRepeat(cols[k], Copies(times, |cols[k]|)) else TorchTile(cols[k], times)));
    Build(batch,
      map k | k in d.nonTensor ::
        if interleave then NpRepeat(d.nonTensor[k], Copies(times, |d.nonTensor[k]|))
        else NpTile(d.nonTensor[k], times))
  }

  function RepeatRows(n: nat, times: nat, interleave: bool): (idx: seq<nat>)
    ensures InRange(idx, n)
  {
    if interleave then RepeatIndex(Copies(times, n)) else TileIndex(times, n)
  }

  lemma {:induction false} SumCopies(size: nat, n: nat)
    ensures Sum(Copies(size, n)) == Times(n, size)
  {
    if n > 0 {
      SumCopies(size, n - 1);
      assert Copies(size, n)[1..] == Copies(size, n - 1);
    }
  }

  lemma RepeatRowsLength(n: nat, times: nat, interleave: bool)
    ensures |RepeatRows(n, times, interleave)| == n * times
  {
    RepeatIndexLength(Copies(times, n));
    SumCopies(times, n);
    TimesIsProduct(n, times);
    TimesIsProduct(times, n);
  }

  lemma NpRepeatRows<V>(xs: seq<V>, times: nat, interleave: bool)
    ensures (if interleave then NpRepeat(xs, Copies(times, |xs|)) else NpTile(xs, times))
         == Gather(xs, RepeatRows(|xs|, times, interleave))
  {
    RepeatsAgree(xs, Copies(times, |xs|));
    TilesAgree(xs, times);
  }

  /** torch's and numpy's repeats pick the same rows, interleaved or tiled. */
  lemma RepeatIsPick<V>(d: Data<V>, n: nat, times: nat, interleave: bool)
    requires Aligned(d, n)
    ensures Repeat(d, times, interleave) == Ok(Pick(d, n, RepeatRows(n, times, interleave)))
  {
    var idx := RepeatRows(n, times, interleave);
    RepeatRowsLength(n, times, interleave);
    var nonTensor := map k | k in d.nonTensor ::
      if interleave then NpRepeat(d.nonTensor[k], Copies(times, |d.nonTensor[k]|)) else NpTile(d.nonTensor[k], times);
    forall k | k in d.nonTensor ensures nonTensor[k] == Gather(d.nonTensor[k], idx) {
      NpRepeatRows(d.nonTensor[k], times, interleave);
    }
    if d.batch.Some? {
      var cols := d.batch.value.cols;
      var repeated := map k | k in cols ::
        if interleave then TorchRepeat(cols[k], Copies(times, |cols[k]|)) else TorchTile(cols[k], times);
      assert Picked(repeated, cols, n, idx);
      BuildPicked(Some(TensorDict(n * times, repeated)), nonTensor, d, n, idx);
    } else {
      BuildPicked(None, nonTensor, d, n, idx);
    }
  }

  lemma InterleavedAt(n: nat, times: nat, r: nat)
    requires times > 0 && r < Times(n, times)
    ensures r < |RepeatIndex(Copies(times, n))| && RepeatIndex(Copies(times, n))[r] == r / times
  {
    var counts := Copies(times, n);
    RowPosition(r, n, times);
    var q, i := r / times, r % times;
    assert counts[..q] == Copies(times, q);
    SumCopies(times, q);
    RepeatIndexAt(counts, q, i);
  }

  lemma RepeatRowsAt(n: nat, times: nat, interleave: bool, r: nat)
    requires times > 0 && n > 0 && r < Times(n, times) == Times(times, n)
    ensures r < |RepeatRows(n, times, interleave)|
    ensures RepeatRows(n, times, interleave)[r] == if interleave then r / times else r % n
  {
    if interleave {
      InterleavedAt(n, times, r);
    }
  }

  lemma SomeRow(n: nat, times: nat, r: nat)
    requires r < n * times
    ensures times > 0 && n > 0 && r < Times(n, times) == Times(times, n)
  {
    TimesIsProduct(n, times);
    TimesIsProduct(times, n);
    assert n == 0 || times == 0 ==> n * times == 0;
  }

  /** Row `r` of the result is row `r / times` if interleaved, else row `r % n`. */
  lemma RepeatedRows<V>(d: Data<V>, n: nat, times: nat, interleave: bool, r: nat)
    requires Aligned(d, n) && r < n * times
    ensures Repeat(d, times, interleave).Ok? && Aligned(Repeat(d, times, interleave).value, n * times)
    ensures times > 0 && n > 0
    ensures RowIs(Repeat(d, times, interleave).value, r, d, if interleave then r / times else r % n)
  {
    RepeatIsPick(d, n, times, interleave);
    RepeatRowsLength(n, times, interleave);
    SomeRow(n, times, r);
    RepeatRowsAt(n, times, interleave, r);
    PickedRows(d, n, RepeatRows(n, times, interleave));
  }

  /** A single count is broadcast over all rows by both libraries. */
  function Broadcast(counts: seq<nat>, n: nat): (r: seq<nat>)
    requires |counts| == n || |counts| == 1
    ensures |r| == n
  {
    if |counts| == n then counts else Copies(counts[0], n)
  }

  predicate Repeatable<V>(cols: map<Key, seq<V>>, counts: seq<nat>) {
    forall k :: k in cols ==> |counts| == |cols[k]| || |counts| == 1
  }

  function TorchSampleCols<V>(cols: map<Key, seq<V>>, counts: seq<nat>): map<Key, seq<V>>
    requires Repeatable(cols, counts)
  {
    map k | k in cols :: TorchRepeat(cols[k], Broadcast(counts, |cols[k]|))
  }

  function NpSampleCols<V>(cols: map<Key, seq<V>>, counts: seq<nat>): map<Key, seq<V>>
    requires Repeatable(cols, counts)
  {
    map k | k in cols :: NpRepeat(cols[k], Broadcast(counts, |cols[k]|))
  }

  /** `sample_level_repeat`; the batch size is the sum of the counts as given. */
  function SampleRepeat<V>(d: Data<V>, counts: seq<nat>): Result<Data<V>>
    requires Consistent(d)
  {
    if d.batch.Some? && !Repeatable(d.batch.value.cols, counts) then Err(RuntimeError)
    else
      var batch := if d.batch.None? then None
        else Some(TensorDict(Sum(counts), TorchSampleCols(d.batch.value.cols, counts)));
      if batch.Some? && !Long(batch.value.cols, batch.value.size) then Err(RuntimeError)
      else if !Repeatable(d.nonTensor, counts) then Err(ValueError)
      else Build(batch, NpSampleCols(d.nonTensor, counts))
  }

  predicate SampleRepeatFits<V>(d: Data<V>, n: nat, counts: seq<nat>) {
    |counts| == n || (|counts| == 1 && (d.batch.None? || counts[0] == 0))
  }

  /** A broadcast count fits the declared batch size only when it is zero (or there is one row). */
  lemma BroadcastLength(n: nat, counts: seq<nat>)
    requires |counts| == n || |counts| == 1
    ensures (Sum(Broadcast(counts, n)) == Sum(counts)) == (|counts| == n || counts[0] == 0)
  {
    if |counts| == 1 {
      SumCopies(counts[0], n);
      TimesIsProduct(n, counts[0]);
      if n >= 2 && counts[0] > 0 {
        MulMono(counts[0], 2, n);
      }
    }
  }

  lemma SampleColsPicked<V>(cols: map<Key, seq<V>>, n: nat, counts: seq<nat>)
    requires Long(cols, n) && (|counts| == n || |counts| == 1)
    ensures Picked(TorchSampleCols(cols, counts), cols, n, RepeatIndex(Broadcast(counts, n)))
    ensures Picked(NpSampleCols(cols, counts), cols, n, RepeatIndex(Broadcast(counts, n)))
  {
    forall k | k in cols
      ensures NpSampleCols(cols, counts)[k] == Gather(cols[k], RepeatIndex(Broadcast(counts, n)))
    {
      RepeatsAgree(cols[k], Broadcast(counts, n));
    }
  }

  lemma SampleRepeatAccepts<V>(d: Data<V>, n: nat, counts: seq<nat>)
    requires Aligned(d, n) && SampleRepeatFits(d, n, counts)
    ensures SampleRepeat(d, counts) == Ok(Pick(d, n, RepeatIndex(Broadcast(counts, n))))
  {
    var idx := RepeatIndex(Broadcast(counts, n));
    RepeatIndexLength(Broadcast(counts, n));
    SampleColsPicked(d.nonTensor, n, counts);
    if d.batch.Some? {
      BroadcastLength(n, counts);
      SampleColsPicked(d.batch.value.cols, n, counts);
      var batch := TensorDict(Sum(counts), TorchSampleCols(d.batch.value.cols, counts));
      PickedCols(batch.cols, d.batch.value.cols, n, idx);
      BuildPicked(Some(batch), NpSampleCols(d.nonTensor, counts), d, n, idx);
    } else {
      BuildPicked(None, NpSampleCols(d.nonTensor, counts), d, n, idx);
    }
  }

  lemma NotLong<V>(cols: map<Key, seq<V>>, n: nat, m: nat)
    requires cols.Keys != {} && Long(cols, n) && n != m
    ensures !Long(cols, m)
  {
    var k :| k in cols;
    assert |cols[k]| == n;
  }

  lemma NotRepeatable<V>(cols: map<Key, seq<V>>, n: nat, counts: seq<nat>)
    requires cols.Keys != {} && Long(cols, n) && |counts| != n && |counts| != 1
    ensures !Repeatable(cols, counts)
  {
    var k :| k in cols;
    assert |cols[k]| == n;
  }

  lemma SampleRepeatRefuses<V>(d: Data<V>, n: nat, counts: seq<nat>)
    requires Aligned(d, n) && HasColumn(d) && !SampleRepeatFits(d, n, counts)
    ensures SampleRepeat(d, counts).Err?
  {
    if |counts| != 1 {
      if d.nonTensor.Keys != {} {
        NotRepeatable(d.nonTensor, n, counts);
      } else {
        NotRepeatable(d.batch.value.cols, n, counts);
      }
    } else {
      var idx := RepeatIndex(Broadcast(counts, n));
      BroadcastLength(n, counts);
      RepeatIndexLength(Broadcast(counts, n));
      SampleColsPicked(d.batch.value.cols, n, counts);
      SampleColsPicked(d.nonTensor, n, counts);
      PickedCols(TorchSampleCols(d.batch.value.cols, counts), d.batch.value.cols, n, idx);
      PickedCols(NpSampleCols(d.nonTensor, counts), d.nonTensor, n, idx);
      if d.batch.value.cols.Keys != {} {
        NotLong(TorchSampleCols(d.batch.value.cols, counts), |idx|, Sum(counts));
      } else {
        NotLong(NpSampleCols(d.nonTensor, counts), |idx|, Sum(counts));
      }
    }
  }

  /** `sample_level_repeat` picks every row as often as its count says, or refuses; without columns it cannot. */
  lemma SampleRepeatIsPick<V>(d: Data<V>, n: nat, counts: seq<nat>)
    requires Aligned(d, n)
    ensures SampleRepeatFits(d, n, counts) && HasColumn(d) ==>
      SampleRepeat(d, counts) == Ok(Pick(d, n, RepeatIndex(Broadcast(counts, n))))
    ensures !SampleRepeatFits(d, n, counts) && HasColumn(d) ==> SampleRepeat(d, counts).Err?
    ensures !HasColumn(d) ==> SampleRepeat(d, counts) == Ok(Resized(d, Sum(counts)))
  {
    if HasColumn(d) {
      if SampleRepeatFits(d, n, counts) {
        SampleRepeatAccepts(d, n, counts);
      } else {
        SampleRepeatRefuses(d, n, counts);
      }
    } else {
      assert NpSampleCols(d.nonTensor, counts) == map[];
      assert d.batch.Some? ==> TorchSampleCols(d.batch.value.cols, counts) == map[];
    }
  }

  /** Row `q` of the data is found after the copies of the rows before it, as often as its count says. */
  lemma SampledRows<V>(d: Data<V>, n: nat, counts: seq<nat>, out: Data<V>, q: nat, i: nat)
    requires Aligned(d, n) && HasColumn(d) && SampleRepeat(d, counts) == Ok(out) && q < n
    requires |counts| == n && i < counts[q]
    ensures Aligned(out, Sum(counts)) && RowIs(out, Sum(counts[..q]) + i, d, q)
  {
    SampleRepeatIsPick(d, n, counts);
    SampledRow(d, n, counts, out, q, i);
  }

  /** A single count is the count of every row. */
  lemma SampledEvenly<V>(d: Data<V>, n: nat, count: nat, out: Data<V>, q: nat, i: nat, at: nat)
    requires Aligned(d, n) && HasColumn(d) && SampleRepeat(d, [count]) == Ok(out) && q < n && i < count
    requires at == q * count + i
    ensures Aligned(out, n * count) && RowIs(out, at, d, q)
  {
    SampleRepeatIsPick(d, n, [count]);
    var all := Broadcast([count], n);
    BroadcastSums(count, n, q, all);
    SampledRow(d, n, all, out, q, i);
  }

  lemma SampledRow<V>(d: Data<V>, n: nat, all: seq<nat>, out: Data<V>, q: nat, i: nat)
    requires Aligned(d, n) && |all| == n && out == Pick(d, n, RepeatIndex(all)) && q < n && i < all[q]
    ensures Aligned(out, Sum(all)) && RowIs(out, Sum(all[..q]) + i, d, q)
  {
    RepeatIndexLength(all);
    RepeatIndexAt(all, q, i);
    PickedRows(d, n, RepeatIndex(all));
  }

  lemma BroadcastSums(size: nat, n: nat, q: nat, all: seq<nat>)
    requires q <= n && |all| == n && forall i :: 0 <= i < n ==> all[i] == size
    ensures Sum(all) == n * size && Sum(all[..q]) == q * size
  {
    assert all == Copies(size, n) && all[..q] == Copies(size, q);
    SumCopies(size, n);
    SumCopies(size, q);
    TimesIsProduct(n, size);
    TimesIsProduct(q, size);
  }
}
