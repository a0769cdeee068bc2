/**
 * Compositions of row operations on several `DataProto`s. Every row of a result is made of one row of each source
 * that takes part in it: all of that row's cells, tensor or not, and nothing else.
 */
module RowClosure {
  import opened Wrappers
  import opened Seqs
  import opened Rows
  import opened DataProtos
  import opened DataConcat
  import opened InPlace
  import opened Unions

  datatype Op =
    | Slicing(start: Option<int>, stop: Option<int>, step: Option<int>)
    | Selecting(idxs: seq<int>)
    | Masking(mask: seq<bool>)
    | Reordering(indices: seq<int>)
    | Repeating(times: nat, interleave: bool)
    | SampleRepeating(counts: seq<nat>)
    | PieceOfSplit(size: int, i: nat)
    | PieceOfChunk(chunks: nat, padding: bool, i: nat)

  datatype Expr =
    | Source(s: nat)
    | Applied(op: Op, e: Expr)
    | Concatenated(es: seq<Expr>)
    | United(e: Expr, other: Expr)

  ghost function Apply<V>(op: Op, d: Data<V>): Result<Data<V>>
    requires Consistent(d)
  {
    match op
    case Slicing(start, stop, step) => Slice(d, start, stop, step)
    case Selecting(idxs) => SelectIdxs(d, idxs)
    case Masking(mask) => SelectMask(d, mask)
    case Reordering(indices) => Reorder(d, indices)
    case Repeating(times, interleave) => Repeat(d, times, interleave)
    case SampleRepeating(counts) => SampleRepeat(d, counts)
    case PieceOfSplit(size, i) => Nth(Split(d, size), i)
    case PieceOfChunk(chunks, padding, i) => if chunks == 0 then Err(ValueError) else Nth(Chunk(d, chunks, padding), i)
  }

  function Nth<T>(pieces: Result<seq<T>>, i: nat): Result<T> {
    if pieces.Err? then Err(pieces.error) else if i < |pieces.value| then Ok(pieces.value[i]) else Err(IndexError)
  }

  /** The value of an expression on its sources. Operands are objects that passed the constructors' checks. */
  ghost function Eval<V>(e: Expr, srcs: seq<Data<V>>, same: (seq<V>, seq<V>) -> bool): Result<Data<V>> {
    match e
    case Source(s) => if s < |srcs| then Ok(srcs[s]) else Err(IndexError)
    case Concatenated(es) =>
      var ds := EvalAll(es, srcs, same);
      if ds.Err? then Err(ds.error) else Concat(ds.value)
    case United(a, b) =>
      var x, y := Eval(a, srcs, same), Eval(b, srcs, same);
      if x.Err? then x else if y.Err? then y else Union(x.value, y.value, same)
    case Applied(op, operand) =>
      var d := Eval(operand, srcs, same);
      if d.Err? then d else if Consistent(d.value) then Apply(op, d.value) else Err(AssertionError)
  }

  ghost function EvalAll<V>(es: seq<Expr>, srcs: seq<Data<V>>, same: (seq<V>, seq<V>) -> bool): Result<seq<Data<V>>> {
    if es == [] then Ok([])
    else
      var first, rest := Eval(es[0], srcs, same), EvalAll(es[1..], srcs, same);
      if first.Err? then Err(first.error) else if rest.Err? then rest else Ok([first.value] + rest.value)
  }

  // ----- each operation picks rows, or has no column to pick from

  lemma IndexingPicks<V>(op: Op, d: Data<V>, m: nat) returns (more: seq<nat>)
    requires Aligned(d, m) && HasColumn(d) && (op.Slicing? || op.Selecting? || op.Masking? || op.Reordering?)
    requires Apply(op, d).Ok?
    ensures InRange(more, m) && Apply(op, d) == Ok(Pick(d, m, more))
  {
    match op
    case Slicing(start, stop, step) =>
      SliceIsPick(d, m, start, stop, step);
      more := SliceIndex(m, start, stop, if step.Some? then step.value else 1);
    case Selecting(idxs) =>
      SelectIsPick(d, m, idxs);
      more := WrapAll(idxs, m);
    case Masking(mask) =>
      MaskIsPick(d, m, mask);
      more := MaskIndex(mask);
    case Reordering(indices) =>
      ReorderIsPick(d, m, indices);
      more := WrapAll(indices, m);
  }

  lemma RepeatingPicks<V>(op: Op, d: Data<V>, m: nat) returns (more: seq<nat>)
    requires Aligned(d, m) && HasColumn(d) && (op.Repeating? || op.SampleRepeating?)
    requires Apply(op, d).Ok?
    ensures InRange(more, m) && Apply(op, d) == Ok(Pick(d, m, more))
  {
    match op
    case Repeating(times, interleave) =>
      RepeatIsPick(d, m, times, interleave);
      more := RepeatRows(m, times, interleave);
    case SampleRepeating(counts) =>
      SampleRepeatIsPick(d, m, counts);
      more := RepeatIndex(Broadcast(counts, m));
  }

  lemma SplittingPicks<V>(op: Op, d: Data<V>, m: nat) returns (more: seq<nat>)
    requires Aligned(d, m) && (op.PieceOfSplit? || op.PieceOfChunk?)
    requires Apply(op, d).Ok?
    ensures InRange(more, m) && Apply(op, d) == Ok(Pick(d, m, more))
  {
    match op
    case PieceOfSplit(size, i) =>
      SplitIsPick(d, m, size);
      more := Ranges(0, if m == 0 then [] else PieceSizes(m, size))[i];
    case PieceOfChunk(chunks, padding, i) =>
      ChunkIsPick(d, m, chunks, padding);
      more := Ranges(0, ChunkSizes(d, m, chunks))[i];
  }

  lemma ApplyPicks<V>(op: Op, d: Data<V>, m: nat) returns (more: seq<nat>)
    requires Aligned(d, m) && HasColumn(d) && Apply(op, d).Ok?
    ensures InRange(more, m) && Apply(op, d) == Ok(Pick(d, m, more))
  {
    if op.Repeating? || op.SampleRepeating? {
      more := RepeatingPicks(op, d, m);
    } else if op.PieceOfSplit? || op.PieceOfChunk? {
      more := SplittingPicks(op, d, m);
    } else {
      more := IndexingPicks(op, d, m);
    }
  }

  /** A value without columns stays one, of some number of rows. */
  lemma ApplyWithoutColumns<V>(op: Op, d: Data<V>, m: nat) returns (rows: nat)
    requires Aligned(d, m) && !HasColumn(d) && Apply(op, d).Ok?
    ensures Apply(op, d) == Ok(Resized(d, rows))
  {
    match op
    case Slicing(start, stop, step) =>
      if step.Some? && step.value == 0 {
        rows := 0;
      } else {
        SliceIsPick(d, m, start, stop, step);
        rows := |SliceIndex(m, start, stop, if step.Some? then step.value else 1)|;
      }
    case Selecting(idxs) =>
      SelectIsPick(d, m, idxs);
      rows := |idxs|;
    case Masking(mask) =>
      MaskIsPick(d, m, mask);
      rows := |MaskIndex(mask)|;
    case Reordering(indices) =>
      ReorderIsPick(d, m, indices);
      rows := |indices|;
    case Repeating(times, interleave) =>
      RepeatIsPick(d, m, times, interleave);
      rows := |RepeatRows(m, times, interleave)|;
    case SampleRepeating(counts) =>
      SampleRepeatIsPick(d, m, counts);
      rows := Sum(counts);
    case _ =>
      var more := SplittingPicks(op, d, m);
      rows := |more|;
  }

  // ----- what a row is made of

  /** For every source that takes part in a row, the row of that source. */
  type Origin = map<nat, nat>

  predicate WithinSources(ns: seq<nat>, row: Origin) {
    forall s :: s in row ==> s < |ns| && row[s] < ns[s]
  }

  predicate Dicts<V>(dicts: seq<map<Key, seq<V>>>, ns: seq<nat>) {
    |dicts| == |ns| && forall s :: 0 <= s < |ns| ==> Long(dicts[s], ns[s])
  }

  /** `v` is the cell under `k` of every source row in `row` that has one, and some has one. */
  ghost predicate CellFrom<V>(dicts: seq<map<Key, seq<V>>>, ns: seq<nat>, k: Key, v: V, row: Origin)
    requires Dicts(dicts, ns) && WithinSources(ns, row)
  {
    && (forall s :: s in row && k in dicts[s] ==> v == dicts[s][k][row[s]])
    && (exists s :: s in row && k in dicts[s])
  }

  ghost predicate CellsFrom<V>(dicts: seq<map<Key, seq<V>>>, ns: seq<nat>, k: Key, col: seq<V>, rows: seq<Origin>)
    requires Dicts(dicts, ns)
  {
    |col| == |rows| && forall i :: 0 <= i < |rows| ==> WithinSources(ns, rows[i]) && CellFrom(dicts, ns, k, col[i], rows[i])
  }

  /** All columns of the sources that take part in a row are there. */
  ghost predicate Complete<V>(dicts: seq<map<Key, seq<V>>>, ns: seq<nat>, keys: set<Key>, row: Origin)
    requires |dicts| == |ns|
  {
    WithinSources(ns, row) && forall s :: s in row ==> dicts[s].Keys <= keys
  }

  /** The columns of one kind, row by row: every cell is from the sources of its row, and none is missing. */
  ghost predicate ColsMade<V>(dicts: seq<map<Key, seq<V>>>, ns: seq<nat>, cols: map<Key, seq<V>>, rows: seq<Origin>)
    requires Dicts(dicts, ns)
  {
    && (forall k :: k in cols ==> CellsFrom(dicts, ns, k, cols[k], rows))
    && (forall i :: 0 <= i < |rows| ==> Complete(dicts, ns, cols.Keys, rows[i]))
  }

  lemma MadeLong<V>(dicts: seq<map<Key, seq<V>>>, ns: seq<nat>, cols: map<Key, seq<V>>, rows: seq<Origin>)
    requires Dicts(dicts, ns) && ColsMade(dicts, ns, cols, rows)
    ensures Long(cols, |rows|)
  {
    forall k | k in cols ensures |cols[k]| == |rows| {
      assert CellsFrom(dicts, ns, k, cols[k], rows);
    }
  }

  // ----- picking

  lemma PickMade<V>(dicts: seq<map<Key, seq<V>>>, ns: seq<nat>, cols: map<Key, seq<V>>, rows: seq<Origin>, idx: seq<nat>)
    requires Dicts(dicts, ns) && ColsMade(dicts, ns, cols, rows) && InRange(idx, |rows|)
    ensures Long(cols, |rows|) && ColsMade(dicts, ns, PickCols(cols, |rows|, idx), Gather(rows, idx))
  {
    MadeLong(dicts, ns, cols, rows);
    forall k | k in cols ensures CellsFrom(dicts, ns, k, Gather(cols[k], idx), Gather(rows, idx)) {
      assert CellsFrom(dicts, ns, k, cols[k], rows);
    }
  }

  // ----- union

  /** The sources of both rows; a source of both sides counts with its row on the first. */
  function Both(a: Origin, b: Origin): Origin {
    b + a
  }

  function BothRows(a: seq<Origin>, b: seq<Origin>): (rows: seq<Origin>)
    requires |a| == |b|
    ensures |rows| == |a| && forall i :: 0 <= i < |a| ==> rows[i] == Both(a[i], b[i])
  {
    seq(|a|, i requires 0 <= i < |a| => Both(a[i], b[i]))
  }

  lemma BothCell<V>(dicts: seq<map<Key, seq<V>>>, ns: seq<nat>, k: Key, v: V, keysA: set<Key>, keysB: set<Key>,
                    a: Origin, b: Origin)
    requires Dicts(dicts, ns) && Complete(dicts, ns, keysA, a) && Complete(dicts, ns, keysB, b) && k in keysA + keysB
    requires k in keysA ==> CellFrom(dicts, ns, k, v, a)
    requires k in keysB ==> CellFrom(dicts, ns, k, v, b)
    ensures WithinSources(ns, Both(a, b)) && CellFrom(dicts, ns, k, v, Both(a, b))
  {
    forall s | s in Both(a, b) && k in dicts[s] ensures v == dicts[s][k][Both(a, b)[s]] {
      if s in a {
        assert k in keysA;
      } else {
        assert k in keysB;
      }
    }
    if k in keysA {
      var s :| s in a && k in dicts[s];
      assert s in Both(a, b);
    } else {
      var s :| s in b && k in dicts[s];
      assert s in Both(a, b);
    }
  }

  lemma BothColumn<V>(dicts: seq<map<Key, seq<V>>>, ns: seq<nat>, a: map<Key, seq<V>>, b: map<Key, seq<V>>,
                      ra: seq<Origin>, rb: seq<Origin>, k: Key)
    requires Dicts(dicts, ns) && ColsMade(dicts, ns, a, ra) && ColsMade(dicts, ns, b, rb) && |ra| == |rb|
    requires Agree(a, b) && k in a + b
    ensures CellsFrom(dicts, ns, k, (a + b)[k], BothRows(ra, rb))
  {
    var col, rows := (a + b)[k], BothRows(ra, rb);
    assert k in a ==> col == a[k] && CellsFrom(dicts, ns, k, a[k], ra) by {
      assert k in a && k in b ==> Equal(a[k], b[k]);
    }
    assert k in b ==> col == b[k] && CellsFrom(dicts, ns, k, b[k], rb);
    forall i | 0 <= i < |rows| ensures WithinSources(ns, rows[i]) && CellFrom(dicts, ns, k, col[i], rows[i]) {
      BothCell(dicts, ns, k, col[i], a.Keys, b.Keys, ra[i], rb[i]);
    }
  }

  lemma UnionMade<V>(dicts: seq<map<Key, seq<V>>>, ns: seq<nat>, a: map<Key, seq<V>>, b: map<Key, seq<V>>,
                     ra: seq<Origin>, rb: seq<Origin>)
    requires Dicts(dicts, ns) && ColsMade(dicts, ns, a, ra) && ColsMade(dicts, ns, b, rb) && |ra| == |rb|
    requires Agree(a, b)
    ensures ColsMade(dicts, ns, a + b, BothRows(ra, rb))
  {
    var rows := BothRows(ra, rb);
    forall k | k in a + b ensures CellsFrom(dicts, ns, k, (a + b)[k], rows) {
      BothColumn(dicts, ns, a, b, ra, rb, k);
    }
    forall i | 0 <= i < |rows| ensures Complete(dicts, ns, (a + b).Keys, rows[i]) {
      assert Complete(dicts, ns, a.Keys, ra[i]) && Complete(dicts, ns, b.Keys, rb[i]);
    }
  }

  // ----- concat

  lemma AppendCells<V>(dicts: seq<map<Key, seq<V>>>, ns: seq<nat>, k: Key, c1: seq<V>, r1: seq<Origin>,
                       c2: seq<V>, r2: seq<Origin>)
    requires Dicts(dicts, ns) && CellsFrom(dicts, ns, k, c1, r1) && CellsFrom(dicts, ns, k, c2, r2)
    ensures CellsFrom(dicts, ns, k, c1 + c2, r1 + r2)
  {
  }

  /** The pieces of one column, each with its rows; a piece that is missing has none. */
  lemma {:induction false} FlattenCells<V>(dicts: seq<map<Key, seq<V>>>, ns: seq<nat>, k: Key, pieces: seq<seq<V>>,
                                          rows: seq<seq<Origin>>)
    requires Dicts(dicts, ns) && |pieces| == |rows|
    requires forall j :: 0 <= j < |rows| ==> CellsFrom(dicts, ns, k, pieces[j], rows[j])
    ensures CellsFrom(dicts, ns, k, Flatten(pieces), Flatten(rows))
  {
    if rows != [] {
      FlattenCells(dicts, ns, k, pieces[1..], rows[1..]);
      AppendCells(dicts, ns, k, pieces[0], rows[0], Flatten(pieces[1..]), Flatten(rows[1..]));
    }
  }

  lemma {:induction false} FlattenComplete<V>(dicts: seq<map<Key, seq<V>>>, ns: seq<nat>, keys: set<Key>,
                                             rows: seq<seq<Origin>>, i: nat)
    requires Dicts(dicts, ns) && i < |Flatten(rows)|
    requires forall j, r :: 0 <= j < |rows| && 0 <= r < |rows[j]| ==> Complete(dicts, ns, keys, rows[j][r])
    ensures Complete(dicts, ns, keys, Flatten(rows)[i])
  {
    if i >= |rows[0]| {
      FlattenComplete(dicts, ns, keys, rows[1..], i - |rows[0]|);
    }
  }

  function ArrayOrNone<V>(d: Data<V>, k: Key): seq<V> {
    if k in d.nonTensor then d.nonTensor[k] else []
  }

  function ArrayPieces<V>(ds: seq<Data<V>>, k: Key): (ps: seq<seq<V>>)
    ensures |ps| == |ds|
  {
    seq(|ds|, j requires 0 <= j < |ds| => ArrayOrNone(ds[j], k))
  }

  /** A missing array counts as one without rows. */
  lemma {:induction false} MissingIsEmpty<V>(ds: seq<Data<V>>, k: Key)
    ensures Flatten(NumpyColumn(ds, k)) == Flatten(ArrayPieces(ds, k))
  {
    if ds != [] {
      MissingIsEmpty(ds[1..], k);
      var here := if k in ds[0].nonTensor then [ds[0].nonTensor[k]] else [];
      FlattenConcat(here, NumpyColumn(ds[1..], k));
      assert here != [] ==> Flatten(here) == here[0] + Flatten([]);
      assert ArrayPieces(ds, k)[1..] == ArrayPieces(ds[1..], k);
    }
  }

  // ----- whole values

  /** The sources: `ns[s]` rows each, all with a tensor batch, or none with one and the same arrays in all. */
  ghost predicate Sources<V>(srcs: seq<Data<V>>, ns: seq<nat>, tensors: bool) {
    && |ns| == |srcs| && (forall s :: 0 <= s < |srcs| ==> Aligned(srcs[s], ns[s]) && srcs[s].batch.Some? == tensors)
    && (!tensors ==> forall s, t :: 0 <= s < |srcs| && 0 <= t < |srcs| ==> srcs[s].nonTensor.Keys == srcs[t].nonTensor.Keys)
  }

  function Tensors<V>(d: Data<V>): map<Key, seq<V>> {
    if d.batch.Some? then d.batch.value.cols else map[]
  }

  function TensorDicts<V>(srcs: seq<Data<V>>): (dicts: seq<map<Key, seq<V>>>)
    ensures |dicts| == |srcs| && forall s :: 0 <= s < |srcs| ==> dicts[s] == Tensors(srcs[s])
  {
    seq(|srcs|, s requires 0 <= s < |srcs| => Tensors(srcs[s]))
  }

  function ArrayDicts<V>(srcs: seq<Data<V>>): (dicts: seq<map<Key, seq<V>>>)
    ensures |dicts| == |srcs| && forall s :: 0 <= s < |srcs| ==> dicts[s] == srcs[s].nonTensor
  {
    seq(|srcs|, s requires 0 <= s < |srcs| => srcs[s].nonTensor)
  }

  lemma SourceDicts<V>(srcs: seq<Data<V>>, ns: seq<nat>, tensors: bool)
    requires Sources(srcs, ns, tensors)
    ensures Dicts(TensorDicts(srcs), ns) && Dicts(ArrayDicts(srcs), ns)
  {
  }

  /** The keys are those of some of the sources. */
  ghost predicate HasKeys<V>(srcs: seq<Data<V>>, tensorKeys: set<Key>, arrayKeys: set<Key>) {
    exists parts: set<nat> :: KeysOf(srcs, tensorKeys, arrayKeys, parts)
  }

  ghost predicate KeysOf<V>(srcs: seq<Data<V>>, tensorKeys: set<Key>, arrayKeys: set<Key>, parts: set<nat>) {
    && parts != {} && (forall s :: s in parts ==> s < |srcs|)
    && (forall k :: k in tensorKeys <==> exists s :: s in parts && k in Tensors(srcs[s]))
    && (forall k :: k in arrayKeys <==> exists s :: s in parts && k in srcs[s].nonTensor)
  }

  lemma UnionKeys<V>(srcs: seq<Data<V>>, t1: set<Key>, a1: set<Key>, t2: set<Key>, a2: set<Key>)
    requires HasKeys(srcs, t1, a1) && HasKeys(srcs, t2, a2)
    ensures HasKeys(srcs, t1 + t2, a1 + a2)
  {
    var p1: set<nat> :| KeysOf(srcs, t1, a1, p1);
    var p2: set<nat> :| KeysOf(srcs, t2, a2, p2);
    assert KeysOf(srcs, t1 + t2, a1 + a2, p1 + p2);
  }

  /** Sources without a tensor batch hold the same arrays, so everything made of them does. */
  lemma SameArrays<V>(srcs: seq<Data<V>>, ns: seq<nat>, tensorKeys: set<Key>, arrayKeys: set<Key>)
    requires Sources(srcs, ns, false) && HasKeys(srcs, tensorKeys, arrayKeys)
    ensures srcs != [] && arrayKeys == srcs[0].nonTensor.Keys
  {
    var parts: set<nat> :| KeysOf(srcs, tensorKeys, arrayKeys, parts);
    var s :| s in parts;
    assert srcs[s].nonTensor.Keys == srcs[0].nonTensor.Keys;
  }

  /** Row `i` of `d` is made of row `rows[i][s]` of each source `s` in `rows[i]`, whole, and of nothing else. */
  ghost predicate Made<V>(srcs: seq<Data<V>>, ns: seq<nat>, tensors: bool, d: Data<V>, rows: seq<Origin>)
    requires Sources(srcs, ns, tensors)
  {
    SourceDicts(srcs, ns, tensors);
    && Aligned(d, |rows|) && d.batch.Some? == tensors
    && ColsMade(TensorDicts(srcs), ns, Tensors(d), rows) && ColsMade(ArrayDicts(srcs), ns, d.nonTensor, rows)
    && HasKeys(srcs, Tensors(d).Keys, d.nonTensor.Keys)
  }

  ghost predicate IsMade<V>(srcs: seq<Data<V>>, ns: seq<nat>, tensors: bool, d: Data<V>)
    requires Sources(srcs, ns, tensors)
  {
    exists rows: seq<Origin> :: Made(srcs, ns, tensors, d, rows)
  }

  lemma SourceMade<V>(srcs: seq<Data<V>>, ns: seq<nat>, tensors: bool, s: nat)
    requires Sources(srcs, ns, tensors) && s < |srcs|
    ensures Made(srcs, ns, tensors, srcs[s], seq(ns[s], i requires 0 <= i < ns[s] => map[s := i]))
  {
    var rows: seq<Origin> := seq(ns[s], i requires 0 <= i < ns[s] => map[s := i]);
    SourceDicts(srcs, ns, tensors);
    SourceCols(TensorDicts(srcs), ns, s, rows);
    SourceCols(ArrayDicts(srcs), ns, s, rows);
    assert KeysOf(srcs, Tensors(srcs[s]).Keys, srcs[s].nonTensor.Keys, {s});
  }

  lemma SourceCols<V>(dicts: seq<map<Key, seq<V>>>, ns: seq<nat>, s: nat, rows: seq<Origin>)
    requires Dicts(dicts, ns) && s < |ns| && |rows| == ns[s] && forall i :: 0 <= i < |rows| ==> rows[i] == map[s := i]
    ensures ColsMade(dicts, ns, dicts[s], rows)
  {
    forall k | k in dicts[s] ensures CellsFrom(dicts, ns, k, dicts[s][k], rows) {
      forall i | 0 <= i < |rows| ensures WithinSources(ns, rows[i]) && CellFrom(dicts, ns, k, dicts[s][k][i], rows[i]) {
        assert s in rows[i] && k in dicts[s];
      }
    }
  }

  lemma ApplyMade<V>(op: Op, d: Data<V>, srcs: seq<Data<V>>, ns: seq<nat>, tensors: bool)
    requires Sources(srcs, ns, tensors) && IsMade(srcs, ns, tensors, d) && Consistent(d) && Apply(op, d).Ok?
    ensures IsMade(srcs, ns, tensors, Apply(op, d).value)
  {
    var rows: seq<Origin> :| Made(srcs, ns, tensors, d, rows);
    SourceDicts(srcs, ns, tensors);
    if HasColumn(d) {
      var more := ApplyPicks(op, d, |rows|);
      PickMade(TensorDicts(srcs), ns, Tensors(d), rows, more);
      PickMade(ArrayDicts(srcs), ns, d.nonTensor, rows, more);
      assert Made(srcs, ns, tensors, Pick(d, |rows|, more), Gather(rows, more));
    } else {
      var n := ApplyWithoutColumns(op, d, |rows|);
      var none: seq<Origin> := seq(if tensors then n else 0, _ => map[]);
      assert Made(srcs, ns, tensors, Resized(d, n), none);
    }
  }

  lemma UnitedMade<V(!new)>(a: Data<V>, b: Data<V>, srcs: seq<Data<V>>, ns: seq<nat>, tensors: bool,
                            same: (seq<V>, seq<V>) -> bool)
    requires Sources(srcs, ns, tensors) && IsMade(srcs, ns, tensors, a) && IsMade(srcs, ns, tensors, b)
    requires Sound(same) && Union(a, b, same).Ok?
    ensures IsMade(srcs, ns, tensors, Union(a, b, same).value)
  {
    var ra: seq<Origin> :| Made(srcs, ns, tensors, a, ra);
    var rb: seq<Origin> :| Made(srcs, ns, tensors, b, rb);
    SourceDicts(srcs, ns, tensors);
    SoundAgrees(a.nonTensor, b.nonTensor, same);
    UnionMade(TensorDicts(srcs), ns, Tensors(a), Tensors(b), ra, rb);
    UnionMade(ArrayDicts(srcs), ns, a.nonTensor, b.nonTensor, ra, rb);
    MadeLong(ArrayDicts(srcs), ns, a.nonTensor + b.nonTensor, BothRows(ra, rb));
    MadeLong(TensorDicts(srcs), ns, Tensors(a) + Tensors(b), BothRows(ra, rb));
    UnionKeys(srcs, Tensors(a).Keys, a.nonTensor.Keys, Tensors(b).Keys, b.nonTensor.Keys);
    var u := Union(a, b, same).value;
    assert Tensors(u).Keys == Tensors(a).Keys + Tensors(b).Keys && u.nonTensor.Keys == a.nonTensor.Keys + b.nonTensor.Keys;
    assert Made(srcs, ns, tensors, u, BothRows(ra, rb));
  }

  // ----- concatenated values

  ghost predicate AllMade<V>(srcs: seq<Data<V>>, ns: seq<nat>, tensors: bool, ds: seq<Data<V>>, rows: seq<seq<Origin>>)
    requires Sources(srcs, ns, tensors)
  {
    |rows| == |ds| && forall j :: 0 <= j < |ds| ==> Made(srcs, ns, tensors, ds[j], rows[j])
  }

  lemma AllMadeCons<V>(srcs: seq<Data<V>>, ns: seq<nat>, tensors: bool, d: Data<V>, first: seq<Origin>,
                       ds: seq<Data<V>>, rest: seq<seq<Origin>>)
    requires Sources(srcs, ns, tensors) && Made(srcs, ns, tensors, d, first) && AllMade(srcs, ns, tensors, ds, rest)
    ensures AllMade(srcs, ns, tensors, [d] + ds, [first] + rest)
  {
  }

  function Lengths<T>(rows: seq<seq<T>>): (ls: seq<nat>)
    ensures |ls| == |rows| && forall j :: 0 <= j < |rows| ==> ls[j] == |rows[j]|
  {
    seq(|rows|, j requires 0 <= j < |rows| => |rows[j]|)
  }

  lemma {:induction false} LengthsSum<T>(rows: seq<seq<T>>)
    ensures Sum(Lengths(rows)) == |Flatten(rows)|
  {
    if rows != [] {
      LengthsSum(rows[1..]);
      assert Lengths(rows)[1..] == Lengths(rows[1..]);
    }
  }

  lemma ConcatAligned<V>(srcs: seq<Data<V>>, ns: seq<nat>, tensors: bool, ds: seq<Data<V>>, rows: seq<seq<Origin>>)
    requires Sources(srcs, ns, tensors) && AllMade(srcs, ns, tensors, ds, rows) && Concat(ds).Ok?
    ensures ds != [] && Aligned(Concat(ds).value, |Flatten(rows)|)
    ensures forall j, k :: 0 <= j < |ds| && k in ds[0].nonTensor && k !in ds[j].nonTensor ==> rows[j] == []
  {
    forall j | 0 <= j < |ds| ensures Aligned(ds[j], Lengths(rows)[j]) {
      assert Made(srcs, ns, tensors, ds[j], rows[j]);
    }
    LengthsSum(rows);
    ConcatAlignedIff(ds, Lengths(rows));
    assert Made(srcs, ns, tensors, ds[0], rows[0]);
    if !tensors {
      forall j | 0 <= j < |ds| ensures ds[j].nonTensor.Keys == ds[0].nonTensor.Keys {
        assert Made(srcs, ns, tensors, ds[j], rows[j]) && Made(srcs, ns, tensors, ds[0], rows[0]);
        SameArrays(srcs, ns, Tensors(ds[j]).Keys, ds[j].nonTensor.Keys);
        SameArrays(srcs, ns, Tensors(ds[0]).Keys, ds[0].nonTensor.Keys);
      }
      if ds[0].nonTensor.Keys == {} {
        forall j | 0 <= j < |ds| ensures Lengths(rows)[j] == 0 {
          assert Aligned(ds[j], Lengths(rows)[j]) && ds[j].batch.None? by {
            assert Made(srcs, ns, tensors, ds[j], rows[j]);
          }
        }
        AllZero(Lengths(rows));
      }
    }
    forall j, k | 0 <= j < |ds| && k in ds[0].nonTensor && k !in ds[j].nonTensor ensures rows[j] == [] {
      assert InAllRows(ds, Lengths(rows), k);
      assert Lengths(rows)[j] == 0;
    }
  }

  lemma {:induction false} AllZero(ls: seq<nat>)
    requires forall j :: 0 <= j < |ls| ==> ls[j] == 0
    ensures Sum(ls) == 0
  {
    if ls != [] {
      AllZero(ls[1..]);
    }
  }

  lemma ConcatArrays<V>(srcs: seq<Data<V>>, ns: seq<nat>, tensors: bool, ds: seq<Data<V>>, rows: seq<seq<Origin>>)
    requires Sources(srcs, ns, tensors) && AllMade(srcs, ns, tensors, ds, rows) && Concat(ds).Ok?
    ensures Dicts(ArrayDicts(srcs), ns) && ColsMade(ArrayDicts(srcs), ns, Concat(ds).value.nonTensor, Flatten(rows))
  {
    var dicts, whole := ArrayDicts(srcs), Concat(ds).value;
    SourceDicts(srcs, ns, tensors);
    ConcatAligned(srcs, ns, tensors, ds, rows);
    forall k | k in whole.nonTensor ensures CellsFrom(dicts, ns, k, whole.nonTensor[k], Flatten(rows)) {
      MissingIsEmpty(ds, k);
      forall j | 0 <= j < |ds| ensures CellsFrom(dicts, ns, k, ArrayPieces(ds, k)[j], rows[j]) {
        assert Made(srcs, ns, tensors, ds[j], rows[j]);
        if k in ds[j].nonTensor {
          assert CellsFrom(dicts, ns, k, ds[j].nonTensor[k], rows[j]);
        }
      }
      FlattenCells(dicts, ns, k, ArrayPieces(ds, k), rows);
    }
    forall i | 0 <= i < |Flatten(rows)| ensures Complete(dicts, ns, whole.nonTensor.Keys, Flatten(rows)[i]) {
      forall j, r | 0 <= j < |rows| && 0 <= r < |rows[j]|
        ensures Complete(dicts, ns, whole.nonTensor.Keys, rows[j][r])
      {
        assert Made(srcs, ns, tensors, ds[j], rows[j]);
        assert Complete(dicts, ns, ds[j].nonTensor.Keys, rows[j][r]);
        assert ds[j].nonTensor.Keys <= ds[0].nonTensor.Keys;
      }
      FlattenComplete(dicts, ns, whole.nonTensor.Keys, rows, i);
    }
  }

  lemma ConcatTensors<V>(srcs: seq<Data<V>>, ns: seq<nat>, ds: seq<Data<V>>, rows: seq<seq<Origin>>)
    requires Sources(srcs, ns, true) && AllMade(srcs, ns, true, ds, rows) && ds != [] && Concat(ds).Ok?
    ensures Dicts(TensorDicts(srcs), ns) && Concat(ds).value.batch.Some?
    ensures ColsMade(TensorDicts(srcs), ns, Concat(ds).value.batch.value.cols, Flatten(rows))
  {
    var dicts := TensorDicts(srcs);
    SourceDicts(srcs, ns, true);
    assert Made(srcs, ns, true, ds[0], rows[0]);
    var cols := Concat(ds).value.batch.value.cols;
    forall k | k in cols ensures CellsFrom(dicts, ns, k, cols[k], Flatten(rows)) {
      forall j | 0 <= j < |ds| ensures CellsFrom(dicts, ns, k, TensorColumn(ds, k)[j], rows[j]) {
        assert Made(srcs, ns, true, ds[j], rows[j]);
        assert k in Tensors(ds[j]) && CellsFrom(dicts, ns, k, Tensors(ds[j])[k], rows[j]);
      }
      FlattenCells(dicts, ns, k, TensorColumn(ds, k), rows);
    }
    forall i | 0 <= i < |Flatten(rows)| ensures Complete(dicts, ns, cols.Keys, Flatten(rows)[i]) {
      forall j, r | 0 <= j < |rows| && 0 <= r < |rows[j]| ensures Complete(dicts, ns, cols.Keys, rows[j][r]) {
        assert Made(srcs, ns, true, ds[j], rows[j]);
        assert Complete(dicts, ns, Tensors(ds[j]).Keys, rows[j][r]);
      }
      FlattenComplete(dicts, ns, cols.Keys, rows, i);
    }
  }

  lemma ConcatMade<V>(srcs: seq<Data<V>>, ns: seq<nat>, tensors: bool, ds: seq<Data<V>>, rows: seq<seq<Origin>>)
    requires Sources(srcs, ns, tensors) && AllMade(srcs, ns, tensors, ds, rows) && Concat(ds).Ok?
    ensures Made(srcs, ns, tensors, Concat(ds).value, Flatten(rows))
  {
    ConcatAligned(srcs, ns, tensors, ds, rows);
    ConcatArrays(srcs, ns, tensors, ds, rows);
    assert Made(srcs, ns, tensors, ds[0], rows[0]);
    var whole := Concat(ds).value;
    assert Tensors(whole).Keys == Tensors(ds[0]).Keys && whole.nonTensor.Keys == ds[0].nonTensor.Keys;
    if tensors {
      ConcatTensors(srcs, ns, ds, rows);
    } else {
      NoTensors(srcs, ns, Flatten(rows), ds[0].nonTensor, Concat(ds).value.nonTensor);
    }
  }

  /** Without a tensor batch anywhere there is nothing to say about tensors. */
  lemma NoTensors<V>(srcs: seq<Data<V>>, ns: seq<nat>, rows: seq<Origin>, first: map<Key, seq<V>>, cols: map<Key, seq<V>>)
    requires Sources(srcs, ns, false) && Dicts(ArrayDicts(srcs), ns) && ColsMade(ArrayDicts(srcs), ns, cols, rows)
    ensures Dicts(TensorDicts(srcs), ns) && ColsMade(TensorDicts(srcs), ns, map[], rows)
  {
    forall i | 0 <= i < |rows| ensures Complete(TensorDicts(srcs), ns, {}, rows[i]) {
      assert Complete(ArrayDicts(srcs), ns, cols.Keys, rows[i]);
    }
  }

  // ----- every composition

  /**
   * In every composition of the operations that succeeds, every row of the result is made of one row of each source
   * that takes part in it. Arrays that compare equal are taken to be equal.
   */
  lemma {:induction false} EvalMakesWholeRows<V(!new)>(e: Expr, srcs: seq<Data<V>>, ns: seq<nat>, tensors: bool,
                                                     same: (seq<V>, seq<V>) -> bool)
    requires Sources(srcs, ns, tensors) && Sound(same) && Eval(e, srcs, same).Ok?
    ensures IsMade(srcs, ns, tensors, Eval(e, srcs, same).value)
  {
    match e {
      case Source(s) =>
        SourceMade(srcs, ns, tensors, s);
      case Concatenated(es) =>
        var rows := EvalAllMakesWholeRows(es, srcs, ns, tensors, same);
        var ds := EvalAll(es, srcs, same).value;
        ConcatMade(srcs, ns, tensors, ds, rows);
      case United(a, b) =>
        EvalMakesWholeRows(a, srcs, ns, tensors, same);
        EvalMakesWholeRows(b, srcs, ns, tensors, same);
        UnitedMade(Eval(a, srcs, same).value, Eval(b, srcs, same).value, srcs, ns, tensors, same);
      case Applied(op, operand) =>
        EvalMakesWholeRows(operand, srcs, ns, tensors, same);
        ApplyMade(op, Eval(operand, srcs, same).value, srcs, ns, tensors);
    }
  }

  lemma {:induction false} EvalAllMakesWholeRows<V(!new)>(es: seq<Expr>, srcs: seq<Data<V>>, ns: seq<nat>, tensors: bool,
                                                        same: (seq<V>, seq<V>) -> bool) returns (rows: seq<seq<Origin>>)
    requires Sources(srcs, ns, tensors) && Sound(same) && EvalAll(es, srcs, same).Ok?
    ensures AllMade(srcs, ns, tensors, EvalAll(es, srcs, same).value, rows)
  {
    if es == [] {
      rows := [];
    } else {
      EvalMakesWholeRows(es[0], srcs, ns, tensors, same);
      var first: seq<Origin> :| Made(srcs, ns, tensors, Eval(es[0], srcs, same).value, first);
      var rest := EvalAllMakesWholeRows(es[1..], srcs, ns, tensors, same);
      AllMadeCons(srcs, ns, tensors, Eval(es[0], srcs, same).value, first, EvalAll(es[1..], srcs, same).value, rest);
      rows := [first] + rest;
    }
  }

  lemma OneSourceKeys<V>(src: Data<V>, tensorKeys: set<Key>, arrayKeys: set<Key>)
    requires HasKeys([src], tensorKeys, arrayKeys)
    ensures tensorKeys == Tensors(src).Keys && arrayKeys == src.nonTensor.Keys
  {
    var parts: set<nat> :| KeysOf([src], tensorKeys, arrayKeys, parts);
    var s :| s in parts;
    assert parts == {0};
  }

  lemma OneSource<V>(src: Data<V>, n: nat, d: Data<V>, rows: seq<Origin>)
    requires Aligned(src, n) && HasColumn(src) && Made([src], [n], src.batch.Some?, d, rows)
    ensures RowsOf(d, src, n)
  {
    var srcs, ns := [src], [n];
    SourceDicts(srcs, ns, src.batch.Some?);
    OneSourceKeys(src, Tensors(d).Keys, d.nonTensor.Keys);
    if src.nonTensor.Keys != {} {
      var k :| k in d.nonTensor;
      ColumnHasSource(ArrayDicts(srcs), n, k, d.nonTensor[k], rows);
    } else {
      var k :| k in Tensors(d);
      ColumnHasSource(TensorDicts(srcs), n, k, Tensors(d)[k], rows);
    }
    var idx: seq<nat> := seq(|rows|, i requires 0 <= i < |rows| => rows[i][0]);
    OneSourceCols(ArrayDicts(srcs), n, d.nonTensor, rows, idx);
    OneSourceCols(TensorDicts(srcs), n, Tensors(d), rows, idx);
    assert d == Pick(src, n, idx);
  }

  lemma ColumnHasSource<V>(dicts: seq<map<Key, seq<V>>>, n: nat, k: Key, col: seq<V>, rows: seq<Origin>)
    requires |dicts| == 1 && Dicts(dicts, [n]) && CellsFrom(dicts, [n], k, col, rows)
    ensures forall i :: 0 <= i < |rows| ==> 0 in rows[i] && rows[i][0] < n
  {
    forall i | 0 <= i < |rows| ensures 0 in rows[i] && rows[i][0] < n {
      assert CellFrom(dicts, [n], k, col[i], rows[i]);
    }
  }

  lemma OneSourceCols<V>(dicts: seq<map<Key, seq<V>>>, n: nat, cols: map<Key, seq<V>>, rows: seq<Origin>, idx: seq<nat>)
    requires |dicts| == 1 && Dicts(dicts, [n]) && ColsMade(dicts, [n], cols, rows) && cols.Keys == dicts[0].Keys
    requires |idx| == |rows| && forall i :: 0 <= i < |rows| ==> 0 in rows[i] && rows[i][0] == idx[i] < n
    ensures InRange(idx, n) && cols == PickCols(dicts[0], n, idx)
  {
    forall k | k in cols ensures cols[k] == Gather(dicts[0][k], idx) {
      assert CellsFrom(dicts, [n], k, cols[k], rows);
      forall i | 0 <= i < |rows| ensures cols[k][i] == dicts[0][k][idx[i]] {
        assert CellFrom(dicts, [n], k, cols[k][i], rows[i]);
      }
    }
  }

  /** On one source with a column, every composition picks one list of rows out of every column. */
  lemma EvalPicksRows<V(!new)>(e: Expr, src: Data<V>, n: nat, same: (seq<V>, seq<V>) -> bool)
    requires Aligned(src, n) && HasColumn(src) && Sound(same) && Eval(e, [src], same).Ok?
    ensures RowsOf(Eval(e, [src], same).value, src, n)
  {
    var srcs, tensors := [src], src.batch.Some?;
    EvalMakesWholeRows(e, srcs, [n], tensors, same);
    var d := Eval(e, srcs, same).value;
    var rows: seq<Origin> :| Made(srcs, [n], tensors, d, rows);
    OneSource(src, n, d, rows);
  }
}
