/** `ScalarType` and its packing into a 64-bit id, with the C++ side's `from_id` as the inverse. */
module ScalarTypeId {
  import opened Wrappers
  import opened Bits

  datatype NanRepr = NoNans | Ieee754 | ExtdRangeMaxMin {
    function Value(): int {
      match this
      case NoNans => 0
      case Ieee754 => 1
      case ExtdRangeMaxMin => 2
    }
  }

  datatype ScalarType = ScalarType(
    exponent: int, mantissa: int, signed: bool, bias: int, finiteValuesOnly: bool, nanRepr: NanRepr)

  /** A member of the id and the number of bits it is masked to. */
  datatype Field = Field(member: int, width: nat)

  /** The member reduced to `width` bits. */
  function Masked(f: Field): (r: nat)
    ensures r < Pow2(f.width)
  {
    f.member % Pow2(f.width)
  }

  function Width(fields: seq<Field>): nat {
    if fields == [] then 0 else fields[0].width + Width(fields[1..])
  }

  /** The packed word: the first field in the lowest bits. */
  function Pack(fields: seq<Field>): nat {
    if fields == [] then
      0
    else
      ShiftNonNegative(Pack(fields[1..]), fields[0].width);
      Masked(fields[0]) + ShiftLeft(Pack(fields[1..]), fields[0].width)
  }

  lemma {:induction false} PackBound(fields: seq<Field>)
    ensures Pack(fields) < Pow2(Width(fields))
  {
    if fields != [] {
      var w, rest := fields[0].width, Width(fields[1..]);
      PackBound(fields[1..]);
      ShiftMonotone(Pack(fields[1..]), Pow2(rest) - 1, w);
      ShiftSum(Pow2(rest) - 1, 1, w);
      ShiftOne(w);
      ShiftPow2(rest, w);
    }
  }

  lemma {:induction false} PackConcat(a: seq<Field>, b: seq<Field>)
    ensures Width(a + b) == Width(a) + Width(b)
    ensures Pack(a + b) == Pack(a) + ShiftLeft(Pack(b), Width(a))
  {
    if a == [] {
      assert a + b == b;
    } else {
      var w := a[0].width;
      assert (a + b)[0] == a[0] && (a + b)[1..] == a[1..] + b;
      PackConcat(a[1..], b);
      ShiftSum(Pack(a[1..]), ShiftLeft(Pack(b), Width(a[1..])), w);
      ShiftShift(Pack(b), Width(a[1..]), w);
    }
  }

  lemma PackOne(f: Field)
    ensures Pack([f]) == Masked(f) && Width([f]) == f.width
  {
    assert [f][1..] == [];
    ZeroShift(f.width);
  }

  lemma {:induction false} ZeroShift(n: nat)
    ensures ShiftLeft(0, n) == 0
  {
    if n > 0 {
      ZeroShift(n - 1);
    }
  }

  /** Shift and mask recover every field of every packing. */
  lemma ExtractField(fields: seq<Field>, k: nat)
    requires k < |fields|
    ensures And(ShiftRight(Pack(fields), Width(fields[..k])), Pow2(fields[k].width) - 1) == Masked(fields[k])
  {
    var a, f, rest := fields[..k], fields[k], fields[k + 1..];
    assert fields == a + ([f] + rest);
    PackConcat(a, [f] + rest);
    PackConcat([f], rest);
    PackOne(f);
    PackBound(a);
    ShiftRightDrops(Pack(a), Pack([f] + rest), Width(a));
    MaskKeepsLow(Masked(f), Pack(rest), f.width);
  }

  function Fields(t: ScalarType): seq<Field> {
    [Field(t.exponent, 8), Field(t.mantissa, 8), Field(if t.signed then 1 else 0, 1), Field(t.bias, 32),
     Field(if t.finiteValuesOnly then 1 else 0, 1), Field(t.nanRepr.Value(), 8)]
  }

  lemma TotalWidth(t: ScalarType)
    ensures Width(Fields(t)) == 58
  {
    var f := Fields(t);
    assert f[1..][1..] == f[2..] && f[2..][1..] == f[3..] && f[3..][1..] == f[4..] && f[4..][1..] == f[5..];
    assert f[5..] == [f[5]] && Width(f[5..]) == 8 + Width([]);
    assert Width(f[4..]) == 9 && Width(f[3..]) == 41 && Width(f[2..]) == 42;
  }

  /** `or_and_advance`: masks a member, shifts it above the bits in use and ors it in. */
  method OrAndAdvance(val: nat, offset: nat, ghost done: seq<Field>, f: Field) returns (val': nat, offset': nat)
    requires val == Pack(done) && offset == Width(done)
    ensures val' == Pack(done + [f]) && offset' == Width(done + [f])
  {
    PackBound(done);
    MaskIsRemainder(f.member, f.width);
    OrIsSum(val, Masked(f), offset);
    PackConcat(done, [f]);
    PackOne(f);
    var bitMask := Pow2(f.width) - 1;
    val' := Or(val, ShiftLeft(And(f.member, bitMask), offset));
    offset' := offset + f.width;
  }

  /** `id`: six calls of `or_and_advance`; the final `assert offset <= 64` always holds. */
  method Id(t: ScalarType) returns (id: nat)
    ensures id == Pack(Fields(t))
    ensures id < Pow2(58)
  {
    var fields := Fields(t);
    var val, offset := 0, 0;
    for i := 0 to |fields|
      invariant val == Pack(fields[..i]) && offset == Width(fields[..i])
    {
      assert fields[..i + 1] == fields[..i] + [fields[i]];
      val, offset := OrAndAdvance(val, offset, fields[..i], fields[i]);
    }
    assert fields[..|fields|] == fields;
    TotalWidth(t);
    assert offset <= 64;
    PackBound(fields);
    id := val;
  }

  lemma PrefixWidth(fields: seq<Field>, k: nat)
    requires k < |fields|
    ensures Width(fields[..k + 1]) == Width(fields[..k]) + fields[k].width
  {
    assert fields[..k + 1] == fields[..k] + [fields[k]];
    PackConcat(fields[..k], [fields[k]]);
    PackOne(fields[k]);
  }

  /** The low 32 bits read as `int32_t`. */
  function AsInt32(x: int): int {
    var r := x % 0x1_0000_0000;
    if r < 0x8000_0000 then r else r - 0x1_0000_0000
  }

  function NanReprOf(value: int): Option<NanRepr> {
    if value == 0 then Some(NoNans)
    else if value == 1 then Some(Ieee754)
    else if value == 2 then Some(ExtdRangeMaxMin)
    else None
  }

  /** `extract_and_advance`: the fields of the given widths, from `offset` upwards. */
  function ReadFields(id: nat, widths: seq<nat>, offset: nat): (fields: seq<nat>)
    ensures |fields| == |widths|
  {
    if widths == [] then []
    else [And(ShiftRight(id, offset), Pow2(widths[0]) - 1)] + ReadFields(id, widths[1..], offset + widths[0])
  }

  function Widths(fields: seq<Field>): seq<nat> {
    seq(|fields|, i requires 0 <= i < |fields| => fields[i].width)
  }

  function MaskedAll(fields: seq<Field>): seq<nat> {
    seq(|fields|, i requires 0 <= i < |fields| => Masked(fields[i]))
  }

  /** Reading back recovers every field of every packing. */
  lemma {:induction false} ReadPacked(fields: seq<Field>, k: nat)
    requires k <= |fields|
    ensures ReadFields(Pack(fields), Widths(fields)[k..], Width(fields[..k])) == MaskedAll(fields)[k..]
    decreases |fields| - k
  {
    if k < |fields| {
      ReadPacked(fields, k + 1);
      ExtractField(fields, k);
      PrefixWidth(fields, k);
      assert Widths(fields)[k..][1..] == Widths(fields)[k + 1..];
      assert MaskedAll(fields)[k..] == [Masked(fields[k])] + MaskedAll(fields)[k + 1..];
    }
  }

  /** The constructor call of `from_id`; `None` for a NaN scheme that has no name. */
  function FromFields(f: seq<nat>): Option<ScalarType>
    requires |f| == 6
  {
    match NanReprOf(f[5])
    case None => None
    case Some(nanRepr) => Some(ScalarType(f[0], f[1], f[2] == 1, AsInt32(f[3]), f[4] == 1, nanRepr))
  }

  const WIDTHS: seq<nat> := [8, 8, 1, 32, 1, 8]

  /** `ScalarType::from_id`. */
  function FromId(id: nat): Option<ScalarType> {
    FromFields(ReadFields(id, WIDTHS, 0))
  }

  /** The fields cut to `uint8_t`, `uint8_t` and `int32_t`. */
  function Truncated(t: ScalarType): ScalarType {
    t.(exponent := t.exponent % 256, mantissa := t.mantissa % 256, bias := AsInt32(t.bias))
  }

  predicate InRange(t: ScalarType) {
    0 <= t.exponent < 256 && 0 <= t.mantissa < 256 && -0x8000_0000 <= t.bias < 0x8000_0000
  }

  lemma SmallPowers()
    ensures Pow2(1) == 2 && Pow2(8) == 256 && Pow2(32) == 0x1_0000_0000
  {
    assert Pow2(8) == 256;
    ShiftPow2(8, 8);
    ShiftIsProduct(Pow2(8), 8);
    ShiftPow2(16, 16);
    ShiftIsProduct(Pow2(16), 16);
  }

  lemma FromMasked(t: ScalarType, masked: seq<nat>)
    requires masked == MaskedAll(Fields(t))
    ensures FromFields(masked) == Some(Truncated(t))
  {
    SmallPowers();
    assert masked[0] == t.exponent % 256 && masked[1] == t.mantissa % 256 && masked[3] == t.bias % 0x1_0000_0000;
    assert masked[2] == (if t.signed then 1 else 0) && masked[4] == if t.finiteValuesOnly then 1 else 0;
    assert masked[5] == t.nanRepr.Value();
    Int32OfLow(t.bias);
  }

  lemma Int32OfLow(x: int)
    ensures AsInt32(x % 0x1_0000_0000) == AsInt32(x)
  {
  }

  /** Decoding the id of any type gives that type with its fields cut to their C++ widths. */
  lemma FromIdOfId(t: ScalarType)
    ensures FromId(Pack(Fields(t))) == Some(Truncated(t))
  {
    var f := Fields(t);
    ReadPacked(f, 0);
    assert Widths(f)[0..] == WIDTHS && MaskedAll(f)[0..] == MaskedAll(f);
    FromMasked(t, MaskedAll(f));
  }

  lemma TruncatedFields(t: ScalarType, u: ScalarType, k: nat)
    requires Truncated(t) == Truncated(u) && k < 6
    ensures Fields(t)[k].width == Fields(u)[k].width && Masked(Fields(t)[k]) == Masked(Fields(u)[k])
  {
    SmallPowers();
  }

  /** In-range types survive the round trip, and two types share an id only when their cut fields agree. */
  lemma IdIsInjective(t: ScalarType, u: ScalarType)
    ensures InRange(t) ==> FromId(Pack(Fields(t))) == Some(t)
    ensures Pack(Fields(t)) == Pack(Fields(u)) <==> Truncated(t) == Truncated(u)
  {
    FromIdOfId(t);
    FromIdOfId(u);
    if Truncated(t) == Truncated(u) {
      forall k | 0 <= k < 6
        ensures Fields(t)[k].width == Fields(u)[k].width && Masked(Fields(t)[k]) == Masked(Fields(u)[k])
      {
        TruncatedFields(t, u, k);
      }
      PackDependsOnMasked(Fields(t), Fields(u));
    }
  }

  lemma {:induction false} PackDependsOnMasked(f: seq<Field>, g: seq<Field>)
    requires |f| == |g|
    requires forall k :: 0 <= k < |f| ==> f[k].width == g[k].width && Masked(f[k]) == Masked(g[k])
    ensures Pack(f) == Pack(g)
  {
    if f != [] {
      PackDependsOnMasked(f[1..], g[1..]);
    }
  }
}
