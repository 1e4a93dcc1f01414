/** Columnar arrays: validity, offsets and dictionary keys, as laid out by the Apache Arrow
    Columnar Format. */
module ArrowLayout {
  import opened Prelude
  import ArrowTime

  datatype IntKind = I8 | I16 | I32 | I64 | U8 | U16 | U32 | U64

  function MinOf(k: IntKind): int {
    match k
    case I8 => -0x80
    case I16 => -0x8000
    case I32 => -0x8000_0000
    case I64 => -0x8000_0000_0000_0000
    case _ => 0
  }

  function MaxOf(k: IntKind): int {
    match k
    case I8 => 0x7F
    case I16 => 0x7FFF
    case I32 => 0x7FFF_FFFF
    case I64 => 0x7FFF_FFFF_FFFF_FFFF
    case U8 => 0xFF
    case U16 => 0xFFFF
    case U32 => 0xFFFF_FFFF
    case U64 => 0xFFFF_FFFF_FFFF_FFFF
  }

  predicate InKind(k: IntKind, n: int) {
    MinOf(k) <= n <= MaxOf(k)
  }

  const I128_MAX := 0x7FFF_FFFF_FFFF_FFFF_FFFF_FFFF_FFFF_FFFF
  const I256_MAX := 0x7FFF_FFFF_FFFF_FFFF_FFFF_FFFF_FFFF_FFFF_FFFF_FFFF_FFFF_FFFF_FFFF_FFFF_FFFF_FFFF

  // What the numbers of a fixed-width array are. Floats are carried by their bits and never computed
  // with; a decimal is wide when it is stored in 256 bits.
  datatype NumKind =
    | KInt(kind: IntKind)
    | KFloat32
    | KFloat64
    | KDate32
    | KDate64
    | KTimestamp(unit: ArrowTime.Unit)
    | KDecimal(wide: bool, scale: int)

  predicate InNumKind(k: NumKind, n: int) {
    match k
    case KInt(kind) => InKind(kind, n)
    case KFloat32 => 0 <= n <= MaxOf(U32)
    case KFloat64 => 0 <= n <= MaxOf(U64)
    case KDate32 => InKind(I32, n)
    case KDate64 => InKind(I64, n)
    case KTimestamp(_) => InKind(I64, n)
    case KDecimal(wide, _) => if wide then -I256_MAX - 1 <= n <= I256_MAX else InI128(n)
  }

  predicate InI128(n: int) { -I128_MAX - 1 <= n <= I128_MAX }

  // `valid` is the validity bitmap; an array without one is all valid. A dictionary's key kind
  // is None when its keys are not integers.
  datatype Array =
    | BoolArray(valid: seq<bool>, bits: seq<bool>)
    | NumArray(kind: NumKind, valid: seq<bool>, nums: seq<int>)
    | Utf8Array(large: bool, valid: seq<bool>, offsets: seq<nat>, text: string)
    | BytesArray(valid: seq<bool>, offsets: seq<nat>, data: seq<Byte>)
    | FixedBytesArray(width: nat, valid: seq<bool>, data: seq<Byte>)
    | ListArray(valid: seq<bool>, offsets: seq<nat>, child: Array)
    | MapArray(valid: seq<bool>, offsets: seq<nat>, keys: Array, values: Array)
    | StructArray(valid: seq<bool>, names: seq<string>, columns: seq<Array>)
    | DictArray(keyKind: Option<IntKind>, valid: seq<bool>, indices: seq<int>, values: Array)
    | OtherArray(valid: seq<bool>)

  function Len(a: Array): nat {
    |a.valid|
  }

  // `offsets` cuts `size` elements into `rows` consecutive ranges.
  ghost predicate Cuts(offsets: seq<nat>, rows: nat, size: nat) {
    && |offsets| == rows + 1 && offsets[rows] <= size
    && forall i, j :: 0 <= i <= j <= rows ==> offsets[i] <= offsets[j]
  }

  // What an array constructor guarantees, except that negative dictionary keys are not
  // ruled out: the conversion has its own answer to them.
  ghost predicate WellFormed(a: Array) {
    match a
    case BoolArray(valid, bits) => |bits| == |valid|
    case NumArray(kind, valid, nums) => |nums| == |valid| && forall i :: 0 <= i < |nums| ==> InNumKind(kind, nums[i])
    case Utf8Array(_, valid, offsets, text) => Cuts(offsets, |valid|, |text|)
    case BytesArray(valid, offsets, data) => Cuts(offsets, |valid|, |data|)
    case FixedBytesArray(width, valid, data) => |data| == |valid| * width
    case ListArray(valid, offsets, child) => WellFormed(child) && Cuts(offsets, |valid|, Len(child))
    case MapArray(valid, offsets, keys, values) =>
      WellFormed(keys) && WellFormed(values) && Len(keys) == Len(values) && Cuts(offsets, |valid|, Len(keys))
    case StructArray(valid, names, columns) =>
      |names| == |columns| && forall k :: 0 <= k < |columns| ==> WellFormed(columns[k]) && Len(columns[k]) == |valid|
    case DictArray(_, valid, indices, values) =>
      && WellFormed(values) && |indices| == |valid|
      && forall i :: 0 <= i < |valid| && valid[i] ==> indices[i] < Len(values)
    case OtherArray(_) => true
  }

  // Nesting depth.
  function Height(a: Array): nat {
    match a
    case ListArray(_, _, child) => Height(child) + 1
    case MapArray(_, _, keys, values) => Height(values) + 1
    case StructArray(_, _, columns) => Tallest(a, |columns|) + 1
    case DictArray(_, _, _, values) => Height(values) + 1
    case _ => 0
  }

  function Tallest(a: Array, k: nat): (h: nat)
    requires a.StructArray? && k <= |a.columns|
    ensures forall i :: 0 <= i < k ==> Height(a.columns[i]) <= h
    decreases a, 0, k
  {
    if k == 0 then 0 else Max(Tallest(a, k - 1), Height(a.columns[k - 1]))
  }
}
