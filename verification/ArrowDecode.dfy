/** Arrow cells to property values (crates/ox-api/src/arrow_conversion.rs). */
module ArrowDecode {
  import opened Prelude
  import opened ArrowTime
  import opened ArrowLayout

  datatype Value =
    | Null
    | Bool(b: bool)
    | Int(i: int)
    | Float(bits: int)
    | Str(s: string)
    | Date(days: int)
    | DateTime(at: Instant)
    | Bytes(data: seq<Byte>)
    | List(items: seq<Value>)
    | Map(entries: map<string, Value>)

  datatype Error =
    | UnsupportedType
    | U64TooLarge(value: int)
    | DateOutOfRange(days: int)
    | TimestampOutOfRange(unit: Unit)
    | DecimalTooLarge(raw: int)
    | NegativeKey(key: int)
    | UnsupportedKeyType
    | MapKeyNotUtf8
    | NullMapKey

  // ------------------------------------------------------------------
  // Collecting values up to the first error
  // ------------------------------------------------------------------

  type Outcome = Result<Value, Error>

  function AddItem<T>(acc: Result<seq<T>, Error>, v: Result<T, Error>): Result<seq<T>, Error> {
    if acc.Err? then acc else if v.Err? then Err(v.error) else Ok(acc.value + [v.value])
  }

  // A repeated key replaces the earlier value; a missing key is refused before its value is read.
  function AddEntry(acc: Result<map<string, Value>, Error>, key: Option<string>,
                    v: Outcome): Result<map<string, Value>, Error> {
    if acc.Err? then acc
    else if key.None? then Err(NullMapKey)
    else if v.Err? then Err(v.error)
    else Ok(acc.value[key.value := v.value])
  }

  function ListOf(items: Result<seq<Value>, Error>): Outcome {
    if items.Ok? then Ok(List(items.value)) else Err(items.error)
  }

  function MapOf(entries: Result<map<string, Value>, Error>): Outcome {
    if entries.Ok? then Ok(Map(entries.value)) else Err(entries.error)
  }

  // ------------------------------------------------------------------
  // The meaning of a cell
  // ------------------------------------------------------------------

  function DateOf(env: Platform, days: int): Outcome {
    if ValidDay(env, days) then Ok(Date(days)) else Err(DateOutOfRange(days))
  }

  function TimestampOf(env: Platform, unit: Unit, ticks: int): Outcome {
    var at := Split(unit, ticks);
    if ValidSecond(env, at.secs) then Ok(DateTime(at)) else Err(TimestampOutOfRange(unit))
  }

  // The property value of a number.
  function NumOf(env: Platform, kind: NumKind, n: int): Outcome {
    match kind
    case KInt(_) => if n <= MaxOf(I64) then Ok(Int(n)) else Err(U64TooLarge(n))
    case KFloat32 => Ok(Float(env.widened(n)))
    case KFloat64 => Ok(Float(n))
    case KDate32 => DateOf(env, n)
    case KDate64 => DateOf(env, Date64Day(n))
    case KTimestamp(unit) => TimestampOf(env, unit, n)
    case KDecimal(_, scale) => if InI128(n) then Ok(Float(env.scaled(n, scale))) else Err(DecimalTooLarge(n))
  }

  function Cell(env: Platform, a: Array, row: nat): Outcome
    requires WellFormed(a) && row < Len(a)
    decreases a, 1, 0
  {
    if !a.valid[row] then Ok(Null)
    else
      match a
      case BoolArray(_, bits) => Ok(Bool(bits[row]))
      case NumArray(kind, _, nums) => NumOf(env, kind, nums[row])
      case Utf8Array(_, _, offsets, text) => Ok(Str(text[offsets[row]..offsets[row + 1]]))
      case BytesArray(_, offsets, data) => Ok(Bytes(data[offsets[row]..offsets[row + 1]]))
      case FixedBytesArray(width, _, data) =>
        Chunk(row, width, Len(a));
        Ok(Bytes(data[row * width..(row + 1) * width]))
      case ListArray(_, offsets, child) =>
        ListOf(Range(env, child, offsets[row], offsets[row + 1]))
      case MapArray(_, offsets, keys, _) =>
        if !(keys.Utf8Array? && !keys.large) then Err(MapKeyNotUtf8)
        else MapOf(Entries(env, a, offsets[row], offsets[row + 1]))
      case StructArray(_, _, columns) =>
        MapOf(Fields(env, a, row, |columns|))
      case DictArray(keyKind, _, indices, values) =>
        if keyKind.None? then Err(UnsupportedKeyType)
        else if indices[row] < 0 then Err(NegativeKey(indices[row]))
        else Cell(env, values, indices[row])
      case OtherArray(_) => Err(UnsupportedType)
  }

  lemma Chunk(row: nat, width: nat, rows: nat)
    requires row < rows
    ensures 0 <= row * width <= (row + 1) * width <= rows * width
  {
    assert (row + 1) * width <= rows * width;
  }

  // The cells `lo..hi` of one array, up to the first error.
  function Range(env: Platform, a: Array, lo: nat, hi: nat): Result<seq<Value>, Error>
    requires WellFormed(a) && lo <= hi <= Len(a)
    decreases a, 2, hi
  {
    if lo == hi then Ok([]) else AddItem(Range(env, a, lo, hi - 1), Cell(env, a, hi - 1))
  }

  function KeyText(keys: Array, i: nat): string
    requires WellFormed(keys) && keys.Utf8Array? && i < Len(keys)
  {
    keys.text[keys.offsets[i]..keys.offsets[i + 1]]
  }

  function KeyAt(keys: Array, i: nat): Option<string>
    requires WellFormed(keys) && keys.Utf8Array? && i < Len(keys)
  {
    if keys.valid[i] then Some(KeyText(keys, i)) else None
  }

  // The entries `lo..hi` of a map array, later keys replacing earlier ones.
  function Entries(env: Platform, a: Array, lo: nat, hi: nat): Result<map<string, Value>, Error>
    requires WellFormed(a) && a.MapArray? && a.keys.Utf8Array? && lo <= hi <= Len(a.keys)
    decreases a, 0, hi
  {
    if lo == hi then Ok(map[])
    else
      AddEntry(Entries(env, a, lo, hi - 1), KeyAt(a.keys, hi - 1), Cell(env, a.values, hi - 1))
  }

  // The first `k` fields of a struct row, later names replacing earlier ones.
  function Fields(env: Platform, a: Array, row: nat, k: nat): Result<map<string, Value>, Error>
    requires WellFormed(a) && a.StructArray? && row < Len(a) && k <= |a.columns|
    decreases a, 0, k
  {
    if k == 0 then Ok(map[])
    else AddEntry(Fields(env, a, row, k - 1), Some(a.names[k - 1]), Cell(env, a.columns[k - 1], row))
  }

  // ------------------------------------------------------------------
  // Slices
  // ------------------------------------------------------------------

  // The rows `lo..hi` of an array. Offsets and dictionary keys keep pointing into the whole
  // child; only a struct's columns are cut along.
  function Slice(a: Array, lo: nat, hi: nat): (b: Array)
    requires WellFormed(a) && lo <= hi <= Len(a)
    ensures Len(b) == hi - lo
    decreases a
  {
    var valid := a.valid[lo..hi];
    match a
    case BoolArray(_, bits) => BoolArray(valid, bits[lo..hi])
    case NumArray(kind, _, nums) => NumArray(kind, valid, nums[lo..hi])
    case Utf8Array(large, _, offsets, text) => Utf8Array(large, valid, offsets[lo..hi + 1], text)
    case BytesArray(_, offsets, data) => BytesArray(valid, offsets[lo..hi + 1], data)
    case FixedBytesArray(width, _, data) =>
      MultiplesGrow(lo, hi, Len(a), width);
      FixedBytesArray(width, valid, data[lo * width..hi * width])
    case ListArray(_, offsets, child) => ListArray(valid, offsets[lo..hi + 1], child)
    case MapArray(_, offsets, keys, values) => MapArray(valid, offsets[lo..hi + 1], keys, values)
    case StructArray(_, names, columns) =>
      StructArray(valid, names, seq(|columns|, k requires 0 <= k < |columns| => Slice(columns[k], lo, hi)))
    case DictArray(keyKind, _, indices, values) => DictArray(keyKind, valid, indices[lo..hi], values)
    case OtherArray(_) => OtherArray(valid)
  }

  lemma MultiplesGrow(lo: nat, hi: nat, rows: nat, width: nat)
    requires lo <= hi <= rows
    ensures 0 <= lo * width <= hi * width <= rows * width
  {
    assert (hi - lo) * width >= 0 && (rows - hi) * width >= 0;
    assert hi * width == lo * width + (hi - lo) * width;
    assert rows * width == hi * width + (rows - hi) * width;
  }

  lemma CutsSlice(offsets: seq<nat>, rows: nat, size: nat, lo: nat, hi: nat)
    requires Cuts(offsets, rows, size) && lo <= hi <= rows
    ensures Cuts(offsets[lo..hi + 1], hi - lo, size)
  {
  }

  // Slices of arrays that hold no columns of their own.
  lemma FlatSlice(a: Array, lo: nat, hi: nat)
    requires WellFormed(a) && lo <= hi <= Len(a) && !a.StructArray?
    ensures WellFormed(Slice(a, lo, hi)) && Height(Slice(a, lo, hi)) == Height(a)
  {
    match a
    case Utf8Array(_, _, offsets, text) => CutsSlice(offsets, Len(a), |text|, lo, hi);
    case BytesArray(_, offsets, data) => CutsSlice(offsets, Len(a), |data|, lo, hi);
    case ListArray(_, offsets, child) => CutsSlice(offsets, Len(a), Len(child), lo, hi);
    case MapArray(_, offsets, keys, _) => CutsSlice(offsets, Len(a), Len(keys), lo, hi);
    case FixedBytesArray(width, _, _) =>
      MultiplesGrow(lo, hi, Len(a), width);
      assert (hi - lo) * width == hi * width - lo * width;
    case _ =>
  }

  lemma {:induction false} SliceWellFormed(a: Array, lo: nat, hi: nat)
    requires WellFormed(a) && lo <= hi <= Len(a)
    ensures WellFormed(Slice(a, lo, hi)) && Height(Slice(a, lo, hi)) == Height(a)
    decreases a
  {
    if a.StructArray? {
      var b := Slice(a, lo, hi);
      forall k | 0 <= k < |a.columns|
        ensures WellFormed(b.columns[k]) && Height(b.columns[k]) == Height(a.columns[k])
      {
        SliceWellFormed(a.columns[k], lo, hi);
      }
      TallestSame(a, b, |a.columns|);
    } else {
      FlatSlice(a, lo, hi);
    }
  }

  lemma {:induction false} TallestSame(a: Array, b: Array, k: nat)
    requires a.StructArray? && b.StructArray? && |a.columns| == |b.columns| && k <= |a.columns|
    requires forall i :: 0 <= i < k ==> Height(b.columns[i]) == Height(a.columns[i])
    ensures Tallest(b, k) == Tallest(a, k)
  {
    if k > 0 {
      TallestSame(a, b, k - 1);
    }
  }

  lemma SliceFixedBytes(env: Platform, a: Array, lo: nat, hi: nat, i: nat)
    requires WellFormed(a) && a.FixedBytesArray? && lo <= hi <= Len(a) && i < hi - lo
    ensures WellFormed(Slice(a, lo, hi)) && Cell(env, Slice(a, lo, hi), i) == Cell(env, a, lo + i)
  {
    SliceWellFormed(a, lo, hi);
    MultiplesGrow(lo, lo + i, hi, a.width);
    MultiplesGrow(lo, lo + i + 1, hi, a.width);
    MultiplesGrow(lo, hi, Len(a), a.width);
    Chunk(i, a.width, hi - lo);
    Chunk(lo + i, a.width, Len(a));
    assert (lo + i) * a.width == lo * a.width + i * a.width;
    assert (lo + i + 1) * a.width == lo * a.width + (i + 1) * a.width;
    assert a.data[lo * a.width..hi * a.width][i * a.width..(i + 1) * a.width] ==
      a.data[(lo + i) * a.width..(lo + i + 1) * a.width];
  }

  lemma SliceMap(env: Platform, a: Array, lo: nat, hi: nat, i: nat)
    requires WellFormed(a) && a.MapArray? && lo <= hi <= Len(a) && i < hi - lo
    ensures WellFormed(Slice(a, lo, hi)) && Cell(env, Slice(a, lo, hi), i) == Cell(env, a, lo + i)
  {
    SliceWellFormed(a, lo, hi);
    if a.keys.Utf8Array? {
      EntriesAgree(env, a, Slice(a, lo, hi), a.offsets[lo + i], a.offsets[lo + i + 1]);
    }
  }

  lemma SliceStruct(env: Platform, a: Array, lo: nat, hi: nat, i: nat)
    requires WellFormed(a) && a.StructArray? && lo <= hi <= Len(a) && i < hi - lo && WellFormed(Slice(a, lo, hi))
    requires forall k :: 0 <= k < |a.columns| ==>
      Cell(env, Slice(a, lo, hi).columns[k], i) == Cell(env, a.columns[k], lo + i)
    ensures Cell(env, Slice(a, lo, hi), i) == Cell(env, a, lo + i)
  {
    FieldsAgree(env, a, lo + i, Slice(a, lo, hi), i, |a.columns|);
  }

  // The layouts whose slices only shift offsets, keys or values.
  lemma SliceShift(env: Platform, a: Array, lo: nat, hi: nat, i: nat)
    requires WellFormed(a) && !a.StructArray? && !a.FixedBytesArray? && !a.MapArray?
    requires lo <= hi <= Len(a) && i < hi - lo
    ensures WellFormed(Slice(a, lo, hi)) && Cell(env, Slice(a, lo, hi), i) == Cell(env, a, lo + i)
  {
    SliceWellFormed(a, lo, hi);
  }

  /** Reading a slice is reading the original at the shifted row. */
  lemma {:induction false} SliceCell(env: Platform, a: Array, lo: nat, hi: nat, i: nat)
    requires WellFormed(a) && lo <= hi <= Len(a) && i < hi - lo
    ensures WellFormed(Slice(a, lo, hi)) && Cell(env, Slice(a, lo, hi), i) == Cell(env, a, lo + i)
    decreases a
  {
    if a.StructArray? {
      SliceWellFormed(a, lo, hi);
      var b := Slice(a, lo, hi);
      forall k | 0 <= k < |a.columns| ensures Cell(env, b.columns[k], i) == Cell(env, a.columns[k], lo + i) {
        SliceCell(env, a.columns[k], lo, hi, i);
      }
      SliceStruct(env, a, lo, hi, i);
    } else if a.FixedBytesArray? {
      SliceFixedBytes(env, a, lo, hi, i);
    } else if a.MapArray? {
      SliceMap(env, a, lo, hi, i);
    } else {
      SliceShift(env, a, lo, hi, i);
    }
  }

  lemma {:induction false} FieldsAgree(env: Platform, a: Array, row: nat, b: Array, row': nat, k: nat)
    requires WellFormed(a) && WellFormed(b) && a.StructArray? && b.StructArray? && a.names == b.names
    requires row < Len(a) && row' < Len(b) && k <= |a.columns|
    requires forall j :: 0 <= j < k ==> Cell(env, a.columns[j], row) == Cell(env, b.columns[j], row')
    ensures Fields(env, a, row, k) == Fields(env, b, row', k)
    decreases k
  {
    if k > 0 {
      FieldsAgree(env, a, row, b, row', k - 1);
    }
  }

  lemma {:induction false} EntriesAgree(env: Platform, a: Array, b: Array, lo: nat, hi: nat)
    requires WellFormed(a) && WellFormed(b) && a.MapArray? && b.MapArray? && b.keys == a.keys && b.values == a.values
    requires a.keys.Utf8Array? && lo <= hi <= Len(a.keys)
    ensures Entries(env, a, lo, hi) == Entries(env, b, lo, hi)
    decreases hi
  {
    if lo < hi {
      EntriesAgree(env, a, b, lo, hi - 1);
    }
  }

  // ------------------------------------------------------------------
  // The conversion
  // ------------------------------------------------------------------

  method CellToProperty(env: Platform, a: Array, row: nat) returns (r: Outcome)
    requires WellFormed(a) && row < Len(a)
    ensures r == Cell(env, a, row)
    decreases Height(a), 1
  {
    if !a.valid[row] {
      return Ok(Null);
    }
    match a {
      case BoolArray(_, bits) => r := Ok(Bool(bits[row]));
      case NumArray(kind, _, nums) =>
        var n := nums[row];
        match kind {
          case KInt(width) => r := if width.U64? && n > MaxOf(I64) then Err(U64TooLarge(n)) else Ok(Int(n));
          case KFloat32 => r := Ok(Float(env.widened(n)));
          case KFloat64 => r := Ok(Float(n));
          case KDate32 => r := DateOf(env, n);
          case KDate64 => r := DateOf(env, Date64Day(n));
          case KTimestamp(unit) => r := TimestampOf(env, unit, n);
          case KDecimal(wide, scale) =>
            r := if wide && !InI128(n) then Err(DecimalTooLarge(n)) else Ok(Float(env.scaled(n, scale)));
        }
      case Utf8Array(_, _, offsets, text) => r := Ok(Str(text[offsets[row]..offsets[row + 1]]));
      case BytesArray(_, offsets, data) => r := Ok(Bytes(data[offsets[row]..offsets[row + 1]]));
      case FixedBytesArray(width, _, data) =>
        Chunk(row, width, Len(a));
        r := Ok(Bytes(data[row * width..(row + 1) * width]));
      case ListArray(_, offsets, child) =>
        SliceWellFormed(child, offsets[row], offsets[row + 1]);
        r := ListToProperty(env, Slice(child, offsets[row], offsets[row + 1]));
        SliceRange(env, child, offsets[row], offsets[row + 1], offsets[row + 1] - offsets[row]);
      case MapArray(_, _, _, _) => r := MapToProperty(env, a, row);
      case StructArray(_, names, columns) =>
        var entries: map<string, Value> := map[];
        var k := 0;
        while k < |columns|
          invariant 0 <= k <= |columns|
          invariant Fields(env, a, row, k) == Ok(entries)
        {
          var v := CellToProperty(env, columns[k], row);
          if v.Err? {
            FieldsStop(env, a, row, k + 1, |columns|);
            return Err(v.error);
          }
          entries := entries[names[k] := v.value];
          k := k + 1;
        }
        r := Ok(Map(entries));
      case DictArray(keyKind, _, _, _) =>
        if keyKind.None? {
          r := Err(UnsupportedKeyType);
        } else {
          r := DecodeDictionary(env, a, row);
        }
      case OtherArray(_) => r := Err(UnsupportedType);
    }
  }

  method DecodeDictionary(env: Platform, a: Array, row: nat) returns (r: Outcome)
    requires WellFormed(a) && row < Len(a) && a.valid[row] && a.DictArray? && a.keyKind.Some?
    ensures r == Cell(env, a, row)
    decreases Height(a), 0
  {
    var key := a.indices[row];
    if key < 0 {
      return Err(NegativeKey(key));
    }
    r := CellToProperty(env, a.values, key);
  }

  method MapToProperty(env: Platform, a: Array, row: nat) returns (r: Outcome)
    requires WellFormed(a) && row < Len(a) && a.valid[row] && a.MapArray?
    ensures r == Cell(env, a, row)
    decreases Height(a), 0
  {
    var start, end := a.offsets[row], a.offsets[row + 1];
    var keys := a.keys;
    if !(keys.Utf8Array? && !keys.large) {
      return Err(MapKeyNotUtf8);
    }
    var entries: map<string, Value> := map[];
    var i := start;
    while i < end
      invariant start <= i <= end
      invariant Entries(env, a, start, i) == Ok(entries)
    {
      if !keys.valid[i] {
        EntriesStop(env, a, start, i + 1, end);
        return Err(NullMapKey);
      }
      var k := KeyText(keys, i);
      var v := CellToProperty(env, a.values, i);
      if v.Err? {
        EntriesStop(env, a, start, i + 1, end);
        return Err(v.error);
      }
      entries := entries[k := v.value];
      i := i + 1;
    }
    return Ok(Map(entries));
  }

  method ListToProperty(env: Platform, sublist: Array) returns (r: Outcome)
    requires WellFormed(sublist)
    ensures r == ListOf(Range(env, sublist, 0, Len(sublist)))
    decreases Height(sublist), 2
  {
    var items: seq<Value> := [];
    var i := 0;
    while i < Len(sublist)
      invariant 0 <= i <= Len(sublist)
      invariant Range(env, sublist, 0, i) == Ok(items)
    {
      var v := CellToProperty(env, sublist, i);
      if v.Err? {
        RangeStop(env, sublist, 0, i + 1, Len(sublist));
        return Err(v.error);
      }
      items := items + [v.value];
      i := i + 1;
    }
    return Ok(List(items));
  }

  // The first error decides.
  lemma {:induction false} RangeStop(env: Platform, a: Array, lo: nat, mid: nat, hi: nat)
    requires WellFormed(a) && lo <= mid <= hi <= Len(a) && Range(env, a, lo, mid).Err?
    ensures Range(env, a, lo, hi) == Range(env, a, lo, mid)
    decreases hi
  {
    if mid < hi {
      RangeStop(env, a, lo, mid, hi - 1);
    }
  }

  lemma {:induction false} EntriesStop(env: Platform, a: Array, lo: nat, mid: nat, hi: nat)
    requires WellFormed(a) && a.MapArray? && a.keys.Utf8Array? && lo <= mid <= hi <= Len(a.keys)
    requires Entries(env, a, lo, mid).Err?
    ensures Entries(env, a, lo, hi) == Entries(env, a, lo, mid)
    decreases hi
  {
    if mid < hi {
      EntriesStop(env, a, lo, mid, hi - 1);
    }
  }

  lemma {:induction false} FieldsStop(env: Platform, a: Array, row: nat, mid: nat, k: nat)
    requires WellFormed(a) && a.StructArray? && row < Len(a) && mid <= k <= |a.columns|
    requires Fields(env, a, row, mid).Err?
    ensures Fields(env, a, row, k) == Fields(env, a, row, mid)
    decreases k
  {
    if mid < k {
      FieldsStop(env, a, row, mid, k - 1);
    }
  }

  lemma {:induction false} SliceRange(env: Platform, a: Array, lo: nat, hi: nat, n: nat)
    requires WellFormed(a) && lo <= hi <= Len(a) && n <= hi - lo
    ensures WellFormed(Slice(a, lo, hi)) && Range(env, Slice(a, lo, hi), 0, n) == Range(env, a, lo, lo + n)
    decreases n
  {
    SliceWellFormed(a, lo, hi);
    if n > 0 {
      SliceRange(env, a, lo, hi, n - 1);
      SliceCell(env, a, lo, hi, n - 1);
    }
  }

  // ------------------------------------------------------------------
  // When it errs
  // ------------------------------------------------------------------

  predicate NumRepresentable(env: Platform, kind: NumKind, n: int) {
    match kind
    case KInt(_) => n <= MaxOf(I64)
    case KDate32 => ValidDay(env, n)
    case KDate64 => ValidDay(env, Date64Day(n))
    case KTimestamp(unit) => ValidSecond(env, Split(unit, n).secs)
    case KDecimal(_, _) => InI128(n)
    case _ => true
  }

  // The cell itself cannot be converted, whatever it contains.
  ghost predicate BadHere(env: Platform, a: Array, row: nat)
    requires WellFormed(a) && row < Len(a)
  {
    match a
    case NumArray(kind, _, nums) => !NumRepresentable(env, kind, nums[row])
    case MapArray(_, offsets, keys, _) =>
      !keys.Utf8Array? || keys.large || exists i :: offsets[row] <= i < offsets[row + 1] && !keys.valid[i]
    case DictArray(keyKind, _, indices, _) => keyKind.None? || indices[row] < 0
    case OtherArray(_) => true
    case _ => false
  }

  // Some cell reachable from this one, through non-null cells only, is bad.
  ghost predicate Tainted(env: Platform, a: Array, row: nat)
    requires WellFormed(a) && row < Len(a)
    decreases a, 1
  {
    a.valid[row] && (BadHere(env, a, row) ||
      match a
      case ListArray(_, offsets, child) => TaintedIn(env, child, offsets[row], offsets[row + 1])
      case MapArray(_, offsets, _, values) => TaintedIn(env, values, offsets[row], offsets[row + 1])
      case StructArray(_, _, columns) => TaintedField(env, a, row, |columns|)
      case DictArray(_, _, indices, values) => indices[row] >= 0 && Tainted(env, values, indices[row])
      case _ => false)
  }

  ghost predicate TaintedIn(env: Platform, a: Array, lo: nat, hi: nat)
    requires WellFormed(a) && hi <= Len(a)
    decreases a, 2
  {
    exists i :: lo <= i < hi && Tainted(env, a, i)
  }

  ghost predicate TaintedField(env: Platform, a: Array, row: nat, k: nat)
    requires WellFormed(a) && a.StructArray? && row < Len(a) && k <= |a.columns|
    decreases a, 0
  {
    exists j :: 0 <= j < k && Tainted(env, a.columns[j], row)
  }

  /** The conversion of a cell errs exactly when a bad cell is reachable from it. */
  lemma {:induction false} ErrsIffTainted(env: Platform, a: Array, row: nat)
    requires WellFormed(a) && row < Len(a)
    ensures Cell(env, a, row).Err? <==> Tainted(env, a, row)
    decreases a, 1, 0
  {
    if a.valid[row] {
      match a
      case ListArray(_, offsets, child) => RangeErrs(env, child, offsets[row], offsets[row + 1]);
      case MapArray(_, offsets, keys, values) =>
        if keys.Utf8Array? && !keys.large {
          EntriesErr(env, a, offsets[row], offsets[row + 1]);
        }
      case StructArray(_, _, columns) => FieldsErr(env, a, row, |columns|);
      case DictArray(_, _, indices, values) =>
        if indices[row] >= 0 {
          ErrsIffTainted(env, values, indices[row]);
        }
      case _ =>
    }
  }

  lemma {:induction false} RangeErrs(env: Platform, a: Array, lo: nat, hi: nat)
    requires WellFormed(a) && lo <= hi <= Len(a)
    ensures Range(env, a, lo, hi).Err? <==> TaintedIn(env, a, lo, hi)
    decreases a, 2, hi
  {
    if lo < hi {
      RangeErrs(env, a, lo, hi - 1);
      ErrsIffTainted(env, a, hi - 1);
    }
  }

  lemma {:induction false} EntriesErr(env: Platform, a: Array, lo: nat, hi: nat)
    requires WellFormed(a) && a.MapArray? && a.keys.Utf8Array? && lo <= hi <= Len(a.keys)
    ensures Entries(env, a, lo, hi).Err? <==>
      (exists i :: lo <= i < hi && !a.keys.valid[i]) || TaintedIn(env, a.values, lo, hi)
    decreases a, 0, hi
  {
    if lo < hi {
      EntriesErr(env, a, lo, hi - 1);
      ErrsIffTainted(env, a.values, hi - 1);
      assert TaintedIn(env, a.values, lo, hi) <==>
        TaintedIn(env, a.values, lo, hi - 1) || Tainted(env, a.values, hi - 1);
    }
  }

  lemma {:induction false} FieldsErr(env: Platform, a: Array, row: nat, k: nat)
    requires WellFormed(a) && a.StructArray? && row < Len(a) && k <= |a.columns|
    ensures Fields(env, a, row, k).Err? <==> TaintedField(env, a, row, k)
    decreases a, 0, k
  {
    if k > 0 {
      FieldsErr(env, a, row, k - 1);
      ErrsIffTainted(env, a.columns[k - 1], row);
    }
  }
}
