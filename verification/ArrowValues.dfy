/** What a converted cell is, said without the conversion: the value a cell shows, and the first thing
    wrong with a cell that shows none (crates/ox-api/src/arrow_conversion.rs). */
module ArrowValues {
  import opened Prelude
  import opened ArrowTime
  import opened ArrowLayout
  import opened ArrowDecode

  // ------------------------------------------------------------------
  // What numbers become
  // ------------------------------------------------------------------

  function TickNanos(unit: Unit): int {
    match unit
    case Second => 1_000_000_000
    case Millisecond => 1_000_000
    case Microsecond => 1_000
    case Nanosecond => 1
  }

  // `v` is what the number n of this kind stands for. A day given in milliseconds is cut towards the
  // epoch, a timestamp is an exact instant.
  ghost predicate Becomes(env: Platform, kind: NumKind, n: int, v: Value) {
    match kind
    case KInt(_) => v == Int(n)
    case KFloat32 => v == Float(env.widened(n))
    case KFloat64 => v == Float(n)
    case KDate32 => v == Date(n)
    case KDate64 => v.Date? && -86_400_000 < n - 86_400_000 * v.days < 86_400_000 &&
                    (if n >= 0 then n >= 86_400_000 * v.days else n <= 86_400_000 * v.days)
    case KTimestamp(unit) => v.DateTime? && 0 <= v.at.nanos < 1_000_000_000 &&
                             1_000_000_000 * v.at.secs + v.at.nanos == n * TickNanos(unit)
    case KDecimal(_, scale) => v == Float(env.scaled(n, scale))
  }

  lemma Date64Becomes(env: Platform, n: int)
    ensures Becomes(env, KDate64, n, Date(Date64Day(n)))
  {
    if n < 0 {
      var q, r := (-n) / 86_400_000, (-n) % 86_400_000;
      assert -n == 86_400_000 * q + r;
    }
  }

  lemma BecomesOne(env: Platform, kind: NumKind, n: int, v: Value, w: Value)
    requires Becomes(env, kind, n, v) && Becomes(env, kind, n, w)
    ensures v == w
  {
  }

  /** A valid number cell that converts at all becomes exactly what its number stands for, and which
      value that is its kind and number determine. */
  lemma NumberBecomes(env: Platform, a: Array, row: nat)
    requires WellFormed(a) && a.NumArray? && row < Len(a) && a.valid[row] && Cell(env, a, row).Ok?
    ensures forall v :: Cell(env, a, row) == Ok(v) <==> Becomes(env, a.kind, a.nums[row], v)
  {
    var n, v := a.nums[row], Cell(env, a, row).value;
    if a.kind.KDate64? {
      Date64Becomes(env, n);
    }
    if a.kind.KTimestamp? {
      SplitIsExact(a.kind.unit, n);
    }
    assert Becomes(env, a.kind, n, v);
    forall w | Becomes(env, a.kind, n, w) ensures w == v {
      BecomesOne(env, a.kind, n, v, w);
    }
  }

  // ------------------------------------------------------------------
  // Which error it is
  // ------------------------------------------------------------------

  // The number itself has no property value, for the reason `e` gives.
  ghost predicate NumCause(env: Platform, kind: NumKind, n: int, e: Error) {
    match kind
    case KInt(_) => n > 0x7FFF_FFFF_FFFF_FFFF && e == U64TooLarge(n)
    case KDate32 => !(env.minDay <= n <= env.maxDay) && e == DateOutOfRange(n)
    case KDate64 => exists day :: Becomes(env, kind, n, Date(day)) && !(env.minDay <= day <= env.maxDay) &&
                                  e == DateOutOfRange(day)
    case KTimestamp(unit) => exists at :: Becomes(env, kind, n, DateTime(at)) &&
                                          !(env.minDay <= at.secs / 86_400 <= env.maxDay) &&
                                          e == TimestampOutOfRange(unit)
    case KDecimal(_, _) =>
      !(-0x8000_0000_0000_0000_0000_0000_0000_0000 <= n < 0x8000_0000_0000_0000_0000_0000_0000_0000) &&
      e == DecimalTooLarge(n)
    case _ => false
  }

  lemma NumErrs(env: Platform, kind: NumKind, n: int, e: Error)
    ensures NumOf(env, kind, n) == Err(e) <==> NumCause(env, kind, n, e)
  {
    if kind.KDate64? {
      Date64Becomes(env, n);
      forall day | Becomes(env, kind, n, Date(day)) ensures day == Date64Day(n) {
        BecomesOne(env, kind, n, Date(day), Date(Date64Day(n)));
      }
    }
    if kind.KTimestamp? {
      SplitIsExact(kind.unit, n);
      var split := Split(kind.unit, n);
      assert Becomes(env, kind, n, DateTime(split));
      forall at | Becomes(env, kind, n, DateTime(at)) ensures at == split {
        BecomesOne(env, kind, n, DateTime(at), DateTime(split));
      }
    }
  }

  // `e` is the first thing wrong with the cell: with the cell itself, or else with the first cell below
  // it, in order, that has anything wrong with it. Nothing under a null is looked at.
  ghost predicate FirstCause(env: Platform, a: Array, row: nat, e: Error)
    requires WellFormed(a) && row < Len(a)
    decreases a, 1
  {
    a.valid[row] &&
    match a
    case NumArray(kind, _, nums) => NumCause(env, kind, nums[row], e)
    case ListArray(_, offsets, child) => FirstInRange(env, child, offsets[row], offsets[row + 1], e)
    case MapArray(_, offsets, keys, _) =>
      if !keys.Utf8Array? || keys.large then e == MapKeyNotUtf8
      else FirstInEntries(env, a, offsets[row], offsets[row + 1], e)
    case StructArray(_, _, columns) => FirstInFields(env, a, row, |columns|, e)
    case DictArray(keyKind, _, indices, values) =>
      if keyKind.None? then e == UnsupportedKeyType
      else if indices[row] < 0 then e == NegativeKey(indices[row])
      else FirstCause(env, values, indices[row], e)
    case OtherArray(_) => e == UnsupportedType
    case _ => false
  }

  ghost predicate FirstInRange(env: Platform, a: Array, lo: nat, hi: nat, e: Error)
    requires WellFormed(a) && hi <= Len(a)
    decreases a, 2
  {
    exists i :: lo <= i < hi && FirstCause(env, a, i, e) && forall j :: lo <= j < i ==> !Tainted(env, a, j)
  }

  ghost predicate FirstInFields(env: Platform, a: Array, row: nat, k: nat, e: Error)
    requires WellFormed(a) && a.StructArray? && row < Len(a) && k <= |a.columns|
    decreases a, 0
  {
    exists i :: 0 <= i < k && FirstCause(env, a.columns[i], row, e) && forall j :: 0 <= j < i ==>
      !Tainted(env, a.columns[j], row)
  }

  // A null key is met before the value beside it.
  ghost predicate FirstInEntries(env: Platform, a: Array, lo: nat, hi: nat, e: Error)
    requires WellFormed(a) && a.MapArray? && a.keys.Utf8Array? && hi <= Len(a.keys)
    decreases a, 0, 1
  {
    exists i: nat :: i < hi && EntryCause(env, a, lo, i, e)
  }

  ghost predicate EntryCause(env: Platform, a: Array, lo: nat, i: nat, e: Error)
    requires WellFormed(a) && a.MapArray? && a.keys.Utf8Array? && i < Len(a.keys)
    decreases a, 0, 0
  {
    && lo <= i && (if !a.keys.valid[i] then e == NullMapKey else FirstCause(env, a.values, i, e))
    && forall j :: lo <= j < i ==> a.keys.valid[j] && !Tainted(env, a.values, j)
  }

  /** The error a conversion returns is the first thing wrong with the cell, and names it. */
  lemma {:induction false} ErrorIsFirstCause(env: Platform, a: Array, row: nat, e: Error)
    requires WellFormed(a) && row < Len(a)
    ensures Cell(env, a, row) == Err(e) <==> FirstCause(env, a, row, e)
    decreases a, 1, 0
  {
    if a.valid[row] {
      match a
      case NumArray(kind, _, nums) => NumErrs(env, kind, nums[row], e);
      case ListArray(_, offsets, child) => RangeCause(env, child, offsets[row], offsets[row + 1], e);
      case MapArray(_, offsets, keys, _) =>
        if keys.Utf8Array? && !keys.large {
          EntriesCause(env, a, offsets[row], offsets[row + 1], e);
        }
      case StructArray(_, _, columns) => FieldsCause(env, a, row, |columns|, e);
      case DictArray(_, _, indices, values) =>
        if indices[row] >= 0 {
          ErrorIsFirstCause(env, values, indices[row], e);
        }
      case _ =>
    }
  }

  lemma {:induction false} RangeCause(env: Platform, a: Array, lo: nat, hi: nat, e: Error)
    requires WellFormed(a) && lo <= hi <= Len(a)
    ensures Range(env, a, lo, hi) == Err(e) <==> FirstInRange(env, a, lo, hi, e)
    decreases a, 2, hi
  {
    if lo < hi {
      RangeCause(env, a, lo, hi - 1, e);
      RangeErrs(env, a, lo, hi - 1);
      ErrorIsFirstCause(env, a, hi - 1, e);
    }
  }

  lemma EntriesErrStep(env: Platform, a: Array, lo: nat, hi: nat, e: Error)
    requires WellFormed(a) && a.MapArray? && a.keys.Utf8Array? && lo < hi <= Len(a.keys)
    ensures Entries(env, a, lo, hi) == Err(e) <==>
      Entries(env, a, lo, hi - 1) == Err(e) ||
      (Entries(env, a, lo, hi - 1).Ok? &&
       if !a.keys.valid[hi - 1] then e == NullMapKey else Cell(env, a.values, hi - 1) == Err(e))
  {
  }

  lemma {:induction false} EntriesCause(env: Platform, a: Array, lo: nat, hi: nat, e: Error)
    requires WellFormed(a) && a.MapArray? && a.keys.Utf8Array? && lo <= hi <= Len(a.keys)
    ensures Entries(env, a, lo, hi) == Err(e) <==> FirstInEntries(env, a, lo, hi, e)
    decreases a, 0, hi
  {
    if lo < hi {
      EntriesCause(env, a, lo, hi - 1, e);
      EntriesErr(env, a, lo, hi - 1);
      ErrorIsFirstCause(env, a.values, hi - 1, e);
      EntriesErrStep(env, a, lo, hi, e);
      assert FirstInEntries(env, a, lo, hi, e) <==>
        FirstInEntries(env, a, lo, hi - 1, e) || EntryCause(env, a, lo, hi - 1, e);
    }
  }

  lemma {:induction false} FieldsCause(env: Platform, a: Array, row: nat, k: nat, e: Error)
    requires WellFormed(a) && a.StructArray? && row < Len(a) && k <= |a.columns|
    ensures Fields(env, a, row, k) == Err(e) <==> FirstInFields(env, a, row, k, e)
    decreases a, 0, k
  {
    if k > 0 {
      FieldsCause(env, a, row, k - 1, e);
      FieldsErr(env, a, row, k - 1);
      ErrorIsFirstCause(env, a.columns[k - 1], row, e);
    }
  }

  // ------------------------------------------------------------------
  // Which value it is
  // ------------------------------------------------------------------

  // Entry i of a map's `lo..hi` is the last one with this key.
  ghost predicate LastEntry(keys: Array, lo: nat, hi: nat, i: int, key: string)
    requires WellFormed(keys) && keys.Utf8Array? && hi <= Len(keys)
  {
    lo <= i < hi && KeyAt(keys, i) == Some(key) && forall j :: i < j < hi ==> KeyAt(keys, j) != Some(key)
  }

  ghost predicate LastField(names: seq<string>, n: nat, k: int, name: string) {
    0 <= k < n <= |names| && names[k] == name && forall j :: k < j < n ==> names[j] != name
  }

  // `v` is what the cell shows: null if it is null, else its own value, or the values of the cells below
  // it, each in its place. The last of several entries or fields of one name counts.
  ghost predicate Shows(env: Platform, a: Array, row: nat, v: Value)
    requires WellFormed(a) && row < Len(a)
    decreases a, 1
  {
    if !a.valid[row] then v == Null
    else
      match a
      case BoolArray(_, bits) => v == Bool(bits[row])
      case NumArray(kind, _, nums) => Becomes(env, kind, nums[row], v)
      case Utf8Array(_, _, offsets, text) => v == Str(text[offsets[row]..offsets[row + 1]])
      case BytesArray(_, offsets, data) => v == Bytes(data[offsets[row]..offsets[row + 1]])
      case FixedBytesArray(width, _, data) =>
        v.Bytes? && |v.data| == width && forall i :: 0 <= i < width ==>
          0 <= row * width + i < |data| && v.data[i] == data[row * width + i]
      case ListArray(_, offsets, child) => v.List? && ShowsRange(env, child, offsets[row], offsets[row + 1], v.items)
      case MapArray(_, offsets, keys, _) =>
        v.Map? && keys.Utf8Array? && ShowsEntries(env, a, offsets[row], offsets[row + 1], v.entries)
      case StructArray(_, _, columns) => v.Map? && ShowsFields(env, a, row, |columns|, v.entries)
      case DictArray(_, _, indices, values) => 0 <= indices[row] && Shows(env, values, indices[row], v)
      case OtherArray(_) => false
  }

  ghost predicate ShowsRange(env: Platform, a: Array, lo: nat, hi: nat, items: seq<Value>)
    requires WellFormed(a) && lo <= hi <= Len(a)
    decreases a, 2
  {
    |items| == hi - lo && forall k :: 0 <= k < |items| ==> Shows(env, a, lo + k, items[k])
  }

  ghost predicate ShowsEntries(env: Platform, a: Array, lo: nat, hi: nat, entries: map<string, Value>)
    requires WellFormed(a) && a.MapArray? && a.keys.Utf8Array? && lo <= hi <= Len(a.keys)
    decreases a, 0, 1
  {
    && (forall i :: lo <= i < hi ==> a.keys.valid[i] && KeyText(a.keys, i) in entries)
    && forall key :: key in entries ==> ShowsEntry(env, a, lo, hi, key, entries[key])
  }

  ghost predicate ShowsEntry(env: Platform, a: Array, lo: nat, hi: nat, key: string, v: Value)
    requires WellFormed(a) && a.MapArray? && a.keys.Utf8Array? && lo <= hi <= Len(a.keys)
    decreases a, 0, 0
  {
    exists i: nat :: i < hi && LastEntry(a.keys, lo, hi, i, key) && Shows(env, a.values, i, v)
  }

  ghost predicate ShowsFields(env: Platform, a: Array, row: nat, n: nat, entries: map<string, Value>)
    requires WellFormed(a) && a.StructArray? && row < Len(a) && n <= |a.columns|
    decreases a, 0, 1
  {
    && (forall k :: 0 <= k < n ==> a.names[k] in entries)
    && forall name :: name in entries ==> ShowsField(env, a, row, n, name, entries[name])
  }

  ghost predicate ShowsField(env: Platform, a: Array, row: nat, n: nat, name: string, v: Value)
    requires WellFormed(a) && a.StructArray? && row < Len(a) && n <= |a.columns|
    decreases a, 0, 0
  {
    exists k: nat :: k < n && LastField(a.names, n, k, name) && Shows(env, a.columns[k], row, v)
  }

  lemma FixedShows(env: Platform, a: Array, row: nat)
    requires WellFormed(a) && a.FixedBytesArray? && row < Len(a) && a.valid[row]
    ensures Shows(env, a, row, Cell(env, a, row).value)
  {
    Chunk(row, a.width, Len(a));
    assert (row + 1) * a.width == row * a.width + a.width;
  }

  /** A conversion that succeeds returns what the cell shows. */
  lemma {:induction false} ValueIsShown(env: Platform, a: Array, row: nat)
    requires WellFormed(a) && row < Len(a) && Cell(env, a, row).Ok?
    ensures Shows(env, a, row, Cell(env, a, row).value)
    decreases a, 1, 0
  {
    if a.valid[row] {
      match a
      case NumArray(_, _, _) => NumberBecomes(env, a, row);
      case FixedBytesArray(_, _, _) => FixedShows(env, a, row);
      case ListArray(_, offsets, child) => RangeShown(env, child, offsets[row], offsets[row + 1]);
      case MapArray(_, offsets, _, _) => EntriesShown(env, a, offsets[row], offsets[row + 1]);
      case StructArray(_, _, columns) => FieldsShown(env, a, row, |columns|);
      case DictArray(_, _, indices, values) => ValueIsShown(env, values, indices[row]);
      case _ =>
    }
  }

  lemma {:induction false} RangeShown(env: Platform, a: Array, lo: nat, hi: nat)
    requires WellFormed(a) && lo <= hi <= Len(a) && Range(env, a, lo, hi).Ok?
    ensures ShowsRange(env, a, lo, hi, Range(env, a, lo, hi).value)
    decreases a, 2, hi
  {
    if lo < hi {
      RangeShown(env, a, lo, hi - 1);
      ValueIsShown(env, a, hi - 1);
      var items := Range(env, a, lo, hi).value;
      forall k | 0 <= k < |items| ensures Shows(env, a, lo + k, items[k]) {
        assert k < |items| - 1 ==> items[k] == Range(env, a, lo, hi - 1).value[k];
      }
    }
  }

  lemma LastEntryStep(keys: Array, lo: nat, hi: nat, i: int, key: string)
    requires WellFormed(keys) && keys.Utf8Array? && lo < hi <= Len(keys)
    ensures LastEntry(keys, lo, hi, i, key) <==>
      (i == hi - 1 && KeyAt(keys, i) == Some(key)) ||
      (LastEntry(keys, lo, hi - 1, i, key) && KeyAt(keys, hi - 1) != Some(key))
  {
  }

  lemma EntryShown(env: Platform, a: Array, lo: nat, hi: nat, before: map<string, Value>, v: Value)
    requires WellFormed(a) && a.MapArray? && a.keys.Utf8Array? && lo < hi <= Len(a.keys) && a.keys.valid[hi - 1]
    requires ShowsEntries(env, a, lo, hi - 1, before) && Shows(env, a.values, hi - 1, v)
    ensures ShowsEntries(env, a, lo, hi, before[KeyText(a.keys, hi - 1) := v])
  {
    var last := KeyText(a.keys, hi - 1);
    var entries := before[last := v];
    forall key | key in entries ensures ShowsEntry(env, a, lo, hi, key, entries[key]) {
      if key == last {
        LastEntryStep(a.keys, lo, hi, hi - 1, key);
      } else {
        assert ShowsEntry(env, a, lo, hi - 1, key, before[key]);
        var i: nat :| i < hi - 1 && LastEntry(a.keys, lo, hi - 1, i, key) && Shows(env, a.values, i, before[key]);
        LastEntryStep(a.keys, lo, hi, i, key);
      }
    }
  }

  lemma EntryAdded(env: Platform, a: Array, lo: nat, hi: nat)
    requires WellFormed(a) && a.MapArray? && a.keys.Utf8Array? && lo < hi <= Len(a.keys) && Entries(env, a, lo, hi).Ok?
    ensures Entries(env, a, lo, hi - 1).Ok? && a.keys.valid[hi - 1] && Cell(env, a.values, hi - 1).Ok?
    ensures Entries(env, a, lo, hi).value ==
      Entries(env, a, lo, hi - 1).value[KeyText(a.keys, hi - 1) := Cell(env, a.values, hi - 1).value]
  {
  }

  lemma EntriesShownStep(env: Platform, a: Array, lo: nat, hi: nat)
    requires WellFormed(a) && a.MapArray? && a.keys.Utf8Array? && lo < hi <= Len(a.keys)
    requires Entries(env, a, lo, hi).Ok? && Entries(env, a, lo, hi - 1).Ok? && Cell(env, a.values, hi - 1).Ok?
    requires ShowsEntries(env, a, lo, hi - 1, Entries(env, a, lo, hi - 1).value)
    requires Shows(env, a.values, hi - 1, Cell(env, a.values, hi - 1).value)
    ensures ShowsEntries(env, a, lo, hi, Entries(env, a, lo, hi).value)
  {
    EntryAdded(env, a, lo, hi);
    EntryShown(env, a, lo, hi, Entries(env, a, lo, hi - 1).value, Cell(env, a.values, hi - 1).value);
  }

  lemma {:induction false} EntriesShown(env: Platform, a: Array, lo: nat, hi: nat)
    requires WellFormed(a) && a.MapArray? && a.keys.Utf8Array? && lo <= hi <= Len(a.keys)
    requires Entries(env, a, lo, hi).Ok?
    ensures ShowsEntries(env, a, lo, hi, Entries(env, a, lo, hi).value)
    decreases a, 0, hi
  {
    if lo == hi {
      NoEntriesShown(env, a, lo);
    } else {
      EntryAdded(env, a, lo, hi);
      EntriesShown(env, a, lo, hi - 1);
      ValueIsShown(env, a.values, hi - 1);
      EntriesShownStep(env, a, lo, hi);
    }
  }

  lemma NoEntriesShown(env: Platform, a: Array, lo: nat)
    requires WellFormed(a) && a.MapArray? && a.keys.Utf8Array? && lo <= Len(a.keys)
    ensures Entries(env, a, lo, lo) == Ok(map[]) && ShowsEntries(env, a, lo, lo, map[])
  {
  }

  lemma FieldKept(env: Platform, a: Array, row: nat, n: nat, name: string, v: Value)
    requires WellFormed(a) && a.StructArray? && row < Len(a) && n < |a.columns| && name != a.names[n]
    requires ShowsField(env, a, row, n, name, v)
    ensures ShowsField(env, a, row, n + 1, name, v)
  {
    var k: nat :| k < n && LastField(a.names, n, k, name) && Shows(env, a.columns[k], row, v);
    assert LastField(a.names, n + 1, k, name);
  }

  lemma FieldShown(env: Platform, a: Array, row: nat, n: nat, before: map<string, Value>, v: Value)
    requires WellFormed(a) && a.StructArray? && row < Len(a) && n < |a.columns|
    requires ShowsFields(env, a, row, n, before) && Shows(env, a.columns[n], row, v)
    ensures ShowsFields(env, a, row, n + 1, before[a.names[n] := v])
  {
    var entries := before[a.names[n] := v];
    var m := n + 1;
    forall name | name in entries ensures ShowsField(env, a, row, m, name, entries[name]) {
      if name == a.names[n] {
        assert LastField(a.names, m, n, name);
      } else {
        FieldKept(env, a, row, n, name, before[name]);
      }
    }
  }

  lemma {:induction false} FieldsShown(env: Platform, a: Array, row: nat, n: nat)
    requires WellFormed(a) && a.StructArray? && row < Len(a) && n <= |a.columns| && Fields(env, a, row, n).Ok?
    ensures ShowsFields(env, a, row, n, Fields(env, a, row, n).value)
    decreases a, 0, n
  {
    if n > 0 {
      FieldsShown(env, a, row, n - 1);
      ValueIsShown(env, a.columns[n - 1], row);
      FieldShown(env, a, row, n - 1, Fields(env, a, row, n - 1).value, Cell(env, a.columns[n - 1], row).value);
    }
  }

  /** And nothing else does the cell show. */
  lemma {:induction false} ShownOnce(env: Platform, a: Array, row: nat, v: Value, w: Value)
    requires WellFormed(a) && row < Len(a) && Shows(env, a, row, v) && Shows(env, a, row, w)
    ensures v == w
    decreases a, 1
  {
    if a.valid[row] {
      match a
      case NumArray(kind, _, nums) => BecomesOne(env, kind, nums[row], v, w);
      case ListArray(_, offsets, child) => ShownRangeOnce(env, child, offsets[row], offsets[row + 1], v.items, w.items);
      case MapArray(_, offsets, _, _) => ShownEntriesOnce(env, a, offsets[row], offsets[row + 1], v.entries, w.entries);
      case StructArray(_, _, columns) => ShownFieldsOnce(env, a, row, |columns|, v.entries, w.entries);
      case DictArray(_, _, indices, values) => ShownOnce(env, values, indices[row], v, w);
      case _ =>
    }
  }

  lemma {:induction false} ShownRangeOnce(env: Platform, a: Array, lo: nat, hi: nat, v: seq<Value>, w: seq<Value>)
    requires WellFormed(a) && lo <= hi <= Len(a) && ShowsRange(env, a, lo, hi, v) && ShowsRange(env, a, lo, hi, w)
    ensures v == w
    decreases a, 2
  {
    forall k | 0 <= k < |v| ensures v[k] == w[k] {
      ShownOnce(env, a, lo + k, v[k], w[k]);
    }
  }

  lemma {:induction false} ShownEntryOnce(env: Platform, a: Array, lo: nat, hi: nat, key: string, x: Value, y: Value)
    requires WellFormed(a) && a.MapArray? && a.keys.Utf8Array? && lo <= hi <= Len(a.keys)
    requires ShowsEntry(env, a, lo, hi, key, x) && ShowsEntry(env, a, lo, hi, key, y)
    ensures x == y
    decreases a, 0, 0
  {
    var i: nat :| i < hi && LastEntry(a.keys, lo, hi, i, key) && Shows(env, a.values, i, x);
    var j: nat :| j < hi && LastEntry(a.keys, lo, hi, j, key) && Shows(env, a.values, j, y);
    assert i == j;
    ShownOnce(env, a.values, i, x, y);
  }

  lemma {:induction false} ShownFieldOnce(env: Platform, a: Array, row: nat, n: nat, name: string, x: Value, y: Value)
    requires WellFormed(a) && a.StructArray? && row < Len(a) && n <= |a.columns|
    requires ShowsField(env, a, row, n, name, x) && ShowsField(env, a, row, n, name, y)
    ensures x == y
    decreases a, 0, 0
  {
    var i: nat :| i < n && LastField(a.names, n, i, name) && Shows(env, a.columns[i], row, x);
    var j: nat :| j < n && LastField(a.names, n, j, name) && Shows(env, a.columns[j], row, y);
    assert i == j;
    ShownOnce(env, a.columns[i], row, x, y);
  }

  lemma {:induction false} ShownEntriesOnce(env: Platform, a: Array, lo: nat, hi: nat, v: map<string, Value>,
                                            w: map<string, Value>)
    requires WellFormed(a) && a.MapArray? && a.keys.Utf8Array? && lo <= hi <= Len(a.keys)
    requires ShowsEntries(env, a, lo, hi, v) && ShowsEntries(env, a, lo, hi, w)
    ensures v == w
    decreases a, 0, 1
  {
    forall key | key in v && key in w ensures v[key] == w[key] {
      ShownEntryOnce(env, a, lo, hi, key, v[key], w[key]);
    }
    EntryKeys(env, a, lo, hi, v, w);
    EntryKeys(env, a, lo, hi, w, v);
    assert v.Keys == w.Keys;
  }

  lemma EntryKeys(env: Platform, a: Array, lo: nat, hi: nat, v: map<string, Value>, w: map<string, Value>)
    requires WellFormed(a) && a.MapArray? && a.keys.Utf8Array? && lo <= hi <= Len(a.keys)
    requires ShowsEntries(env, a, lo, hi, v) && ShowsEntries(env, a, lo, hi, w)
    ensures v.Keys <= w.Keys
  {
    forall key | key in v ensures key in w {
      assert ShowsEntry(env, a, lo, hi, key, v[key]);
      var i: nat :| i < hi && LastEntry(a.keys, lo, hi, i, key);
      assert KeyText(a.keys, i) == key;
    }
  }

  lemma {:induction false} ShownFieldsOnce(env: Platform, a: Array, row: nat, n: nat, v: map<string, Value>,
                                           w: map<string, Value>)
    requires WellFormed(a) && a.StructArray? && row < Len(a) && n <= |a.columns|
    requires ShowsFields(env, a, row, n, v) && ShowsFields(env, a, row, n, w)
    ensures v == w
    decreases a, 0, 1
  {
    forall name | name in v && name in w ensures v[name] == w[name] {
      ShownFieldOnce(env, a, row, n, name, v[name], w[name]);
    }
    FieldKeys(env, a, row, n, v, w);
    FieldKeys(env, a, row, n, w, v);
    assert v.Keys == w.Keys;
  }

  lemma FieldKeys(env: Platform, a: Array, row: nat, n: nat, v: map<string, Value>, w: map<string, Value>)
    requires WellFormed(a) && a.StructArray? && row < Len(a) && n <= |a.columns|
    requires ShowsFields(env, a, row, n, v) && ShowsFields(env, a, row, n, w)
    ensures v.Keys <= w.Keys
  {
    forall name | name in v ensures name in w {
      assert ShowsField(env, a, row, n, name, v[name]);
      var k: nat :| k < n && LastField(a.names, n, k, name);
      assert a.names[k] == name;
    }
  }

  /** A cell converts to a value iff nothing reachable from it is unrepresentable and that value is what it
      shows. */
  lemma ConversionIsExact(env: Platform, a: Array, row: nat, v: Value)
    requires WellFormed(a) && row < Len(a)
    ensures Cell(env, a, row) == Ok(v) <==> !Tainted(env, a, row) && Shows(env, a, row, v)
  {
    ErrsIffTainted(env, a, row);
    if Cell(env, a, row).Ok? {
      ValueIsShown(env, a, row);
      if Shows(env, a, row, v) {
        ShownOnce(env, a, row, v, Cell(env, a, row).value);
      }
    }
  }
}
