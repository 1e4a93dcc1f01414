/** A reference columnar encoder, and the round trip through the conversion. */
module ArrowEncode {
  import opened Prelude
  import opened ArrowTime
  import opened ArrowLayout
  import opened ArrowDecode

  datatype Type =
    | TBool
    | TNum(kind: NumKind)
    | TUtf8(large: bool)
    | TBytes
    | TFixedBytes(width: nat)
    | TList(elem: Type)
    | TMap(value: Type)
    | TStruct(fields: seq<Field>)
    | TDict(key: IntKind, value: Type)

  datatype Field = Field(name: string, ty: Type)

  // One row of a column. `RHidden` is a null row whose slot physically still holds a value.
  datatype Row =
    | RNull
    | RHidden(under: Row)
    | RBool(b: bool)
    | RNum(n: int)
    | RText(s: string)
    | RBytes(data: seq<Byte>)
    | RList(items: seq<Row>)
    | RMap(keys: seq<Option<string>>, items: seq<Row>)
    | RStruct(items: seq<Row>)

  predicate IsNull(r: Row) {
    r.RNull? || r.RHidden?
  }

  // What the slot of a row holds, null or not.
  function Body(r: Row): Row {
    if r.RHidden? then r.under else r
  }

  ghost predicate Fits(ty: Type, r: Row) {
    var b := Body(r);
    b.RNull? ||
    match ty
    case TBool => b.RBool?
    case TNum(kind) => b.RNum? && InNumKind(kind, b.n)
    case TUtf8(_) => b.RText?
    case TBytes => b.RBytes?
    case TFixedBytes(width) => b.RBytes? && |b.data| == width
    case TList(elem) => b.RList? && forall i :: 0 <= i < |b.items| ==> Fits(elem, b.items[i])
    case TMap(value) => b.RMap? && |b.keys| == |b.items| && forall i :: 0 <= i < |b.items| ==> Fits(value, b.items[i])
    case TStruct(fields) =>
      b.RStruct? && |b.items| == |fields| && forall k :: 0 <= k < |fields| ==> Fits(fields[k].ty, b.items[k])
    case TDict(_, value) => Fits(value, r)
  }

  ghost predicate AllFit(ty: Type, rows: seq<Row>) {
    forall i :: 0 <= i < |rows| ==> Fits(ty, rows[i])
  }

  // ------------------------------------------------------------------
  // What a row stands for
  // ------------------------------------------------------------------

  function Meaning(env: Platform, ty: Type, r: Row): Outcome
    requires Fits(ty, r)
    decreases ty, 1, 0
  {
    if IsNull(r) then Ok(Null)
    else
      match ty
      case TBool => Ok(Bool(r.b))
      case TNum(kind) => NumOf(env, kind, r.n)
      case TUtf8(_) => Ok(Str(r.s))
      case TBytes => Ok(Bytes(r.data))
      case TFixedBytes(_) => Ok(Bytes(r.data))
      case TList(elem) =>
        ListOf(MeaningOfItems(env, elem, r.items))
      case TMap(value) =>
        MapOf(MeaningOfEntries(env, value, r.keys, r.items))
      case TStruct(fields) =>
        MapOf(MeaningOfFields(env, ty, r.items, |fields|))
      case TDict(_, value) => Meaning(env, value, r)
  }

  function MeaningOfItems(env: Platform, ty: Type, rows: seq<Row>): Result<seq<Value>, Error>
    requires AllFit(ty, rows)
    decreases ty, 2, |rows|
  {
    if rows == [] then Ok([])
    else AddItem(MeaningOfItems(env, ty, rows[..|rows| - 1]), Meaning(env, ty, rows[|rows| - 1]))
  }

  // A missing key has no place in a property map; a repeated one keeps its last value.
  function MeaningOfEntries(env: Platform, ty: Type, keys: seq<Option<string>>,
                            rows: seq<Row>): Result<map<string, Value>, Error>
    requires |keys| == |rows| && AllFit(ty, rows)
    decreases ty, 2, |rows|
  {
    if rows == [] then Ok(map[])
    else
      AddEntry(MeaningOfEntries(env, ty, keys[..|rows| - 1], rows[..|rows| - 1]), keys[|rows| - 1],
               Meaning(env, ty, rows[|rows| - 1]))
  }

  function MeaningOfFields(env: Platform, ty: Type, rows: seq<Row>, k: nat): Result<map<string, Value>, Error>
    requires ty.TStruct? && |ty.fields| == |rows| && k <= |rows|
    requires forall i :: 0 <= i < |rows| ==> Fits(ty.fields[i].ty, rows[i])
    decreases ty, 0, k
  {
    if k == 0 then Ok(map[])
    else
      AddEntry(MeaningOfFields(env, ty, rows, k - 1), Some(ty.fields[k - 1].name),
        Meaning(env, ty.fields[k - 1].ty, rows[k - 1]))
  }

  // ------------------------------------------------------------------
  // Concatenation and offsets
  // ------------------------------------------------------------------

  function Offset<T>(parts: seq<seq<T>>, k: nat): nat
    requires k <= |parts|
  {
    if k == 0 then 0 else Offset(parts, k - 1) + |parts[k - 1]|
  }

  function Offsets<T>(parts: seq<seq<T>>): seq<nat> {
    seq(|parts| + 1, k requires 0 <= k <= |parts| => Offset(parts, k))
  }

  function Concat<T>(parts: seq<seq<T>>): seq<T> {
    if parts == [] then [] else Concat(parts[..|parts| - 1]) + parts[|parts| - 1]
  }

  lemma {:induction false} OffsetPrefix<T>(parts: seq<seq<T>>, n: nat, k: nat)
    requires k <= n <= |parts|
    ensures Offset(parts[..n], k) == Offset(parts, k)
  {
    if k > 0 {
      OffsetPrefix(parts, n, k - 1);
    }
  }

  lemma {:induction false} OffsetsGrow<T>(parts: seq<seq<T>>, i: nat, j: nat)
    requires i <= j <= |parts|
    ensures Offset(parts, i) <= Offset(parts, j)
  {
    if i < j {
      OffsetsGrow(parts, i, j - 1);
    }
  }

  // Cutting the concatenation at its offsets gives back the parts.
  lemma {:induction false} CutConcat<T>(parts: seq<seq<T>>, i: nat)
    requires i < |parts|
    ensures Offset(parts, i) <= Offset(parts, i + 1) <= |Concat(parts)|
    ensures Concat(parts)[Offset(parts, i)..Offset(parts, i + 1)] == parts[i]
  {
    var n := |parts| - 1;
    ConcatLength(parts);
    OffsetsGrow(parts, i + 1, |parts|);
    ConcatLength(parts[..n]);
    OffsetPrefix(parts, n, n);
    if i < n {
      CutConcat(parts[..n], i);
      OffsetPrefix(parts, n, i);
      OffsetPrefix(parts, n, i + 1);
    }
  }

  lemma {:induction false} ConcatLength<T>(parts: seq<seq<T>>)
    ensures |Concat(parts)| == Offset(parts, |parts|)
  {
    if parts != [] {
      ConcatLength(parts[..|parts| - 1]);
      OffsetPrefix(parts, |parts| - 1, |parts| - 1);
    }
  }

  lemma OffsetsCut<T>(parts: seq<seq<T>>)
    ensures Cuts(Offsets(parts), |parts|, |Concat(parts)|)
  {
    ConcatLength(parts);
    forall i, j | 0 <= i <= j <= |parts| ensures Offsets(parts)[i] <= Offsets(parts)[j] {
      OffsetsGrow(parts, i, j);
    }
  }

  lemma {:induction false} ConcatFits(ty: Type, parts: seq<seq<Row>>)
    requires forall i :: 0 <= i < |parts| ==> AllFit(ty, parts[i])
    ensures AllFit(ty, Concat(parts))
  {
    if parts != [] {
      ConcatFits(ty, parts[..|parts| - 1]);
    }
  }

  // ------------------------------------------------------------------
  // The encoder
  // ------------------------------------------------------------------

  function Validity(rows: seq<Row>): seq<bool> {
    seq(|rows|, i requires 0 <= i < |rows| => !IsNull(rows[i]))
  }

  function Nums(rows: seq<Row>): seq<int> {
    seq(|rows|, i requires 0 <= i < |rows| => if Body(rows[i]).RNum? then Body(rows[i]).n else 0)
  }

  function Texts(rows: seq<Row>): seq<string> {
    seq(|rows|, i requires 0 <= i < |rows| => if Body(rows[i]).RText? then Body(rows[i]).s else "")
  }

  function Blobs(rows: seq<Row>): seq<seq<Byte>> {
    seq(|rows|, i requires 0 <= i < |rows| => if Body(rows[i]).RBytes? then Body(rows[i]).data else [])
  }

  function Padded(width: nat, rows: seq<Row>): seq<seq<Byte>> {
    seq(|rows|, i requires 0 <= i < |rows| =>
      if Body(rows[i]).RBytes? && |Body(rows[i]).data| == width then Body(rows[i]).data else seq(width, _ => 0))
  }

  // The elements of list and map rows; other rows have none.
  function Parts(rows: seq<Row>): seq<seq<Row>> {
    seq(|rows|, i requires 0 <= i < |rows| =>
      if Body(rows[i]).RList? || Body(rows[i]).RMap? then Body(rows[i]).items else [])
  }

  function KeyParts(rows: seq<Row>): seq<seq<Option<string>>> {
    seq(|rows|, i requires 0 <= i < |rows| => if Body(rows[i]).RMap? then Body(rows[i]).keys else [])
  }

  function KeyArray(keys: seq<Option<string>>): Array {
    var texts := seq(|keys|, i requires 0 <= i < |keys| => if keys[i].Some? then keys[i].value else "");
    Utf8Array(false, seq(|keys|, i requires 0 <= i < |keys| => keys[i].Some?), Offsets(texts), Concat(texts))
  }

  // Field `k` of every struct row; a null row contributes its hidden field, if it has one.
  function Column(rows: seq<Row>, k: nat): seq<Row> {
    seq(|rows|, i requires 0 <= i < |rows| =>
      if Body(rows[i]).RStruct? && k < |Body(rows[i]).items| then Body(rows[i]).items[k] else RNull)
  }

  // The distinct non-null rows, in order of first appearance.
  function Table(rows: seq<Row>): (table: seq<Row>)
    ensures forall r :: r in rows && !IsNull(r) ==> r in table
    ensures forall r :: r in table ==> r in rows && !IsNull(r)
  {
    if rows == [] then []
    else
      var init, last := Table(rows[..|rows| - 1]), rows[|rows| - 1];
      if IsNull(last) || last in init then init else init + [last]
  }

  function IndexOf(table: seq<Row>, r: Row): (i: nat)
    ensures r in table ==> i < |table| && table[i] == r
  {
    if table == [] || table[0] == r then 0 else 1 + IndexOf(table[1..], r)
  }

  function Indices(rows: seq<Row>): seq<int> {
    var table := Table(rows);
    seq(|rows|, i requires 0 <= i < |rows| => if IsNull(rows[i]) then 0 else IndexOf(table, rows[i]))
  }

  ghost function Encode(ty: Type, rows: seq<Row>): (a: Array)
    requires AllFit(ty, rows)
    ensures Len(a) == |rows|
    decreases ty
  {
    var valid := Validity(rows);
    match ty
    case TBool => BoolArray(valid, seq(|rows|, i requires 0 <= i < |rows| => rows[i].RBool? && rows[i].b))
    case TNum(kind) => NumArray(kind, valid, Nums(rows))
    case TUtf8(large) => Utf8Array(large, valid, Offsets(Texts(rows)), Concat(Texts(rows)))
    case TBytes => BytesArray(valid, Offsets(Blobs(rows)), Concat(Blobs(rows)))
    case TFixedBytes(width) => FixedBytesArray(width, valid, Concat(Padded(width, rows)))
    case TList(elem) =>
      PartsFit(ty, elem, rows);
      ListArray(valid, Offsets(Parts(rows)), Encode(elem, Concat(Parts(rows))))
    case TMap(value) =>
      PartsFit(ty, value, rows);
      MapArray(valid, Offsets(Parts(rows)), KeyArray(Concat(KeyParts(rows))), Encode(value, Concat(Parts(rows))))
    case TStruct(fields) =>
      StructArray(valid, seq(|fields|, k requires 0 <= k < |fields| => fields[k].name),
        seq(|fields|, k requires 0 <= k < |fields| =>
          ColumnFits(ty, rows, k);
          Encode(fields[k].ty, Column(rows, k))))
    case TDict(key, value) =>
      TableFits(ty, rows);
      DictArray(Some(key), valid, Indices(rows), Encode(value, Table(rows)))
  }

  lemma PartsFit(ty: Type, elem: Type, rows: seq<Row>)
    requires AllFit(ty, rows) && (ty == TList(elem) || ty == TMap(elem))
    ensures AllFit(elem, Concat(Parts(rows)))
  {
    forall i | 0 <= i < |rows| ensures AllFit(elem, Parts(rows)[i]) {
      assert Fits(ty, rows[i]);
    }
    ConcatFits(elem, Parts(rows));
  }

  lemma ColumnFits(ty: Type, rows: seq<Row>, k: nat)
    requires AllFit(ty, rows) && ty.TStruct? && k < |ty.fields|
    ensures AllFit(ty.fields[k].ty, Column(rows, k))
  {
    forall i | 0 <= i < |rows| ensures Fits(ty.fields[k].ty, Column(rows, k)[i]) {
      assert Fits(ty, rows[i]);
    }
  }

  lemma TableFits(ty: Type, rows: seq<Row>)
    requires AllFit(ty, rows) && ty.TDict?
    ensures AllFit(ty.value, Table(rows))
  {
    forall i | 0 <= i < |Table(rows)| ensures Fits(ty.value, Table(rows)[i]) {
      assert Table(rows)[i] in Table(rows);
      var j :| 0 <= j < |rows| && rows[j] == Table(rows)[i];
      assert Fits(ty, rows[j]);
    }
  }

  // ------------------------------------------------------------------
  // The encoding is well formed
  // ------------------------------------------------------------------

  lemma {:induction false} PaddedOffset(width: nat, rows: seq<Row>, k: nat)
    requires k <= |rows|
    ensures Offset(Padded(width, rows), k) == k * width
  {
    if k > 0 {
      PaddedOffset(width, rows, k - 1);
    }
  }

  // Keys and values of map rows are cut alike.
  lemma {:induction false} KeysAlongItems(ty: Type, rows: seq<Row>, k: nat)
    requires AllFit(ty, rows) && ty.TMap? && k <= |rows|
    ensures Offset(KeyParts(rows), k) == Offset(Parts(rows), k)
  {
    if k > 0 {
      KeysAlongItems(ty, rows, k - 1);
      assert Fits(ty, rows[k - 1]);
    }
  }

  lemma KeyArrayFine(keys: seq<Option<string>>, i: nat)
    requires i < |keys|
    ensures WellFormed(KeyArray(keys)) && KeyArray(keys).valid[i] == keys[i].Some?
    ensures keys[i].Some? ==> KeyText(KeyArray(keys), i) == keys[i].value
  {
    var texts := seq(|keys|, j requires 0 <= j < |keys| => if keys[j].Some? then keys[j].value else "");
    OffsetsCut(texts);
    CutConcat(texts, i);
  }

  lemma MapWellFormed(ty: Type, rows: seq<Row>)
    requires AllFit(ty, rows) && ty.TMap?
    requires AllFit(ty.value, Concat(Parts(rows))) && WellFormed(Encode(ty.value, Concat(Parts(rows))))
    ensures WellFormed(Encode(ty, rows)) && |Concat(KeyParts(rows))| == |Concat(Parts(rows))|
  {
    OffsetsCut(Parts(rows));
    KeysAlongItems(ty, rows, |rows|);
    ConcatLength(Parts(rows));
    ConcatLength(KeyParts(rows));
    var keys := Concat(KeyParts(rows));
    OffsetsCut(seq(|keys|, j requires 0 <= j < |keys| => if keys[j].Some? then keys[j].value else ""));
  }

  lemma NumsFit(ty: Type, rows: seq<Row>)
    requires AllFit(ty, rows) && ty.TNum?
    ensures forall i :: 0 <= i < |rows| ==> InNumKind(ty.kind, Nums(rows)[i])
  {
    forall i | 0 <= i < |rows| ensures InNumKind(ty.kind, Nums(rows)[i]) {
      assert Fits(ty, rows[i]);
    }
  }

  lemma {:induction false} EncodeWellFormed(ty: Type, rows: seq<Row>)
    requires AllFit(ty, rows)
    ensures WellFormed(Encode(ty, rows))
    decreases ty
  {
    match ty
    case TNum(_) => NumsFit(ty, rows);
    case TUtf8(_) => OffsetsCut(Texts(rows));
    case TBytes => OffsetsCut(Blobs(rows));
    case TFixedBytes(width) =>
      ConcatLength(Padded(width, rows));
      PaddedOffset(width, rows, |rows|);
    case TList(elem) =>
      PartsFit(ty, elem, rows);
      OffsetsCut(Parts(rows));
      EncodeWellFormed(elem, Concat(Parts(rows)));
    case TMap(value) =>
      PartsFit(ty, value, rows);
      EncodeWellFormed(value, Concat(Parts(rows)));
      MapWellFormed(ty, rows);
    case TStruct(_) => StructWellFormed(ty, rows);
    case TDict(_, value) =>
      TableFits(ty, rows);
      EncodeWellFormed(value, Table(rows));
    case _ =>
  }

  lemma {:induction false} StructWellFormed(ty: Type, rows: seq<Row>)
    requires AllFit(ty, rows) && ty.TStruct?
    ensures WellFormed(Encode(ty, rows))
    decreases ty, 0
  {
    var a := Encode(ty, rows);
    forall k | 0 <= k < |ty.fields| ensures WellFormed(a.columns[k]) && Len(a.columns[k]) == |rows| {
      ColumnFits(ty, rows, k);
      EncodeWellFormed(ty.fields[k].ty, Column(rows, k));
    }
  }

  // ------------------------------------------------------------------
  // The round trip
  // ------------------------------------------------------------------

  // `a` converts, row by row, to what `rows` stand for.
  ghost predicate Conveys(env: Platform, a: Array, ty: Type, rows: seq<Row>) {
    && AllFit(ty, rows) && WellFormed(a) && Len(a) == |rows|
    && forall i :: 0 <= i < |rows| ==> Cell(env, a, i) == Meaning(env, ty, rows[i])
  }

  ghost predicate ConveysKeys(a: Array, keys: seq<Option<string>>) {
    && WellFormed(a) && a.Utf8Array? && !a.large && Len(a) == |keys|
    && forall j :: 0 <= j < |keys| ==> KeyAt(a, j) == keys[j]
  }

  lemma {:induction false} RangeConveys(env: Platform, a: Array, ty: Type, rows: seq<Row>, lo: nat, hi: nat)
    requires Conveys(env, a, ty, rows) && lo <= hi <= |rows|
    ensures Range(env, a, lo, hi) == MeaningOfItems(env, ty, rows[lo..hi])
    decreases hi
  {
    if lo < hi {
      RangeConveys(env, a, ty, rows, lo, hi - 1);
      assert rows[lo..hi][..hi - lo - 1] == rows[lo..hi - 1];
    }
  }

  lemma LastEntry(env: Platform, ty: Type, keys: seq<Option<string>>, rows: seq<Row>, lo: nat, hi: nat)
    requires AllFit(ty, rows) && |keys| == |rows| && lo < hi <= |rows|
    ensures MeaningOfEntries(env, ty, keys[lo..hi], rows[lo..hi])
         == AddEntry(MeaningOfEntries(env, ty, keys[lo..hi - 1], rows[lo..hi - 1]), keys[hi - 1],
           Meaning(env, ty, rows[hi - 1]))
  {
    assert keys[lo..hi][..hi - lo - 1] == keys[lo..hi - 1];
    assert rows[lo..hi][..hi - lo - 1] == rows[lo..hi - 1];
  }

  lemma LastCellEntry(env: Platform, a: Array, lo: nat, hi: nat)
    requires WellFormed(a) && a.MapArray? && a.keys.Utf8Array? && !a.keys.large && lo < hi <= Len(a.keys)
    ensures Entries(env, a, lo, hi) ==
      AddEntry(Entries(env, a, lo, hi - 1), KeyAt(a.keys, hi - 1), Cell(env, a.values, hi - 1))
  {
  }

  lemma {:induction false} EntriesConvey(env: Platform, a: Array, ty: Type, keys: seq<Option<string>>, rows: seq<Row>,
                                         lo: nat, hi: nat)
    requires WellFormed(a) && a.MapArray? && ConveysKeys(a.keys, keys) && |keys| == |rows|
    requires Conveys(env, a.values, ty, rows) && lo <= hi <= |rows|
    ensures Entries(env, a, lo, hi) == MeaningOfEntries(env, ty, keys[lo..hi], rows[lo..hi])
    decreases hi
  {
    if lo < hi {
      EntriesConvey(env, a, ty, keys, rows, lo, hi - 1);
      LastCellEntry(env, a, lo, hi);
      LastEntry(env, ty, keys, rows, lo, hi);
    }
  }

  lemma {:induction false} FieldsConvey(env: Platform, a: Array, row: nat, ty: Type, items: seq<Row>, k: nat)
    requires WellFormed(a) && a.StructArray? && ty.TStruct? && row < Len(a)
    requires |a.columns| == |ty.fields| == |items| && k <= |items|
    requires forall j :: 0 <= j < |items| ==> a.names[j] == ty.fields[j].name && Fits(ty.fields[j].ty, items[j])
    requires forall j :: 0 <= j < |items| ==> Cell(env, a.columns[j], row) == Meaning(env, ty.fields[j].ty, items[j])
    ensures Fields(env, a, row, k) == MeaningOfFields(env, ty, items, k)
    decreases k
  {
    if k > 0 {
      FieldsConvey(env, a, row, ty, items, k - 1);
    }
  }

  lemma FixedRoundTrip(env: Platform, ty: Type, rows: seq<Row>, i: nat)
    requires AllFit(ty, rows) && i < |rows| && ty.TFixedBytes? && !IsNull(rows[i]) && WellFormed(Encode(ty, rows))
    ensures Cell(env, Encode(ty, rows), i) == Meaning(env, ty, rows[i])
  {
    assert Fits(ty, rows[i]);
    CutConcat(Padded(ty.width, rows), i);
    PaddedOffset(ty.width, rows, i);
    PaddedOffset(ty.width, rows, i + 1);
  }

  lemma ListLayoutAt(ty: Type, rows: seq<Row>, i: nat)
    requires AllFit(ty, rows) && i < |rows| && ty.TList? && AllFit(ty.elem, Concat(Parts(rows)))
    ensures var a := Encode(ty, rows);
      && a.ListArray? && a.child == Encode(ty.elem, Concat(Parts(rows)))
      && a.valid[i] == !IsNull(rows[i]) && |a.offsets| == |rows| + 1
      && a.offsets[i] == Offset(Parts(rows), i) && a.offsets[i + 1] == Offset(Parts(rows), i + 1)
  {
  }

  lemma ListCellConveys(env: Platform, a: Array, i: nat, ty: Type, rows: seq<Row>)
    requires WellFormed(a) && a.ListArray? && i < Len(a) && a.valid[i] && Conveys(env, a.child, ty, rows)
    ensures Cell(env, a, i) == ListOf(MeaningOfItems(env, ty, rows[a.offsets[i]..a.offsets[i + 1]]))
  {
    RangeConveys(env, a.child, ty, rows, a.offsets[i], a.offsets[i + 1]);
  }

  lemma ListRoundTrip(env: Platform, ty: Type, rows: seq<Row>, i: nat)
    requires AllFit(ty, rows) && i < |rows| && ty.TList? && !IsNull(rows[i]) && WellFormed(Encode(ty, rows))
    requires AllFit(ty.elem, Concat(Parts(rows)))
    requires Conveys(env, Encode(ty.elem, Concat(Parts(rows))), ty.elem, Concat(Parts(rows)))
    ensures Cell(env, Encode(ty, rows), i) == Meaning(env, ty, rows[i])
  {
    assert Fits(ty, rows[i]);
    ListLayoutAt(ty, rows, i);
    ListCellConveys(env, Encode(ty, rows), i, ty.elem, Concat(Parts(rows)));
    CutConcat(Parts(rows), i);
  }

  lemma StructRoundTrip(env: Platform, ty: Type, rows: seq<Row>, i: nat)
    requires AllFit(ty, rows) && i < |rows| && ty.TStruct? && !IsNull(rows[i]) && WellFormed(Encode(ty, rows))
    requires Fits(ty, rows[i])
    requires forall k :: 0 <= k < |ty.fields| ==>
      Cell(env, Encode(ty, rows).columns[k], i) == Meaning(env, ty.fields[k].ty, rows[i].items[k])
    ensures Cell(env, Encode(ty, rows), i) == Meaning(env, ty, rows[i])
  {
    FieldsConvey(env, Encode(ty, rows), i, ty, rows[i].items, |ty.fields|);
  }

  // The entries of row `i` are the matching stretches of the concatenated keys and values.
  lemma CutMap(ty: Type, rows: seq<Row>, i: nat)
    requires AllFit(ty, rows) && i < |rows| && ty.TMap? && !IsNull(rows[i])
    requires AllFit(ty.value, Concat(Parts(rows))) && WellFormed(Encode(ty.value, Concat(Parts(rows))))
    ensures rows[i].RMap? && |Concat(KeyParts(rows))| == |Concat(Parts(rows))|
    ensures Offset(Parts(rows), i) <= Offset(Parts(rows), i + 1) <= |Concat(Parts(rows))|
    ensures Concat(Parts(rows))[Offset(Parts(rows), i)..Offset(Parts(rows), i + 1)] == rows[i].items
    ensures Concat(KeyParts(rows))[Offset(Parts(rows), i)..Offset(Parts(rows), i + 1)] == rows[i].keys
  {
    assert Fits(ty, rows[i]);
    MapWellFormed(ty, rows);
    CutConcat(Parts(rows), i);
    CutConcat(KeyParts(rows), i);
    KeysAlongItems(ty, rows, i);
    KeysAlongItems(ty, rows, i + 1);
  }

  lemma KeysConvey(keys: seq<Option<string>>)
    ensures ConveysKeys(KeyArray(keys), keys)
  {
    OffsetsCut(seq(|keys|, j requires 0 <= j < |keys| => if keys[j].Some? then keys[j].value else ""));
    forall j | 0 <= j < |keys| ensures KeyAt(KeyArray(keys), j) == keys[j] {
      KeyArrayFine(keys, j);
    }
  }

  lemma MapCellConveys(env: Platform, a: Array, i: nat, ty: Type, keys: seq<Option<string>>, rows: seq<Row>)
    requires WellFormed(a) && a.MapArray? && i < Len(a) && a.valid[i]
    requires ConveysKeys(a.keys, keys) && |keys| == |rows|
    requires Conveys(env, a.values, ty, rows)
    ensures Cell(env, a, i) ==
      MapOf(MeaningOfEntries(env, ty, keys[a.offsets[i]..a.offsets[i + 1]], rows[a.offsets[i]..a.offsets[i + 1]]))
  {
    EntriesConvey(env, a, ty, keys, rows, a.offsets[i], a.offsets[i + 1]);
  }

  lemma MapMeaning(env: Platform, ty: Type, r: Row)
    requires Fits(ty, r) && ty.TMap? && !IsNull(r)
    ensures r.RMap? && |r.keys| == |r.items| && AllFit(ty.value, r.items)
    ensures Meaning(env, ty, r) == MapOf(MeaningOfEntries(env, ty.value, r.keys, r.items))
  {
  }

  // A map cell whose offsets cut out the entries of row `r`.
  lemma MapRoundTrip(env: Platform, a: Array, i: nat, ty: Type, r: Row, keys: seq<Option<string>>, rows: seq<Row>)
    requires WellFormed(a) && a.MapArray? && i < Len(a) && a.valid[i]
    requires ConveysKeys(a.keys, keys) && |keys| == |rows|
    requires Fits(ty, r) && ty.TMap? && r.RMap? && Conveys(env, a.values, ty.value, rows)
    requires r.keys == keys[a.offsets[i]..a.offsets[i + 1]] && r.items == rows[a.offsets[i]..a.offsets[i + 1]]
    ensures Cell(env, a, i) == Meaning(env, ty, r)
  {
    MapMeaning(env, ty, r);
    MapCellConveys(env, a, i, ty.value, keys, rows);
  }

  predicate Scalar(ty: Type) {
    !ty.TList? && !ty.TMap? && !ty.TStruct? && !ty.TDict?
  }

  lemma TextRoundTrip(env: Platform, ty: Type, rows: seq<Row>, i: nat)
    requires AllFit(ty, rows) && i < |rows| && (ty.TUtf8? || ty.TBytes?) && !IsNull(rows[i]) &&
      WellFormed(Encode(ty, rows))
    ensures Cell(env, Encode(ty, rows), i) == Meaning(env, ty, rows[i])
  {
    assert Fits(ty, rows[i]);
    if ty.TUtf8? {
      CutConcat(Texts(rows), i);
    } else {
      CutConcat(Blobs(rows), i);
    }
  }

  lemma ScalarRoundTrip(env: Platform, ty: Type, rows: seq<Row>, i: nat)
    requires AllFit(ty, rows) && i < |rows| && Scalar(ty) && !IsNull(rows[i]) && WellFormed(Encode(ty, rows))
    ensures Cell(env, Encode(ty, rows), i) == Meaning(env, ty, rows[i])
  {
    assert Fits(ty, rows[i]);
    if ty.TUtf8? || ty.TBytes? {
      TextRoundTrip(env, ty, rows, i);
    } else if ty.TFixedBytes? {
      FixedRoundTrip(env, ty, rows, i);
    }
  }

  lemma DictRoundTrip(env: Platform, ty: Type, rows: seq<Row>, i: nat)
    requires AllFit(ty, rows) && i < |rows| && ty.TDict? && !IsNull(rows[i]) && WellFormed(Encode(ty, rows))
    requires AllFit(ty.value, Table(rows))
    requires Conveys(env, Encode(ty.value, Table(rows)), ty.value, Table(rows))
    ensures Cell(env, Encode(ty, rows), i) == Meaning(env, ty, rows[i])
  {
    assert Fits(ty, rows[i]);
    assert rows[i] in Table(rows);
  }

  /** Converting a row of an encoded column gives what the row stands for: its value, with nulls
      kept and nothing under a null looked at, or the error of its first unrepresentable part. */
  lemma {:induction false} RoundTrip(env: Platform, ty: Type, rows: seq<Row>, i: nat)
    requires AllFit(ty, rows) && i < |rows|
    ensures WellFormed(Encode(ty, rows)) && Cell(env, Encode(ty, rows), i) == Meaning(env, ty, rows[i])
    decreases ty, 1
  {
    EncodeWellFormed(ty, rows);
    assert Fits(ty, rows[i]);
    if !IsNull(rows[i]) {
      match ty
      case TList(elem) =>
        PartsFit(ty, elem, rows);
        ColumnRoundTrip(env, elem, Concat(Parts(rows)));
        ListRoundTrip(env, ty, rows, i);
      case TMap(_) => MapCase(env, ty, rows, i);
      case TStruct(_) => StructCase(env, ty, rows, i);
      case TDict(_, value) =>
        TableFits(ty, rows);
        ColumnRoundTrip(env, value, Table(rows));
        DictRoundTrip(env, ty, rows, i);
      case _ => ScalarRoundTrip(env, ty, rows, i);
    }
  }

  lemma {:induction false} MapCase(env: Platform, ty: Type, rows: seq<Row>, i: nat)
    requires AllFit(ty, rows) && i < |rows| && ty.TMap? && !IsNull(rows[i]) && WellFormed(Encode(ty, rows))
    ensures Cell(env, Encode(ty, rows), i) == Meaning(env, ty, rows[i])
    decreases ty, 0
  {
    var a, keys, items := Encode(ty, rows), Concat(KeyParts(rows)), Concat(Parts(rows));
    PartsFit(ty, ty.value, rows);
    ColumnRoundTrip(env, ty.value, items);
    MapLayoutAt(ty, rows, i);
    assert ConveysKeys(a.keys, keys) by {
      KeysConvey(keys);
    }
    assert |keys| == |items| && rows[i].RMap? && rows[i].keys == keys[a.offsets[i]..a.offsets[i + 1]]
        && rows[i].items == items[a.offsets[i]..a.offsets[i + 1]] by {
      CutMap(ty, rows, i);
    }
    MapRoundTrip(env, a, i, ty, rows[i], keys, items);
  }

  lemma MapLayout(ty: Type, rows: seq<Row>)
    requires AllFit(ty, rows) && ty.TMap? && AllFit(ty.value, Concat(Parts(rows)))
    ensures Encode(ty, rows) == MapArray(Validity(rows), Offsets(Parts(rows)), KeyArray(Concat(KeyParts(rows))),
                                         Encode(ty.value, Concat(Parts(rows))))
  {
  }

  lemma MapLayoutAt(ty: Type, rows: seq<Row>, i: nat)
    requires AllFit(ty, rows) && i < |rows| && ty.TMap? && AllFit(ty.value, Concat(Parts(rows)))
    ensures var a := Encode(ty, rows);
      && a.MapArray? && a.keys == KeyArray(Concat(KeyParts(rows))) && a.values == Encode(ty.value, Concat(Parts(rows)))
      && a.valid[i] == !IsNull(rows[i]) && |a.offsets| == |rows| + 1
      && a.offsets[i] == Offset(Parts(rows), i) && a.offsets[i + 1] == Offset(Parts(rows), i + 1)
  {
    MapLayout(ty, rows);
  }

  lemma {:induction false} StructCase(env: Platform, ty: Type, rows: seq<Row>, i: nat)
    requires AllFit(ty, rows) && i < |rows| && ty.TStruct? && !IsNull(rows[i]) && WellFormed(Encode(ty, rows))
    requires Fits(ty, rows[i])
    ensures Cell(env, Encode(ty, rows), i) == Meaning(env, ty, rows[i])
    decreases ty, 0
  {
    forall k | 0 <= k < |ty.fields|
      ensures Cell(env, Encode(ty, rows).columns[k], i) == Meaning(env, ty.fields[k].ty, rows[i].items[k])
    {
      ColumnFits(ty, rows, k);
      RoundTrip(env, ty.fields[k].ty, Column(rows, k), i);
    }
    StructRoundTrip(env, ty, rows, i);
  }

  lemma {:induction false} ColumnRoundTrip(env: Platform, ty: Type, rows: seq<Row>)
    requires AllFit(ty, rows)
    ensures Conveys(env, Encode(ty, rows), ty, rows)
    decreases ty, 2
  {
    EncodeWellFormed(ty, rows);
    forall i | 0 <= i < |rows| ensures Cell(env, Encode(ty, rows), i) == Meaning(env, ty, rows[i]) {
      RoundTrip(env, ty, rows, i);
    }
  }

  // ------------------------------------------------------------------
  // Which rows have a meaning
  // ------------------------------------------------------------------

  // Every part of the row that a reader can see has a property value.
  ghost predicate Representable(env: Platform, ty: Type, r: Row)
    requires Fits(ty, r)
  {
    IsNull(r) ||
    match ty
    case TNum(kind) => NumRepresentable(env, kind, r.n)
    case TList(elem) => forall i :: 0 <= i < |r.items| ==> Representable(env, elem, r.items[i])
    case TMap(value) =>
      (forall i :: 0 <= i < |r.keys| ==> r.keys[i].Some?) && forall i :: 0 <= i < |r.items| ==>
        Representable(env, value, r.items[i])
    case TStruct(fields) => forall k :: 0 <= k < |fields| ==> Representable(env, fields[k].ty, r.items[k])
    case TDict(_, value) => Representable(env, value, r)
    case _ => true
  }

  lemma {:induction false} OkIffRepresentable(env: Platform, ty: Type, r: Row)
    requires Fits(ty, r)
    ensures Meaning(env, ty, r).Ok? <==> Representable(env, ty, r)
    decreases ty, 1, 0
  {
    if !IsNull(r) {
      match ty
      case TList(elem) => ItemsOk(env, elem, r.items);
      case TMap(value) => EntriesOk(env, value, r.keys, r.items);
      case TStruct(fields) => FieldsOk(env, ty, r.items, |fields|);
      case TDict(_, value) => OkIffRepresentable(env, value, r);
      case _ =>
    }
  }

  lemma {:induction false} ItemsOk(env: Platform, ty: Type, rows: seq<Row>)
    requires AllFit(ty, rows)
    ensures MeaningOfItems(env, ty, rows).Ok? <==> forall i :: 0 <= i < |rows| ==> Representable(env, ty, rows[i])
    decreases ty, 2, |rows|
  {
    if rows != [] {
      ItemsOk(env, ty, rows[..|rows| - 1]);
      OkIffRepresentable(env, ty, rows[|rows| - 1]);
    }
  }

  lemma {:induction false} EntriesOk(env: Platform, ty: Type, keys: seq<Option<string>>, rows: seq<Row>)
    requires |keys| == |rows| && AllFit(ty, rows)
    ensures MeaningOfEntries(env, ty, keys, rows).Ok? <==>
      (forall i :: 0 <= i < |keys| ==> keys[i].Some?) && forall i :: 0 <= i < |rows| ==> Representable(env, ty, rows[i])
    decreases ty, 2, |rows|
  {
    if rows != [] {
      EntriesOk(env, ty, keys[..|rows| - 1], rows[..|rows| - 1]);
      OkIffRepresentable(env, ty, rows[|rows| - 1]);
    }
  }

  lemma {:induction false} FieldsOk(env: Platform, ty: Type, rows: seq<Row>, k: nat)
    requires ty.TStruct? && |ty.fields| == |rows| && k <= |rows|
    requires forall i :: 0 <= i < |rows| ==> Fits(ty.fields[i].ty, rows[i])
    ensures MeaningOfFields(env, ty, rows, k).Ok? <==>
      forall i :: 0 <= i < k ==> Representable(env, ty.fields[i].ty, rows[i])
    decreases ty, 0, k
  {
    if k > 0 {
      FieldsOk(env, ty, rows, k - 1);
      OkIffRepresentable(env, ty.fields[k - 1].ty, rows[k - 1]);
    }
  }

  ghost predicate LastAt(keys: seq<Option<string>>, key: string, i: int) {
    0 <= i < |keys| && keys[i] == Some(key) && forall j :: i < j < |keys| ==> keys[j] != Some(key)
  }

  lemma LastAtInit(keys: seq<Option<string>>, key: string, i: nat)
    requires keys != [] && LastAt(keys, key, i)
    ensures i < |keys| - 1 ==> LastAt(keys[..|keys| - 1], key, i) && keys[|keys| - 1] != Some(key)
  {
  }

  lemma EntryAdded(env: Platform, ty: Type, keys: seq<Option<string>>, rows: seq<Row>)
    requires |keys| == |rows| && rows != [] && AllFit(ty, rows) && MeaningOfEntries(env, ty, keys, rows).Ok?
    ensures var n := |rows| - 1;
      var before, v := MeaningOfEntries(env, ty, keys[..n], rows[..n]), Meaning(env, ty, rows[n]);
      before.Ok? && keys[n].Some? && v.Ok? &&
      MeaningOfEntries(env, ty, keys, rows).value == before.value[keys[n].value := v.value]
  {
  }

  /** The map a row becomes has exactly the row's keys, each with the value of its last entry. */
  lemma {:induction false} LastEntryWins(env: Platform, ty: Type, keys: seq<Option<string>>, rows: seq<Row>,
                                         key: string)
    requires |keys| == |rows| && AllFit(ty, rows) && MeaningOfEntries(env, ty, keys, rows).Ok?
    ensures key in MeaningOfEntries(env, ty, keys, rows).value <==> Some(key) in keys
    ensures forall i :: LastAt(keys, key, i) && Some(key) in keys ==>
      Meaning(env, ty, rows[i]) == Ok(MeaningOfEntries(env, ty, keys, rows).value[key])
    decreases |rows|
  {
    if rows != [] {
      var n := |rows| - 1;
      EntryAdded(env, ty, keys, rows);
      LastEntryWins(env, ty, keys[..n], rows[..n], key);
      assert keys == keys[..n] + [keys[n]];
      forall i: nat | LastAt(keys, key, i) && i < n ensures LastAt(keys[..n], key, i) && keys[n] != Some(key) {
        LastAtInit(keys, key, i);
      }
    }
  }

  // ------------------------------------------------------------------
  // What a value says about its row
  // ------------------------------------------------------------------

  // Numbers that become one value: a Date64 counts up to its day, a single and a decimal up to the
  // double they become.
  predicate SameNum(env: Platform, kind: NumKind, n: int, n': int) {
    match kind
    case KFloat32 => env.widened(n) == env.widened(n')
    case KDate64 => Date64Day(n) == Date64Day(n')
    case KDecimal(_, scale) => env.scaled(n, scale) == env.scaled(n', scale)
    case _ => n == n'
  }

  // Two rows agree on everything that is not under a null, in a map up to the last entry of each key,
  // in a struct up to the last field of each name.
  ghost predicate SameVisible(env: Platform, ty: Type, r: Row, r': Row)
    requires Fits(ty, r) && Fits(ty, r')
    decreases ty, 0
  {
    (IsNull(r) <==> IsNull(r')) && (!IsNull(r) ==>
      match ty
      case TBool => r.b == r'.b
      case TNum(kind) => SameNum(env, kind, r.n, r'.n)
      case TUtf8(_) => r.s == r'.s
      case TBytes => r.data == r'.data
      case TFixedBytes(_) => r.data == r'.data
      case TList(elem) => SameItems(env, elem, r.items, r'.items)
      case TMap(value) => SameEntries(env, value, r.keys, r.items, r'.keys, r'.items)
      case TStruct(_) => SameFields(env, ty, r.items, r'.items)
      case TDict(_, value) => SameVisible(env, value, r, r'))
  }

  ghost predicate SameItems(env: Platform, ty: Type, rows: seq<Row>, rows': seq<Row>)
    requires AllFit(ty, rows) && AllFit(ty, rows')
    decreases ty, 1
  {
    |rows| == |rows'| && forall i :: 0 <= i < |rows| ==> SameVisible(env, ty, rows[i], rows'[i])
  }

  ghost predicate SameEntries(env: Platform, ty: Type, keys: seq<Option<string>>, rows: seq<Row>,
                              keys': seq<Option<string>>, rows': seq<Row>)
    requires |keys| == |rows| && |keys'| == |rows'| && AllFit(ty, rows) && AllFit(ty, rows')
    decreases ty, 1
  {
    && (forall key :: Some(key) in keys <==> Some(key) in keys')
    && forall key, i, j :: LastAt(keys, key, i) && LastAt(keys', key, j) ==> SameVisible(env, ty, rows[i], rows'[j])
  }

  ghost predicate SameFields(env: Platform, ty: Type, rows: seq<Row>, rows': seq<Row>)
    requires ty.TStruct? && FieldsFit(ty, rows) && FieldsFit(ty, rows')
    decreases ty, -1
  {
    forall k :: LastNamed(ty.fields, |ty.fields|, k) ==> SameVisible(env, ty.fields[k].ty, rows[k], rows'[k])
  }

  ghost predicate FieldsFit(ty: Type, rows: seq<Row>)
    requires ty.TStruct?
  {
    |rows| == |ty.fields| && forall i :: 0 <= i < |rows| ==> Fits(ty.fields[i].ty, rows[i])
  }

  // Field k is the last of its name among the first n.
  ghost predicate LastNamed(fields: seq<Field>, n: nat, k: int) {
    0 <= k < n <= |fields| && forall m :: k < m < n ==> fields[m].name != fields[k].name
  }

  lemma {:induction false} ItemsAt(env: Platform, ty: Type, rows: seq<Row>)
    requires AllFit(ty, rows) && MeaningOfItems(env, ty, rows).Ok?
    ensures |MeaningOfItems(env, ty, rows).value| == |rows|
    ensures forall i :: 0 <= i < |rows| ==> Meaning(env, ty, rows[i]) == Ok(MeaningOfItems(env, ty, rows).value[i])
  {
    if rows != [] {
      ItemsAt(env, ty, rows[..|rows| - 1]);
    }
  }

  lemma {:induction false} FieldsAt(env: Platform, ty: Type, rows: seq<Row>, n: nat, k: nat)
    requires ty.TStruct? && FieldsFit(ty, rows) && n <= |rows|
    requires MeaningOfFields(env, ty, rows, n).Ok? && LastNamed(ty.fields, n, k)
    ensures ty.fields[k].name in MeaningOfFields(env, ty, rows, n).value
    ensures Meaning(env, ty.fields[k].ty, rows[k]) == Ok(MeaningOfFields(env, ty, rows, n).value[ty.fields[k].name])
  {
    if k < n - 1 {
      FieldsAt(env, ty, rows, n - 1, k);
    }
  }

  lemma {:induction false} FieldNames(env: Platform, ty: Type, rows: seq<Row>, n: nat)
    requires ty.TStruct? && FieldsFit(ty, rows) && n <= |rows|
    requires MeaningOfFields(env, ty, rows, n).Ok?
    ensures forall name :: name in MeaningOfFields(env, ty, rows, n).value <==>
      exists k :: 0 <= k < n && ty.fields[k].name == name
  {
    if n > 0 {
      FieldNames(env, ty, rows, n - 1);
    }
  }

  lemma {:induction false} LastOfName(fields: seq<Field>, n: nat, k: nat) returns (l: nat)
    requires k < n <= |fields|
    ensures LastNamed(fields, n, l) && fields[l].name == fields[k].name
  {
    if fields[n - 1].name == fields[k].name {
      l := n - 1;
    } else {
      l := LastOfName(fields, n - 1, k);
    }
  }

  lemma {:induction false} LastOfKey(keys: seq<Option<string>>, key: string) returns (l: nat)
    requires Some(key) in keys
    ensures LastAt(keys, key, l)
  {
    if keys[|keys| - 1] == Some(key) {
      l := |keys| - 1;
    } else {
      l := LastOfKey(keys[..|keys| - 1], key);
    }
  }

  lemma NumDetermined(env: Platform, kind: NumKind, n: int, n': int)
    requires NumOf(env, kind, n).Ok? && NumOf(env, kind, n').Ok?
    ensures NumOf(env, kind, n) == NumOf(env, kind, n') <==> SameNum(env, kind, n, n')
  {
    if kind.KTimestamp? {
      SplitOrders(kind.unit, n, kind.unit, n');
    }
  }

  lemma {:induction false} ItemsDetermined(env: Platform, ty: Type, rows: seq<Row>, rows': seq<Row>)
    requires AllFit(ty, rows) && AllFit(ty, rows')
    requires MeaningOfItems(env, ty, rows).Ok? && MeaningOfItems(env, ty, rows').Ok?
    ensures MeaningOfItems(env, ty, rows) == MeaningOfItems(env, ty, rows') <==> SameItems(env, ty, rows, rows')
    decreases ty, 4
  {
    ItemsAt(env, ty, rows);
    ItemsAt(env, ty, rows');
    var v, v' := MeaningOfItems(env, ty, rows).value, MeaningOfItems(env, ty, rows').value;
    if |rows| == |rows'| {
      forall i | 0 <= i < |rows| ensures v[i] == v'[i] <==> SameVisible(env, ty, rows[i], rows'[i]) {
        MeaningDeterminesRow(env, ty, rows[i], rows'[i]);
      }
      assert v == v' <==> forall i :: 0 <= i < |v| ==> v[i] == v'[i];
    }
  }

  // What the value of a map says of the last entry of a key.
  lemma EntryAt(env: Platform, ty: Type, keys: seq<Option<string>>, rows: seq<Row>, key: string, i: nat)
    requires |keys| == |rows| && AllFit(ty, rows) && MeaningOfEntries(env, ty, keys, rows).Ok? && LastAt(keys, key, i)
    ensures var m := MeaningOfEntries(env, ty, keys, rows).value; key in m && Meaning(env, ty, rows[i]) == Ok(m[key])
  {
    LastEntryWins(env, ty, keys, rows, key);
  }

  lemma KeysAre(env: Platform, ty: Type, keys: seq<Option<string>>, rows: seq<Row>)
    requires |keys| == |rows| && AllFit(ty, rows) && MeaningOfEntries(env, ty, keys, rows).Ok?
    ensures forall key :: key in MeaningOfEntries(env, ty, keys, rows).value <==> Some(key) in keys
  {
    forall key ensures key in MeaningOfEntries(env, ty, keys, rows).value <==> Some(key) in keys {
      LastEntryWins(env, ty, keys, rows, key);
    }
  }

  lemma {:induction false} EntriesDetermined(env: Platform, ty: Type, keys: seq<Option<string>>, rows: seq<Row>,
                                             keys': seq<Option<string>>, rows': seq<Row>)
    requires |keys| == |rows| && |keys'| == |rows'| && AllFit(ty, rows) && AllFit(ty, rows')
    requires MeaningOfEntries(env, ty, keys, rows).Ok? && MeaningOfEntries(env, ty, keys', rows').Ok?
    ensures MeaningOfEntries(env, ty, keys, rows) == MeaningOfEntries(env, ty, keys', rows') <==>
      SameEntries(env, ty, keys, rows, keys', rows')
    decreases ty, 4
  {
    var m, m' := MeaningOfEntries(env, ty, keys, rows).value, MeaningOfEntries(env, ty, keys', rows').value;
    KeysAre(env, ty, keys, rows);
    KeysAre(env, ty, keys', rows');
    forall key, i, j | LastAt(keys, key, i) && LastAt(keys', key, j)
      ensures key in m && key in m' && (m[key] == m'[key] <==> SameVisible(env, ty, rows[i], rows'[j]))
    {
      EntryAt(env, ty, keys, rows, key, i);
      EntryAt(env, ty, keys', rows', key, j);
      MeaningDeterminesRow(env, ty, rows[i], rows'[j]);
    }
    if m == m' {
      forall key ensures Some(key) in keys <==> Some(key) in keys' {
        assert key in m <==> Some(key) in keys;
        assert key in m' <==> Some(key) in keys';
      }
    }
    if SameEntries(env, ty, keys, rows, keys', rows') {
      forall key | key in m ensures key in m' && m[key] == m'[key] {
        var i := LastOfKey(keys, key);
        var j := LastOfKey(keys', key);
        assert SameVisible(env, ty, rows[i], rows'[j]);
      }
      assert m.Keys == m'.Keys;
    }
  }

  lemma {:induction false} FieldAgrees(env: Platform, ty: Type, rows: seq<Row>, rows': seq<Row>, k: nat)
    requires ty.TStruct? && FieldsFit(ty, rows) && FieldsFit(ty, rows') && LastNamed(ty.fields, |rows|, k)
    requires MeaningOfFields(env, ty, rows, |rows|).Ok? && MeaningOfFields(env, ty, rows', |rows'|).Ok?
    ensures var m, m', name := MeaningOfFields(env, ty, rows, |rows|).value,
      MeaningOfFields(env, ty, rows', |rows'|).value, ty.fields[k].name;
      name in m && name in m' && (m[name] == m'[name] <==> SameVisible(env, ty.fields[k].ty, rows[k], rows'[k]))
    decreases ty, 1
  {
    FieldsAt(env, ty, rows, |rows|, k);
    FieldsAt(env, ty, rows', |rows'|, k);
    MeaningDeterminesRow(env, ty.fields[k].ty, rows[k], rows'[k]);
  }

  lemma {:induction false} FieldsDetermined(env: Platform, ty: Type, rows: seq<Row>, rows': seq<Row>)
    requires ty.TStruct? && FieldsFit(ty, rows) && FieldsFit(ty, rows')
    requires MeaningOfFields(env, ty, rows, |rows|).Ok? && MeaningOfFields(env, ty, rows', |rows'|).Ok?
    ensures MeaningOfFields(env, ty, rows, |rows|).value == MeaningOfFields(env, ty, rows', |rows'|).value <==>
      SameFields(env, ty, rows, rows')
    decreases ty, 2
  {
    var m, m' := MeaningOfFields(env, ty, rows, |rows|).value, MeaningOfFields(env, ty, rows', |rows'|).value;
    if m == m' {
      forall k | LastNamed(ty.fields, |ty.fields|, k) ensures SameVisible(env, ty.fields[k].ty, rows[k], rows'[k]) {
        FieldAgrees(env, ty, rows, rows', k);
      }
    }
    if SameFields(env, ty, rows, rows') {
      FieldNames(env, ty, rows, |rows|);
      FieldNames(env, ty, rows', |rows|);
      assert m.Keys == m'.Keys;
      forall name | name in m ensures m[name] == m'[name] {
        var k :| 0 <= k < |rows| && ty.fields[k].name == name;
        var l := LastOfName(ty.fields, |rows|, k);
        FieldAgrees(env, ty, rows, rows', l);
      }
    }
  }

  /** Two representable rows of one type convert to one value iff they agree on every visible part. */
  lemma {:induction false} MeaningDeterminesRow(env: Platform, ty: Type, r: Row, r': Row)
    requires Fits(ty, r) && Fits(ty, r') && Meaning(env, ty, r).Ok? && Meaning(env, ty, r').Ok?
    ensures Meaning(env, ty, r) == Meaning(env, ty, r') <==> SameVisible(env, ty, r, r')
    decreases ty, 3
  {
    NullMeaning(env, ty, r);
    NullMeaning(env, ty, r');
    if !IsNull(r) && !IsNull(r') {
      match ty
      case TNum(kind) => NumDetermined(env, kind, r.n, r'.n);
      case TList(elem) => ItemsDetermined(env, elem, r.items, r'.items);
      case TMap(value) => EntriesDetermined(env, value, r.keys, r.items, r'.keys, r'.items);
      case TStruct(_) => FieldsDetermined(env, ty, r.items, r'.items);
      case TDict(_, value) => MeaningDeterminesRow(env, value, r, r');
      case _ =>
    }
  }

  lemma {:induction false} NullMeaning(env: Platform, ty: Type, r: Row)
    requires Fits(ty, r)
    ensures Meaning(env, ty, r) == Ok(Null) <==> IsNull(r)
  {
    if !IsNull(r) && ty.TDict? {
      NullMeaning(env, ty.value, r);
    }
  }
}
