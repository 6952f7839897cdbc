/** Store values and entities as graphs of pointers in a module's linear memory: how the host reads them,
    what it means that memory holds one, and the host's allocating calls. */
module Heap {
  import opened ChainModel
  import opened Bytes
  import opened HeapLayout

  // ----- reading -----

  /** An absent pointer reads as no bytes. */
  function ReadBytes(data: seq<byte>, ptr: int): Result<seq<byte>> {
    if ptr == 0 then Ok([])
    else if ptr < 0 then Err
    else
      var start, length := ReadU32(data, ptr + 4), ReadU32(data, ptr + 8);
      if start.Err? || length.Err? || start.value + length.value > |data| then Err
      else Ok(data[start.value..start.value + length.value])
  }

  /** A string's length stands in front of it. */
  function ReadText(data: seq<byte>, ptr: int): Result<Text> {
    if ptr == 0 then Ok([])
    else if ptr < 4 then Err
    else
      var length := ReadU32(data, ptr - 4);
      if length.Err? || ptr + length.value > |data| then Err
      else
        var units := TextUnits(data[ptr..ptr + length.value]);
        if ValidUtf16(units) then Ok(units) else Err
  }

  function ReadBigInt(data: seq<byte>, ptr: int): Result<int> {
    var bytes := ReadBytes(data, ptr);
    if bytes.Ok? then Ok(SignedValue(bytes.value)) else Err
  }

  function ReadPointers(data: seq<byte>, at: nat, count: nat): Result<seq<int>>
    decreases count
  {
    if count == 0 then Ok([])
    else
      var first, rest := ReadI32(data, at), ReadPointers(data, at + 4, count - 1);
      if first.Err? || rest.Err? then Err else Ok([first.value] + rest.value)
  }

  /** An array's element count must not exceed its byte length. */
  function ReadArray(data: seq<byte>, ptr: int): Result<seq<int>> {
    if ptr == 0 then Ok([])
    else if ptr < 0 then Err
    else
      var start, size, length := ReadU32(data, ptr + 4), ReadU32(data, ptr + 8), ReadI32(data, ptr + 12);
      if start.Err? || size.Err? || length.Err? || length.value < 0 || length.value * 4 > size.value then Err
      else ReadPointers(data, start.value, length.value)
  }

  /** A value's payload as a pointer. */
  function PayloadPointer(payload: nat): Result<nat> {
    if payload < W31 then Ok(payload) else Err
  }

  function ReadDecimal(data: seq<byte>, ptr: nat): Result<StoreValue> {
    var digitsAt, expAt := ReadI32(data, ptr), ReadI32(data, ptr + 4);
    if digitsAt.Err? || expAt.Err? then Err
    else
      var digits, exp := ReadBigInt(data, digitsAt.value), ReadBigInt(data, expAt.value);
      if digits.Err? || exp.Err? then Err else Ok(Decimal(digits.value, exp.value))
  }

  /** `depth` bounds the recursion, as the host's stack does. */
  function ReadValue(data: seq<byte>, ptr: int, depth: nat): Result<StoreValue>
    decreases depth, 0, 0
  {
    if depth == 0 then Err
    else if ptr == 0 then Ok(Null)
    else if ptr < 0 then Err
    else
      var kind, payload := ReadU32(data, ptr), ReadU64(data, ptr + 8);
      if kind.Err? || payload.Err? then Err
      else ReadPayload(data, kind.value, payload.value,
                       if kind.value == 4 then ReadItems(data, payload.value, depth - 1) else Err)
  }

  /** A value by its kind; `items` are an array's elements. */
  function ReadPayload(data: seq<byte>, kind: nat, payload: nat, items: Result<seq<StoreValue>>): Result<StoreValue> {
    var at := PayloadPointer(payload);
    if kind == 1 then Ok(Int(ToI32(payload % W32)))
    else if kind == 3 then Ok(Bool(payload != 0))
    else if kind == 5 then Ok(Null)
    else if kind == 8 then Ok(Int8(ToI64(payload % (W32 * W32))))
    else if kind == 9 then Ok(Timestamp(ToI64(payload % (W32 * W32))))
    else if at.Err? then Err
    else if kind == 0 then
      var r := ReadText(data, at.value);
      if r.Ok? then Ok(String(r.value)) else Err
    else if kind == 2 then ReadDecimal(data, at.value)
    else if kind == 4 then
      if items.Ok? then Ok(Array(items.value)) else Err
    else if kind == 6 then
      var r := ReadBytes(data, at.value);
      if r.Ok? then Ok(Raw(r.value)) else Err
    else if kind == 7 then
      var r := ReadBigInt(data, at.value);
      if r.Ok? then Ok(BigInt(r.value)) else Err
    else Err
  }

  function ReadItems(data: seq<byte>, payload: nat, depth: nat): Result<seq<StoreValue>>
    decreases depth, 2
  {
    var at := PayloadPointer(payload);
    var ptrs := if at.Ok? then ReadArray(data, at.value) else Err;
    if ptrs.Ok? then ReadEach(data, ptrs.value, depth) else Err
  }

  function ReadEach(data: seq<byte>, ptrs: seq<int>, depth: nat): Result<seq<StoreValue>>
    decreases depth, 1, |ptrs|
  {
    if ptrs == [] then Ok([])
    else
      var first, rest := ReadValue(data, ptrs[0], depth), ReadEach(data, ptrs[1..], depth);
      if first.Err? || rest.Err? then Err else Ok([first.value] + rest.value)
  }

  /** One map entry after another, later keys replacing earlier ones; absent entries are skipped. */
  function ReadEntries(ptrs: seq<int>, read: int -> Result<(Text, StoreValue)>): Result<EntityData> {
    if ptrs == [] then Ok(map[])
    else
      var before, ptr := ReadEntries(ptrs[..|ptrs| - 1], read), ptrs[|ptrs| - 1];
      if before.Err? || ptr == 0 then before
      else
        var entry := read(ptr);
        if entry.Err? then Err else Ok(before.value[entry.value.0 := entry.value.1])
  }

  function ReadEntry(data: seq<byte>, ptr: int, depth: nat): Result<(Text, StoreValue)> {
    if ptr < 0 then Err
    else
      var keyAt, valueAt := ReadI32(data, ptr), ReadI32(data, ptr + 4);
      if keyAt.Err? || valueAt.Err? then Err
      else
        var key, value := ReadText(data, keyAt.value), ReadValue(data, valueAt.value, depth);
        if key.Err? || value.Err? then Err else Ok((key.value, value.value))
  }

  function EntryReader(data: seq<byte>, depth: nat): int -> Result<(Text, StoreValue)> {
    ptr => ReadEntry(data, ptr, depth)
  }

  function ReadEntity(data: seq<byte>, ptr: int, depth: nat): Result<EntityData> {
    if ptr == 0 then Ok(map[])
    else if ptr < 0 then Err
    else
      var entries := ReadI32(data, ptr);
      var ptrs := if entries.Ok? then ReadArray(data, entries.value) else Err;
      if ptrs.Ok? then ReadEntries(ptrs.value, EntryReader(data, depth)) else Err
  }

  // ----- the format, byte by byte -----

  /** Four bytes, the lowest first. */
  function Word32(data: seq<byte>, at: nat): int {
    if at + 4 <= |data| then Word16(data[at], data[at + 1]) + 0x1_0000 * Word16(data[at + 2], data[at + 3]) else 0
  }

  function Word16(low: int, high: int): int {
    low + 0x100 * high
  }

  lemma WordFormat(data: seq<byte>, at: nat)
    requires at + 4 <= |data|
    ensures 0 <= Word32(data, at) < 0x1_0000_0000 && ReadU32(data, at) == Ok(Word32(data, at))
    ensures ReadI32(data, at).Ok? && ReadI32(data, at).value < 0x8000_0000
    ensures ReadI32(data, at).value >= 0 ==> ReadI32(data, at).value == Word32(data, at)
  {
    assert data[at..at + 4] == [data[at], data[at + 1], data[at + 2], data[at + 3]];
    FourBytesValue(data[at], data[at + 1], data[at + 2], data[at + 3]);
  }

  lemma FourBytesValue(a: byte, b: byte, c: byte, d: byte)
    ensures LeValue([a, b, c, d]) == Word16(a, b) + 0x1_0000 * Word16(c, d)
  {
    var last: seq<byte> := [];
    LeCons(d, last);
    LeCons(c, [d] + last);
    LeCons(b, [c] + ([d] + last));
    LeCons(a, [b] + ([c] + ([d] + last)));
    assert [a, b, c, d] == [a] + ([b] + ([c] + ([d] + last)));
  }

  lemma LeCons(x: byte, s: seq<byte>)
    ensures LeValue([x] + s) == x + 256 * LeValue(s)
  {
    assert ([x] + s)[1..] == s;
  }

  lemma LongFormat(data: seq<byte>, at: nat)
    requires at + 8 <= |data|
    ensures ReadU64(data, at) == Ok(Word32(data, at) + 0x1_0000_0000 * Word32(data, at + 4))
  {
    WordFormat(data, at);
    WordFormat(data, at + 4);
    LongRead(data, at, Word32(data, at), Word32(data, at + 4));
  }

  /** A typed array: where its bytes start, and how many there are, after the buffer's address. */
  lemma BytesFormat(data: seq<byte>, ptr: int)
    requires ptr > 0 && ReadBytes(data, ptr).Ok?
    ensures var start, length := Word32(data, ptr + 4), Word32(data, ptr + 8);
            && 0 <= start && 0 <= length && start + length <= |data|
            && ReadBytes(data, ptr).value == data[start..start + length]
  {
    WordFormat(data, ptr + 4);
    WordFormat(data, ptr + 8);
  }

  /** A text: its size in bytes stands in front of its UTF-16 units. */
  lemma TextFormat(data: seq<byte>, ptr: int)
    requires ptr > 0 && ReadText(data, ptr).Ok?
    ensures ptr >= 4 && 0 <= Word32(data, ptr - 4) && ptr + Word32(data, ptr - 4) <= |data|
    ensures |ReadText(data, ptr).value| == Word32(data, ptr - 4) / 2
    ensures forall i :: 0 <= i < |ReadText(data, ptr).value| ==>
              ReadText(data, ptr).value[i] == Word16(data[ptr + 2 * i], data[ptr + 2 * i + 1])
  {
    WordFormat(data, ptr - 4);
    UnitsFormat(data[ptr..ptr + Word32(data, ptr - 4)]);
  }

  lemma {:induction false} UnitsFormat(b: seq<byte>)
    ensures |TextUnits(b)| == |b| / 2
    ensures forall i :: 0 <= i < |b| / 2 ==> TextUnits(b)[i] == Word16(b[2 * i], b[2 * i + 1])
  {
    if |b| >= 2 {
      var t := b[2..];
      UnitsFormat(t);
      forall i | 0 <= i < |b| / 2
        ensures TextUnits(b)[i] == Word16(b[2 * i], b[2 * i + 1])
      {
        if i > 0 {
          var j := i - 1;
          assert TextUnits(b)[i] == TextUnits(t)[j] && t[2 * j] == b[2 * i] && t[2 * j + 1] == b[2 * i + 1];
        }
      }
    }
  }

  /** An array: where its pointers start, and behind the size of the buffer how many there are. */
  lemma ArrayFormat(data: seq<byte>, ptr: int)
    requires ptr > 0 && ReadArray(data, ptr).Ok?
    ensures var ps, start := ReadArray(data, ptr).value, Word32(data, ptr + 4);
            && start >= 0 && |ps| == Word32(data, ptr + 12) && 4 * |ps| <= Word32(data, ptr + 8)
            && forall i :: 0 <= i < |ps| && ps[i] >= 0 ==> ps[i] == Word32(data, start + 4 * i)
  {
    WordFormat(data, ptr + 4);
    WordFormat(data, ptr + 8);
    WordFormat(data, ptr + 12);
    PointersFormat(data, Word32(data, ptr + 4), Word32(data, ptr + 12), ReadArray(data, ptr).value);
  }

  lemma {:induction false} PointersFormat(data: seq<byte>, at: nat, count: nat, ps: seq<int>)
    requires ReadPointers(data, at, count) == Ok(ps)
    ensures |ps| == count && forall i :: 0 <= i < |ps| && ps[i] >= 0 ==> ps[i] == Word32(data, at + 4 * i)
    decreases count
  {
    if count > 0 {
      var next, rest := at + 4, ps[1..];
      WordFormat(data, at);
      PointersFormat(data, next, count - 1, rest);
      forall i | 0 <= i < |ps| && ps[i] >= 0
        ensures ps[i] == Word32(data, at + 4 * i)
      {
        if i > 0 {
          var j := i - 1;
          assert ps[i] == rest[j] && at + 4 * i == next + 4 * j;
        }
      }
    }
  }

  /** An entry: the address of its key, then that of its value. */
  lemma EntryFormat(data: seq<byte>, ptr: int, depth: nat)
    requires ptr > 0 && ReadEntry(data, ptr, depth).Ok?
    ensures var entry := ReadEntry(data, ptr, depth).value;
            && (ReadI32(data, ptr).Ok? && ReadText(data, ReadI32(data, ptr).value) == Ok(entry.0))
            && (ReadI32(data, ptr + 4).Ok? && ReadValue(data, ReadI32(data, ptr + 4).value, depth) == Ok(entry.1))
  {
    WordFormat(data, ptr);
    WordFormat(data, ptr + 4);
  }

  lemma SmallPayload(low: nat, high: nat)
    requires low < 0x1_0000_0000 && high < 0x1_0000_0000
    ensures (low + 0x1_0000_0000 * high) % W32 == low && (low + 0x1_0000_0000 * high) % (W32 * W32)
         == low + 0x1_0000_0000 * high
    ensures PayloadPointer(low + 0x1_0000_0000 * high).Ok? ==>
              high == 0 && PayloadPointer(low + 0x1_0000_0000 * high) == Ok(low)
  {
  }

  lemma SignedWords(n: nat)
    ensures n < 0x1_0000_0000 ==> n == ToI32(n) % 0x1_0000_0000
    ensures n < 0x1_0000_0000_0000_0000 ==> n == ToI64(n) % 0x1_0000_0000_0000_0000
  {
  }

  lemma DecimalFormat(data: seq<byte>, at: nat)
    requires ReadDecimal(data, at).Ok?
    ensures ReadDecimal(data, at).value.Decimal?
    ensures ReadBigInt(data, Word32(data, at)) == Ok(ReadDecimal(data, at).value.digits)
    ensures ReadBigInt(data, Word32(data, at + 4)) == Ok(ReadDecimal(data, at).value.exp)
  {
    WordFormat(data, at);
    WordFormat(data, at + 4);
  }

  lemma NumberFormat(data: seq<byte>, kind: nat, p: nat, items: Result<seq<StoreValue>>, x: StoreValue, low: nat)
    requires ReadPayload(data, kind, p, items) == Ok(x) && kind in {1, 3, 5, 8, 9}
    requires p < 0x1_0000_0000_0000_0000 && p % (W32 * W32) == p && p % W32 == low < 0x1_0000_0000
    ensures match x
            case Int(n) => kind == 1 && low == n % 0x1_0000_0000
            case Bool(on) => kind == 3 && (on <==> p != 0)
            case Null => kind == 5
            case Int8(n) => kind == 8 && p == n % 0x1_0000_0000_0000_0000
            case Timestamp(n) => kind == 9 && p == n % 0x1_0000_0000_0000_0000
            case _ => false
  {
    SignedWords(low);
    SignedWords(p);
  }

  lemma PointerFormat(data: seq<byte>, kind: nat, p: nat, items: Result<seq<StoreValue>>, x: StoreValue)
    requires ReadPayload(data, kind, p, items) == Ok(x) && kind !in {1, 3, 5, 8, 9}
    ensures p < W31 && match x
            case String(s) => kind == 0 && ReadText(data, p) == Ok(s)
            case Decimal(digits, exp) => kind == 2
              && ReadBigInt(data, Word32(data, p)) == Ok(digits) && ReadBigInt(data, Word32(data, p + 4)) == Ok(exp)
            case Array(xs) => kind == 4 && items == Ok(xs)
            case Raw(bytes) => kind == 6 && ReadBytes(data, p) == Ok(bytes)
            case BigInt(n) => kind == 7 && ReadBigInt(data, p) == Ok(n)
            case _ => false
  {
    if kind == 2 { DecimalFormat(data, p); }
  }

  /** What a value's kind and the two words of its payload say: the number itself, or the address of what the value
      holds; a decimal has the addresses of its digits and of its exponent. */
  ghost predicate Says(data: seq<byte>, kind: int, low: nat, high: nat, depth: nat, x: StoreValue) {
    match x
    case String(s) => kind == 0 && high == 0 && ReadText(data, low) == Ok(s)
    case Int(n) => kind == 1 && low == n % 0x1_0000_0000
    case Decimal(digits, exp) => kind == 2 && high == 0
      && ReadBigInt(data, Word32(data, low)) == Ok(digits) && ReadBigInt(data, Word32(data, low + 4)) == Ok(exp)
    case Bool(on) => kind == 3 && (on <==> low != 0 || high != 0)
    case Array(xs) => kind == 4 && high == 0
      && ReadArray(data, low).Ok? && ReadEach(data, ReadArray(data, low).value, depth) == Ok(xs)
    case Null => kind == 5
    case Raw(bytes) => kind == 6 && high == 0 && ReadBytes(data, low) == Ok(bytes)
    case BigInt(n) => kind == 7 && high == 0 && ReadBigInt(data, low) == Ok(n)
    case Int8(n) => kind == 8 && low + 0x1_0000_0000 * high == n % 0x1_0000_0000_0000_0000
    case Timestamp(n) => kind == 9 && low + 0x1_0000_0000 * high == n % 0x1_0000_0000_0000_0000
  }

  lemma HeaderFormat(data: seq<byte>, ptr: int, depth: nat, kind: nat, p: nat)
    requires ptr > 0 && ReadValue(data, ptr, depth).Ok? && ptr + 16 <= |data|
    requires ReadU32(data, ptr) == Ok(kind) && ReadU64(data, ptr + 8) == Ok(p)
    ensures depth > 0
    ensures ReadValue(data, ptr, depth)
         == ReadPayload(data, kind, p, if kind == 4 then ReadItems(data, p, depth - 1) else Err)
  {
  }

  lemma PayloadFormat(data: seq<byte>, kind: nat, low: nat, high: nat, p: nat, depth: nat,
                      items: Result<seq<StoreValue>>, x: StoreValue)
    requires low < 0x1_0000_0000 && high < 0x1_0000_0000 && p == low + 0x1_0000_0000 * high
    requires items == (if kind == 4 then ReadItems(data, p, depth) else Err)
    requires ReadPayload(data, kind, p, items) == Ok(x)
    ensures Says(data, kind, low, high, depth, x) && (kind !in {1, 3, 5, 8, 9} ==> p < 0x8000_0000)
  {
    SmallPayload(low, high);
    if kind in {1, 3, 5, 8, 9} {
      NumberFormat(data, kind, p, items, x, low);
    } else {
      PointerFormat(data, kind, p, items, x);
    }
  }

  /** A value: the number of its kind, four bytes that mean nothing, and a payload of eight bytes. */
  lemma ValueFormat(data: seq<byte>, ptr: int, depth: nat)
    requires ptr > 0 && ReadValue(data, ptr, depth).Ok?
    ensures depth > 0
    ensures var kind, low, high := Word32(data, ptr), Word32(data, ptr + 8), Word32(data, ptr + 12);
            && low >= 0 && high >= 0 && Says(data, kind, low, high, depth - 1, ReadValue(data, ptr, depth).value)
            && (kind !in {1, 3, 5, 8, 9} ==> low < 0x8000_0000)
  {
    WordFormat(data, ptr);
    WordFormat(data, ptr + 8);
    WordFormat(data, ptr + 12);
    LongFormat(data, ptr + 8);
    var kind, low, high := Word32(data, ptr), Word32(data, ptr + 8), Word32(data, ptr + 12);
    var p := low + 0x1_0000_0000 * high;
    HeaderFormat(data, ptr, depth, kind, p);
    PayloadFormat(data, kind, low, high, p, depth - 1, if kind == 4 then ReadItems(data, p, depth - 1) else Err,
                  ReadValue(data, ptr, depth).value);
  }

  // ----- what memory holds -----

  ghost predicate TextRep(v: View, p: nat, s: Text) {
    Block(v, p, TextBytes(s))
  }

  /** A typed array: the buffer, the start in it, and the length. */
  ghost predicate BytesRep(v: View, p: nat, bytes: seq<byte>) {
    exists buf: nat :: Block(v, buf, bytes) && WordBlock(v, p, [buf, buf, |bytes|])
  }

  ghost predicate BigIntRep(v: View, p: nat, n: int) {
    BytesRep(v, p, SignedBytes(n))
  }

  /** An array of pointers: the buffer, the start in it, its size and the count. */
  ghost predicate ArrayRep(v: View, p: nat, ptrs: seq<nat>) {
    exists buf: nat :: WordBlock(v, buf, ptrs) && WordBlock(v, p, [buf, buf, 4 * |ptrs|, |ptrs|])
  }

  ghost predicate PairRep(v: View, p: nat, x: seq<byte>, y: seq<byte>) {
    exists a: nat, b: nat :: WordBlock(v, p, [a, b]) && BytesRep(v, a, x) && BytesRep(v, b, y)
  }

  ghost predicate DecimalRep(v: View, p: nat, digits: int, exp: int) {
    PairRep(v, p, SignedBytes(digits), SignedBytes(exp))
  }

  function KindOf(x: StoreValue): nat {
    match x
    case String(_) => 0
    case Int(_) => 1
    case Decimal(_, _) => 2
    case Bool(_) => 3
    case Array(_) => 4
    case Null => 5
    case Raw(_) => 6
    case BigInt(_) => 7
    case Int8(_) => 8
    case Timestamp(_) => 9
  }

  /** A value: its kind, and a payload of eight bytes. */
  ghost predicate ValueRep(v: View, p: nat, x: StoreValue)
    decreases x, 1
  {
    exists q: nat :: Header(v, p, KindOf(x), q) && PayloadRep(v, q, x)
  }

  ghost predicate Header(v: View, p: nat, kind: nat, payload: nat) {
    payload < W32 * W32 && WordBlock(v, p, [kind, 0, payload % W32, payload / W32])
  }

  ghost predicate PayloadRep(v: View, q: nat, x: StoreValue)
    decreases x, 0
  {
    match x
    case String(s) => TextRep(v, q, s)
    case Int(n) => q == n % W32
    case Decimal(digits, exp) => DecimalRep(v, q, digits, exp)
    case Bool(on) => q == if on then 1 else 0
    case Array(xs) => exists ps: seq<nat> :: ItemsRep(v, q, ps, xs)
    case Null => q == 0
    case Raw(bytes) => BytesRep(v, q, bytes)
    case BigInt(n) => BigIntRep(v, q, n)
    case Int8(n) => q == n % (W32 * W32)
    case Timestamp(n) => q == n % (W32 * W32)
  }

  ghost predicate ItemsRep(v: View, q: nat, ps: seq<nat>, xs: seq<StoreValue>)
    decreases xs
  {
    ArrayRep(v, q, ps) && |ps| == |xs| && forall i :: 0 <= i < |xs| ==> ValueRep(v, ps[i], xs[i])
  }

  ghost predicate EntryRep(v: View, p: nat, key: Text, x: StoreValue) {
    exists a: nat, b: nat :: WordBlock(v, p, [a, b]) && TextRep(v, a, key) && ValueRep(v, b, x)
  }

  /** Where an entity lies: its array object, its entry objects, and what the entries hold. */
  datatype Shape = Shape(index: nat, entries: seq<nat>, pairs: seq<(Text, StoreValue)>)

  /** A map object: an array of entries, in the order of the pairs. */
  ghost predicate EntityRep(v: View, p: nat, e: Shape) {
    WordBlock(v, p, [e.index]) && ArrayRep(v, e.index, e.entries) && EntriesRep(v, e.entries, e.pairs)
  }

  ghost predicate EntriesRep(v: View, ps: seq<nat>, pairs: seq<(Text, StoreValue)>) {
    |ps| == |pairs| && forall i :: 0 <= i < |pairs| ==> EntryRep(v, ps[i], pairs[i].0, pairs[i].1)
  }

  function MapOf(pairs: seq<(Text, StoreValue)>): EntityData {
    if pairs == [] then map[]
    else
      var last := pairs[|pairs| - 1];
      MapOf(pairs[..|pairs| - 1])[last.0 := last.1]
  }

  // ----- nothing that is held changes -----

  lemma BytesKept(v: View, w: View, p: nat, bytes: seq<byte>)
    requires BytesRep(v, p, bytes) && Grows(v, w)
    ensures BytesRep(w, p, bytes)
  {
    var buf: nat :| Block(v, buf, bytes) && WordBlock(v, p, [buf, buf, |bytes|]);
    BlockKept(v, w, buf, bytes);
    WordBlockKept(v, w, p, [buf, buf, |bytes|]);
  }

  lemma ArrayKept(v: View, w: View, p: nat, ptrs: seq<nat>)
    requires ArrayRep(v, p, ptrs) && Grows(v, w)
    ensures ArrayRep(w, p, ptrs)
  {
    var buf: nat :| WordBlock(v, buf, ptrs) && WordBlock(v, p, [buf, buf, 4 * |ptrs|, |ptrs|]);
    WordBlockKept(v, w, buf, ptrs);
    WordBlockKept(v, w, p, [buf, buf, 4 * |ptrs|, |ptrs|]);
  }

  lemma PairKept(v: View, w: View, p: nat, x: seq<byte>, y: seq<byte>)
    requires PairRep(v, p, x, y) && Grows(v, w)
    ensures PairRep(w, p, x, y)
  {
    var a: nat, b: nat :| WordBlock(v, p, [a, b]) && BytesRep(v, a, x) && BytesRep(v, b, y);
    WordBlockKept(v, w, p, [a, b]);
    BytesKept(v, w, a, x);
    BytesKept(v, w, b, y);
  }

  /** A value that memory holds stays held when memory grows. */
  lemma {:induction false} ValueKept(v: View, w: View, p: nat, x: StoreValue)
    requires ValueRep(v, p, x) && Grows(v, w)
    ensures ValueRep(w, p, x)
    decreases x
  {
    var q: nat :| Header(v, p, KindOf(x), q) && PayloadRep(v, q, x);
    WordBlockKept(v, w, p, [KindOf(x), 0, q % W32, q / W32]);
    if x.Array? {
      ItemsHeld(v, q, x.values);
      var ps: seq<nat> :| ItemsRep(v, q, ps, x.values);
      ItemsKept(v, w, q, ps, x.values);
    } else {
      PayloadKept(v, w, q, x);
    }
    assert Header(w, p, KindOf(x), q) && PayloadRep(w, q, x);
  }

  lemma ItemsHeld(v: View, q: nat, xs: seq<StoreValue>)
    requires PayloadRep(v, q, Array(xs))
    ensures exists ps: seq<nat> :: ItemsRep(v, q, ps, xs)
  {
  }

  lemma {:induction false} ItemsKept(v: View, w: View, q: nat, ps: seq<nat>, xs: seq<StoreValue>)
    requires ItemsRep(v, q, ps, xs) && Grows(v, w)
    ensures ItemsRep(w, q, ps, xs)
    decreases xs
  {
    ArrayKept(v, w, q, ps);
    forall i | 0 <= i < |xs| ensures ValueRep(w, ps[i], xs[i]) { ValueKept(v, w, ps[i], xs[i]); }
  }

  lemma PayloadKept(v: View, w: View, q: nat, x: StoreValue)
    requires !x.Array? && PayloadRep(v, q, x) && Grows(v, w)
    ensures PayloadRep(w, q, x)
  {
    match x
    case String(s) => BlockKept(v, w, q, TextBytes(s));
    case Decimal(digits, exp) => PairKept(v, w, q, SignedBytes(digits), SignedBytes(exp));
    case Raw(bytes) => BytesKept(v, w, q, bytes);
    case BigInt(n) => BytesKept(v, w, q, SignedBytes(n));
    case _ =>
  }

  lemma EntryKept(v: View, w: View, p: nat, key: Text, x: StoreValue)
    requires EntryRep(v, p, key, x) && Grows(v, w)
    ensures EntryRep(w, p, key, x)
  {
    var a: nat, b: nat :| WordBlock(v, p, [a, b]) && TextRep(v, a, key) && ValueRep(v, b, x);
    WordBlockKept(v, w, p, [a, b]);
    BlockKept(v, w, a, TextBytes(key));
    ValueKept(v, w, b, x);
  }

  lemma EntriesKept(v: View, w: View, ps: seq<nat>, pairs: seq<(Text, StoreValue)>)
    requires EntriesRep(v, ps, pairs) && Grows(v, w)
    ensures EntriesRep(w, ps, pairs)
  {
    forall i | 0 <= i < |pairs| ensures EntryRep(w, ps[i], pairs[i].0, pairs[i].1) {
      EntryKept(v, w, ps[i], pairs[i].0, pairs[i].1);
    }
  }

  lemma EntityKept(v: View, w: View, p: nat, e: Shape)
    requires EntityRep(v, p, e) && Grows(v, w)
    ensures EntityRep(w, p, e)
  {
    WordBlockKept(v, w, p, [e.index]);
    ArrayKept(v, w, e.index, e.entries);
    EntriesKept(v, w, e.entries, e.pairs);
  }

  // ----- what is held is what is read -----

  lemma BytesRead(v: View, p: nat, bytes: seq<byte>)
    requires BytesRep(v, p, bytes)
    ensures p > 0 && ReadBytes(v.data, p) == Ok(bytes)
  {
    var buf: nat :| Block(v, buf, bytes) && WordBlock(v, p, [buf, buf, |bytes|]);
    var n := |bytes|;
    WordAt(v, p, [buf, buf, n], 1, p + 4, buf);
    WordAt(v, p, [buf, buf, n], 2, p + 8, n);
    BufferRead(v.data, p, buf, n, bytes);
  }

  lemma BufferRead(data: seq<byte>, p: nat, buf: nat, n: nat, bytes: seq<byte>)
    requires p > 0 && ReadU32(data, p + 4) == Ok(buf) && ReadU32(data, p + 8) == Ok(n)
    requires buf + n <= |data| && data[buf..buf + n] == bytes
    ensures ReadBytes(data, p) == Ok(bytes)
  {
  }

  lemma BigIntRead(v: View, p: nat, n: int)
    requires BigIntRep(v, p, n)
    ensures p > 0 && ReadBigInt(v.data, p) == Ok(n)
  {
    BytesRead(v, p, SignedBytes(n));
    SignedRoundTrip(n);
  }

  lemma TextRead(v: View, p: nat, s: Text)
    requires TextRep(v, p, s)
    ensures p > 0 && ReadText(v.data, p) == Ok(s)
  {
    TextRoundTrip(s);
  }

  lemma PointerRead(data: seq<byte>, at: nat, p: nat)
    requires ReadU32(data, at) == Ok(p) && p < W31
    ensures ReadI32(data, at) == Ok(p)
  {
  }

  lemma {:induction false} PointersRead(data: seq<byte>, at: nat, ps: seq<nat>)
    requires forall k :: 0 <= k < |ps| ==> ps[k] < W31 && ReadU32(data, at + 4 * k) == Ok(ps[k])
    ensures ReadPointers(data, at, |ps|) == Ok(ps)
    decreases |ps|
  {
    if ps != [] {
      assert ReadU32(data, at + 4 * 0) == Ok(ps[0]);
      forall k | 0 <= k < |ps[1..]| ensures ps[1..][k] < W31 && ReadU32(data, at + 4 + 4 * k) == Ok(ps[1..][k]) {
        assert ReadU32(data, at + 4 * (k + 1)) == Ok(ps[k + 1]);
      }
      PointersRead(data, at + 4, ps[1..]);
      PointerRead(data, at, ps[0]);
      assert ps == [ps[0]] + ps[1..];
    }
  }

  lemma ArrayRead(v: View, p: nat, ps: seq<nat>)
    requires ArrayRep(v, p, ps) && forall k :: 0 <= k < |ps| ==> ps[k] < W31
    ensures 4 <= p < W31 && ReadArray(v.data, p) == Ok(ps)
  {
    var buf: nat :| WordBlock(v, buf, ps) && WordBlock(v, p, [buf, buf, 4 * |ps|, |ps|]);
    var ws := [buf, buf, 4 * |ps|, |ps|];
    WordAt(v, p, ws, 1, p + 4, buf);
    WordAt(v, p, ws, 2, p + 8, 4 * |ps|);
    WordAt(v, p, ws, 3, p + 12, |ps|);
    PointersRead(v.data, buf, ps);
  }

  lemma PairRead(v: View, p: nat, a: nat, b: nat)
    requires WordBlock(v, p, [a, b]) && a < W31 && b < W31
    ensures p > 0 && ReadI32(v.data, p) == Ok(a) && ReadI32(v.data, p + 4) == Ok(b)
  {
    WordAt(v, p, [a, b], 0, p, a);
    WordAt(v, p, [a, b], 1, p + 4, b);
  }

  lemma BytesPlace(v: View, p: nat, bytes: seq<byte>)
    requires BytesRep(v, p, bytes)
    ensures 4 <= p < W31
  {
  }

  lemma DecimalRead(v: View, p: nat, digits: int, exp: int)
    requires DecimalRep(v, p, digits, exp)
    ensures 4 <= p < W31 && ReadDecimal(v.data, p) == Ok(Decimal(digits, exp))
  {
    var x, y := SignedBytes(digits), SignedBytes(exp);
    var a: nat, b: nat :| WordBlock(v, p, [a, b]) && BytesRep(v, a, x) && BytesRep(v, b, y);
    BytesPlace(v, a, x);
    BytesPlace(v, b, y);
    PairRead(v, p, a, b);
    BigIntRead(v, a, digits);
    BigIntRead(v, b, exp);
    DecimalOf(v.data, p, a, b, digits, exp);
  }

  lemma DecimalOf(data: seq<byte>, p: nat, a: int, b: int, digits: int, exp: int)
    requires ReadI32(data, p) == Ok(a) && ReadI32(data, p + 4) == Ok(b)
    requires ReadBigInt(data, a) == Ok(digits) && ReadBigInt(data, b) == Ok(exp)
    ensures ReadDecimal(data, p) == Ok(Decimal(digits, exp))
  {
  }

  lemma HeaderRead(v: View, p: nat, kind: nat, q: nat)
    requires Header(v, p, kind, q)
    ensures p > 0 && ReadU32(v.data, p) == Ok(kind) && ReadU64(v.data, p + 8) == Ok(q)
  {
    var ws := [kind, 0, q % W32, q / W32];
    WordAt(v, p, ws, 0, p, kind);
    WordAt(v, p, ws, 2, p + 8, q % W32);
    WordAt(v, p, ws, 3, p + 12, q / W32);
    LongRead(v.data, p + 8, q % W32, q / W32);
  }

  /** How deeply arrays are nested. */
  function Depth(x: StoreValue): nat {
    if x.Array? then 1 + MaxDepth(x.values) else 1
  }

  function MaxDepth(xs: seq<StoreValue>): nat {
    if xs == [] then 0
    else
      var first, rest := Depth(xs[0]), MaxDepth(xs[1..]);
      if first < rest then rest else first
  }

  lemma {:induction false} MaxDepthBounds(xs: seq<StoreValue>, i: nat)
    requires i < |xs|
    ensures Depth(xs[i]) <= MaxDepth(xs)
  {
    if i > 0 { MaxDepthBounds(xs[1..], i - 1); }
  }

  lemma {:induction false} EachRead(data: seq<byte>, ps: seq<nat>, xs: seq<StoreValue>, depth: nat)
    requires |ps| == |xs| && forall i :: 0 <= i < |xs| ==> ReadValue(data, ps[i], depth) == Ok(xs[i])
    ensures ReadEach(data, ps, depth) == Ok(xs)
  {
    if ps != [] {
      EachRead(data, ps[1..], xs[1..], depth);
      assert xs == [xs[0]] + xs[1..];
    }
  }

  lemma ValuePlace(v: View, p: nat, x: StoreValue)
    requires ValueRep(v, p, x)
    ensures 4 <= p < W31
  {
  }

  /** Reading a value that memory holds gives that value, if the stack is deep enough. */
  lemma {:induction false} ValueRead(v: View, p: nat, x: StoreValue, depth: nat)
    requires ValueRep(v, p, x) && depth >= Depth(x)
    ensures ReadValue(v.data, p, depth) == Ok(x)
    decreases x
  {
    var q: nat :| Header(v, p, KindOf(x), q) && PayloadRep(v, q, x);
    var kind := KindOf(x);
    HeaderRead(v, p, kind, q);
    if x.Array? {
      ItemsHeld(v, q, x.values);
      var ps: seq<nat> :| ItemsRep(v, q, ps, x.values);
      ItemsRead(v, p, q, ps, x.values, depth, depth - 1);
    } else {
      PayloadRead(v, q, x, kind);
      ScalarOf(v.data, p, kind, q, x, depth);
    }
  }

  lemma ArrayOf(data: seq<byte>, p: nat, q: nat, ps: seq<int>, xs: seq<StoreValue>, depth: nat, d: nat)
    requires p > 0 && depth > 0 && d == depth - 1 && ReadU32(data, p) == Ok(4) && ReadU64(data, p + 8) == Ok(q)
    requires q < W31 && ReadArray(data, q) == Ok(ps) && ReadEach(data, ps, d) == Ok(xs)
    ensures ReadValue(data, p, depth) == Ok(Array(xs))
  {
    assert ReadItems(data, q, d) == Ok(xs);
  }

  lemma ScalarOf(data: seq<byte>, p: nat, kind: nat, q: nat, x: StoreValue, depth: nat)
    requires p > 0 && depth > 0 && ReadU32(data, p) == Ok(kind) && ReadU64(data, p + 8) == Ok(q)
    requires kind != 4 && ReadPayload(data, kind, q, Err) == Ok(x)
    ensures ReadValue(data, p, depth) == Ok(x)
  {
  }

  lemma PayloadRead(v: View, q: nat, x: StoreValue, kind: nat)
    requires PayloadRep(v, q, x) && kind == KindOf(x) && q < W32 * W32 && !x.Array?
    ensures ReadPayload(v.data, kind, q, Err) == Ok(x)
  {
    match x
    case String(s) => TextRead(v, q, s);
    case Decimal(digits, exp) => DecimalRead(v, q, digits, exp);
    case Raw(bytes) => BytesRead(v, q, bytes); BytesPlace(v, q, bytes);
    case BigInt(n) => BigIntRead(v, q, n); BytesPlace(v, q, SignedBytes(n));
    case Int(n) => SignedWord(n);
    case Int8(n) => SignedLong(n);
    case Timestamp(n) => SignedLong(n);
    case _ =>
  }

  lemma {:induction false} ItemsRead(v: View, p: nat, q: nat, ps: seq<nat>, xs: seq<StoreValue>, depth: nat, d: nat)
    requires ItemsRep(v, q, ps, xs) && d >= MaxDepth(xs) && depth > 0 && d == depth - 1
    requires p > 0 && ReadU32(v.data, p) == Ok(4) && ReadU64(v.data, p + 8) == Ok(q)
    ensures ReadValue(v.data, p, depth) == Ok(Array(xs))
    decreases xs
  {
    forall i | 0 <= i < |xs| ensures ps[i] < W31 && ReadValue(v.data, ps[i], d) == Ok(xs[i]) {
      MaxDepthBounds(xs, i);
      ValuePlace(v, ps[i], xs[i]);
      ValueRead(v, ps[i], xs[i], d);
    }
    ArrayRead(v, q, ps);
    EachRead(v.data, ps, xs, d);
    ArrayOf(v.data, p, q, ps, xs, depth, d);
  }

  lemma SignedWord(n: i32)
    ensures ToI32(n % W32 % W32) == n
  {
  }

  lemma SignedLong(n: i64)
    ensures ToI64(n % (W32 * W32) % (W32 * W32)) == n
  {
  }

  ghost predicate Shallow(pairs: seq<(Text, StoreValue)>, depth: nat) {
    forall i :: 0 <= i < |pairs| ==> Depth(pairs[i].1) <= depth
  }

  lemma EntryRead(v: View, p: nat, key: Text, x: StoreValue, depth: nat)
    requires EntryRep(v, p, key, x) && Depth(x) <= depth
    ensures 4 <= p < W31 && ReadEntry(v.data, p, depth) == Ok((key, x))
  {
    var a: nat, b: nat :| WordBlock(v, p, [a, b]) && TextRep(v, a, key) && ValueRep(v, b, x);
    ValuePlace(v, b, x);
    PairRead(v, p, a, b);
    TextRead(v, a, key);
    ValueRead(v, b, x, depth);
    EntryOf(v.data, p, a, b, key, x, depth);
  }

  lemma EntryOf(data: seq<byte>, p: nat, a: int, b: int, key: Text, x: StoreValue, depth: nat)
    requires ReadI32(data, p) == Ok(a) && ReadI32(data, p + 4) == Ok(b)
    requires ReadText(data, a) == Ok(key) && ReadValue(data, b, depth) == Ok(x)
    ensures ReadEntry(data, p, depth) == Ok((key, x))
  {
  }

  lemma {:induction false} EntriesRead(ps: seq<nat>, pairs: seq<(Text, StoreValue)>,
                                       read: int -> Result<(Text, StoreValue)>)
    requires |ps| == |pairs| && forall i :: 0 <= i < |ps| ==> ps[i] > 0 && read(ps[i]) == Ok(pairs[i])
    ensures ReadEntries(ps, read) == Ok(MapOf(pairs))
  {
    if ps != [] {
      var n := |ps| - 1;
      EntriesRead(ps[..n], pairs[..n], read);
    }
  }

  /** Reading an entity that memory holds gives that entity. */
  lemma EntityRead(v: View, p: nat, e: Shape, depth: nat)
    requires EntityRep(v, p, e) && Shallow(e.pairs, depth)
    ensures p > 0 && ReadEntity(v.data, p, depth) == Ok(MapOf(e.pairs))
  {
    WordAt(v, p, [e.index], 0, p, e.index);
    EntriesHeld(v, e.entries, e.pairs, depth);
    ArrayRead(v, e.index, e.entries);
    EntityOf(v.data, p, e.index, e.entries, MapOf(e.pairs), depth);
  }

  lemma EntriesHeld(v: View, ps: seq<nat>, pairs: seq<(Text, StoreValue)>, depth: nat)
    requires EntriesRep(v, ps, pairs) && Shallow(pairs, depth)
    ensures forall k :: 0 <= k < |ps| ==> ps[k] < W31
    ensures ReadEntries(ps, EntryReader(v.data, depth)) == Ok(MapOf(pairs))
  {
    var read := EntryReader(v.data, depth);
    forall i | 0 <= i < |ps| ensures 4 <= ps[i] < W31 && read(ps[i]) == Ok(pairs[i]) {
      EntryRead(v, ps[i], pairs[i].0, pairs[i].1, depth);
    }
    EntriesRead(ps, pairs, read);
  }

  lemma EntityOf(data: seq<byte>, p: nat, a: nat, ps: seq<int>, m: EntityData, depth: nat)
    requires p > 0 && ReadI32(data, p) == Ok(a) && ReadArray(data, a) == Ok(ps)
    requires ReadEntries(ps, EntryReader(data, depth)) == Ok(m)
    ensures ReadEntity(data, p, depth) == Ok(m)
  {
  }

  /** An entity written earlier still reads back, whatever has been allocated since. */
  lemma EarlierEntityStays(v: View, w: View, p: nat, e: Shape, depth: nat)
    requires EntityRep(v, p, e) && Grows(v, w) && Shallow(e.pairs, depth)
    ensures ReadEntity(w.data, p, depth) == ReadEntity(v.data, p, depth) == Ok(MapOf(e.pairs))
  {
    EntityKept(v, w, p, e);
    EntityRead(v, p, e, depth);
    EntityRead(w, p, e, depth);
  }

  lemma EarlierValueStays(v: View, w: View, p: nat, x: StoreValue, depth: nat)
    requires ValueRep(v, p, x) && Grows(v, w) && Depth(x) <= depth
    ensures ReadValue(w.data, p, depth) == ReadValue(v.data, p, depth) == Ok(x)
  {
    ValueKept(v, w, p, x);
    ValueRead(v, p, x, depth);
    ValueRead(w, p, x, depth);
  }
}
