/** Linear memory of a WebAssembly module as the host sees it: little-endian words, blocks handed out by
    the module's allocator, and the functions that read structures back by following pointers. */
module HeapLayout {
  import opened ChainModel
  import opened Bytes

  const W32: nat := 0x1_0000_0000
  const W31: nat := 0x8000_0000

  type u16 = x: int | 0 <= x < 0x1_0000
  type i32 = x: int | -0x8000_0000 <= x < 0x8000_0000
  type i64 = x: int | -0x8000_0000_0000_0000 <= x < 0x8000_0000_0000_0000

  /** UTF-16: every surrogate is part of a pair. */
  predicate ValidUtf16(s: seq<u16>) {
    if s == [] then true
    else if 0xD800 <= s[0] < 0xDC00 then |s| >= 2 && 0xDC00 <= s[1] < 0xE000 && ValidUtf16(s[2..])
    else !(0xDC00 <= s[0] < 0xE000) && ValidUtf16(s[1..])
  }

  // ----- UTF-16 (Unicode Standard, section 3.9) -----

  /** The code points that characters have. */
  predicate ScalarValue(c: nat) {
    c < 0xD800 || 0xE000 <= c < 0x11_0000
  }

  function UnitsOf(c: nat): seq<u16>
    requires ScalarValue(c)
  {
    if c < 0x1_0000 then [c] else [0xD800 + (c - 0x1_0000) / 0x400, 0xDC00 + (c - 0x1_0000) % 0x400]
  }

  function Utf16(cs: seq<nat>): seq<u16>
    requires forall c :: c in cs ==> ScalarValue(c)
  {
    if cs == [] then [] else UnitsOf(cs[0]) + Utf16(cs[1..])
  }

  /** The text of any characters is valid... */
  lemma {:induction false} CharactersValid(cs: seq<nat>)
    requires forall c :: c in cs ==> ScalarValue(c)
    ensures ValidUtf16(Utf16(cs))
  {
    if cs != [] {
      CharactersValid(cs[1..]);
      var units, rest := UnitsOf(cs[0]), Utf16(cs[1..]);
      assert (units + rest)[|units|..] == rest;
    }
  }

  /** ... and every valid text is the text of some characters. */
  lemma {:induction false} ValidCharacters(s: seq<u16>) returns (cs: seq<nat>)
    requires ValidUtf16(s)
    ensures (forall c :: c in cs ==> ScalarValue(c)) && Utf16(cs) == s
  {
    if s == [] { return []; }
    if 0xD800 <= s[0] < 0xDC00 {
      var rest := ValidCharacters(s[2..]);
      var high: int, low: int := s[0] - 0xD800, s[1] - 0xDC00;
      var c: nat := 0x1_0000 + 0x400 * high + low;
      cs := [c] + rest;
      assert UnitsOf(c) == s[..2] && cs[1..] == rest;
    } else {
      var rest := ValidCharacters(s[1..]);
      cs := [s[0]] + rest;
      assert UnitsOf(s[0]) == s[..1] && cs[1..] == rest;
    }
  }

  /** A host string. */
  type Text = s: seq<u16> | ValidUtf16(s) witness []

  datatype StoreValue =
    | String(text: Text)
    | Int(int32: i32)
    | Decimal(digits: int, exp: int)
    | Bool(on: bool)
    | Array(values: seq<StoreValue>)
    | Null
    | Raw(bytes: seq<byte>)
    | BigInt(number: int)
    | Int8(int64: i64)
    | Timestamp(time: i64)

  type EntityData = map<Text, StoreValue>

  // ----- words -----

  function Words(ws: seq<nat>): (s: seq<byte>)
    ensures |s| == 4 * |ws|
  {
    if ws == [] then [] else LeBytes(ws[0], 4) + Words(ws[1..])
  }

  function TextBytes(s: seq<u16>): (b: seq<byte>)
    ensures |b| == 2 * |s|
  {
    if s == [] then [] else LeBytes(s[0], 2) + TextBytes(s[1..])
  }

  function TextUnits(b: seq<byte>): seq<u16> {
    if |b| < 2 then []
    else
      var low: u16, high: u16 := b[0], b[1];
      [low + 256 * high] + TextUnits(b[2..])
  }

  function ReadU32(data: seq<byte>, at: int): Result<nat> {
    if 0 <= at && at + 4 <= |data| then Ok(LeValue(data[at..at + 4])) else Err
  }

  function ReadU64(data: seq<byte>, at: int): Result<nat> {
    if 0 <= at && at + 8 <= |data| then Ok(LeValue(data[at..at + 8])) else Err
  }

  function ToI32(n: nat): int {
    if n >= W31 then n - W32 else n
  }

  function ToI64(n: nat): int {
    if n >= W31 * W32 then n - W32 * W32 else n
  }

  function ReadI32(data: seq<byte>, at: int): Result<int> {
    var n := ReadU32(data, at);
    if n.Ok? then Ok(ToI32(n.value)) else Err
  }

  lemma {:induction false} TextRoundTrip(s: seq<u16>)
    ensures TextUnits(TextBytes(s)) == s
  {
    if s != [] {
      var b, head := TextBytes(s), LeBytes(s[0], 2);
      TextRoundTrip(s[1..]);
      TwoBytes(s[0]);
      assert b[2..] == TextBytes(s[1..]);
      assert b[0] == head[0] && b[1] == head[1];
    }
  }

  lemma TwoBytes(n: u16)
    ensures LeBytes(n, 2)[0] == n % 256 && LeBytes(n, 2)[1] == n / 256
  {
    assert LeBytes(n, 2)[1..] == LeBytes(n / 256, 1);
  }

  // ----- memory -----

  /** The memory, and the bytes of it that the allocator has handed out. */
  datatype View = View(data: seq<byte>, live: set<nat>)

  /** An allocated object: its bytes, and its size in front of them. */
  ghost predicate Block(v: View, p: nat, bytes: seq<byte>) {
    && 4 <= p && p + |bytes| < W31 && p + |bytes| <= |v.data|
    && v.data[p..p + |bytes|] == bytes
    && ReadU32(v.data, p - 4) == Ok(|bytes|)
    && forall i :: p - 4 <= i < p + |bytes| ==> i in v.live
  }

  /** Memory may grow and change, but not in what is handed out. */
  ghost predicate Grows(v: View, w: View) {
    && |v.data| <= |w.data| && v.live <= w.live
    && forall i :: i in v.live ==> i < |v.data| && w.data[i] == v.data[i]
  }

  lemma GrowsTrans(u: View, v: View, w: View)
    requires Grows(u, v) && Grows(v, w)
    ensures Grows(u, w)
  {
  }

  lemma BlockKept(v: View, w: View, p: nat, bytes: seq<byte>)
    requires Block(v, p, bytes) && Grows(v, w)
    ensures Block(w, p, bytes)
  {
    var n := |bytes|;
    forall i | p - 4 <= i < p + n ensures w.data[i] == v.data[i] { assert i in v.live; }
    assert w.data[p..p + n] == v.data[p..p + n];
    assert w.data[p - 4..p] == v.data[p - 4..p];
  }

  lemma {:induction false} WordsSlice(ws: seq<nat>, k: nat)
    requires k < |ws|
    ensures Words(ws)[4 * k..4 * k + 4] == LeBytes(ws[k], 4)
  {
    if k > 0 {
      WordsSlice(ws[1..], k - 1);
      var s, rest := Words(ws), Words(ws[1..]);
      assert s[4..] == rest;
      assert s[4 * k..4 * k + 4] == rest[4 * (k - 1)..4 * (k - 1) + 4];
    }
  }

  /** Reading inside a part of memory is reading in that part. */
  lemma ReadInside(data: seq<byte>, p: nat, s: seq<byte>, lo: nat, at: nat)
    requires p + |s| <= |data| && data[p..p + |s|] == s && lo + 4 <= |s| && at == p + lo
    ensures ReadU32(data, at) == ReadU32(s, lo)
  {
    var found, part := data[at..at + 4], s[lo..lo + 4];
    forall k | 0 <= k < 4 ensures found[k] == part[k] {
      assert s[lo + k] == data[p..p + |s|][lo + k];
    }
    assert found == part;
  }

  lemma WordsValue(ws: seq<nat>, k: nat, s: seq<byte>, lo: nat)
    requires k < |ws| && ws[k] < W32 && s == Words(ws) && lo == 4 * k
    ensures ReadU32(s, lo) == Ok(ws[k])
  {
    WordsSlice(ws, k);
    FourBytes();
    LeRoundTrip(ws[k], 4);
  }

  lemma FourBytes()
    ensures Pow256(4) == W32
  {
    assert Pow256(1) == 256 && Pow256(2) == 0x1_0000 && Pow256(3) == 0x100_0000;
  }

  /** An allocated object made of words. */
  ghost predicate WordBlock(v: View, p: nat, ws: seq<nat>) {
    && 4 <= p && p + 4 * |ws| < W31 && p + 4 * |ws| <= |v.data|
    && (forall k :: 0 <= k < |ws| ==> ReadU32(v.data, p + 4 * k) == Ok(ws[k]))
    && forall i :: p <= i < p + 4 * |ws| ==> i in v.live
  }

  ghost predicate Spells(s: seq<byte>, ws: seq<nat>) {
    |s| == 4 * |ws| && forall k :: 0 <= k < |ws| ==> ReadU32(s, 4 * k) == Ok(ws[k])
  }

  lemma WordsSpell(ws: seq<nat>)
    requires forall k :: 0 <= k < |ws| ==> ws[k] < W32
    ensures Spells(Words(ws), ws)
  {
    forall k | 0 <= k < |ws| ensures ReadU32(Words(ws), 4 * k) == Ok(ws[k]) { WordsValue(ws, k, Words(ws), 4 * k); }
  }

  lemma BlockWords(v: View, p: nat, ws: seq<nat>, s: seq<byte>)
    requires Spells(s, ws) && Block(v, p, s)
    ensures WordBlock(v, p, ws)
  {
    forall k | 0 <= k < |ws| ensures ReadU32(v.data, p + 4 * k) == Ok(ws[k]) {
      ReadInside(v.data, p, s, 4 * k, p + 4 * k);
    }
  }

  lemma WordAt(v: View, p: nat, ws: seq<nat>, k: nat, at: nat, n: nat)
    requires WordBlock(v, p, ws) && k < |ws| && n == ws[k] && at == p + 4 * k
    ensures p > 0 && ReadU32(v.data, at) == Ok(n)
    ensures n < W31 ==> ReadI32(v.data, at) == Ok(n)
  {
  }

  lemma WordBlockKept(v: View, w: View, p: nat, ws: seq<nat>)
    requires WordBlock(v, p, ws) && Grows(v, w)
    ensures WordBlock(w, p, ws)
  {
    forall k | 0 <= k < |ws| ensures ReadU32(w.data, p + 4 * k) == ReadU32(v.data, p + 4 * k) {
      var a := p + 4 * k;
      forall i | a <= i < a + 4 ensures w.data[i] == v.data[i] { assert i in v.live; }
      assert w.data[a..a + 4] == v.data[a..a + 4];
    }
  }

  /** Two words read as one number of eight bytes. */
  lemma LongRead(data: seq<byte>, at: nat, low: nat, high: nat)
    requires ReadU32(data, at) == Ok(low) && ReadU32(data, at + 4) == Ok(high)
    ensures ReadU64(data, at) == Ok(low + W32 * high)
  {
    var s, t := data[at..at + 4], data[at + 4..at + 8];
    assert data[at..at + 8] == s + t;
    LeValueSplit(s, t);
    FourBytes();
  }
}
