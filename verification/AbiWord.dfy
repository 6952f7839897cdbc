/** The 32-byte words of the Solidity Contract ABI Specification: the runtime's encoder and decoder of
    call data, and the event decoder, which reads the same words on its own.  Texts in hexadecimal and
    decimal are modelled by the bytes and integers they spell. */
module AbiWord {
  import opened ChainModel
  import opened Bytes
  import opened DecimalText
  import opened AbiLayout

  datatype Value =
    | Address(bytes: seq<byte>)
    | Bool(on: bool)
    | Raw(bytes: seq<byte>)
    | Int(number: int)
    | Text(bytes: seq<byte>)
    | Uint(number: int)
    | TopicHash(bytes: seq<byte>)
    | Array(values: seq<Value>)
    | Tuple(values: seq<Value>)

  /** What is valid UTF-8, and what replaces text that is not. */
  datatype Utf8 = Utf8(valid: seq<byte> -> bool, repair: seq<byte> -> seq<byte>)

  // ----- kinds -----

  predicate StartsWith(s: string, prefix: string) {
    |prefix| <= |s| && s[..|prefix|] == prefix
  }

  function ParseUsize(s: string): Option<nat> {
    var body := if s != "" && s[0] == '+' then s[1..] else s;
    if body == "" || !AllDigits(body) then None else Some(NatValue(body))
  }

  /** The width of `bytes1` to `bytes32`. */
  function FixedBytesSize(kind: string): (size: Option<nat>)
    ensures size.Some? ==> 1 <= size.value <= 32 && StartsWith(kind, "bytes")
  {
    if !StartsWith(kind, "bytes") then None
    else
      var size := ParseUsize(kind[5..]);
      if size.Some? && 1 <= size.value <= 32 then size else None
  }

  lemma FixedBytesNames(n: nat)
    ensures FixedBytesSize("bytes" + NatText(n)) == if 1 <= n <= 32 then Some(n) else None
  {
    NatTextDigits(n);
    var kind := "bytes" + NatText(n);
    assert kind[..5] == "bytes" && kind[5..] == NatText(n);
    assert NatText(n)[0] in NatText(n);
  }

  predicate IsDynamic(kind: string) {
    kind == "string" || kind == "bytes"
  }

  /** The kinds fall into families that do not overlap. */
  lemma KindFamilies(kind: string)
    ensures StartsWith(kind, "uint") ==>
              !StartsWith(kind, "int") && !StartsWith(kind, "bytes") && kind != "address" && kind != "bool"
    ensures StartsWith(kind, "int") ==> !StartsWith(kind, "bytes") && kind != "address" && kind != "bool"
    ensures StartsWith(kind, "bytes") ==> kind != "address" && kind != "bool" && kind != "string"
    ensures StartsWith("bytes", "bytes") && FixedBytesSize("bytes") == None
  {
    if StartsWith(kind, "uint") { assert kind[0] == kind[..4][0]; }
    if StartsWith(kind, "int") { assert kind[0] == kind[..3][0]; }
    if StartsWith(kind, "bytes") { assert kind[0] == kind[..5][0] && kind[1] == kind[..5][1]; }
    assert "bytes"[5..] == "";
  }

  // ----- encoding -----

  /** `bytes` at the high-order end of the word, after filling. */
  function PadLeft(bytes: seq<byte>, fill: byte): seq<byte>
    requires |bytes| <= 32
  {
    Filled(32 - |bytes|, fill) + bytes
  }

  function PadRight(bytes: seq<byte>): seq<byte>
    requires |bytes| <= 32
  {
    bytes + Filled(32 - |bytes|, 0)
  }

  function EncodeWord(kind: string, v: Value): (r: Result<seq<byte>>)
    ensures r.Ok? ==> |r.value| == 32
  {
    match v
    case Address(b) =>
      if kind == "address" && |b| == 20 then Ok(PadLeft(b, 0)) else Err
    case Bool(on) =>
      if kind == "bool" then Ok(PadLeft([if on then 1 else 0], 0)) else Err
    case Uint(n) =>
      if !StartsWith(kind, "uint") || n < 0 then Err
      else
        var b := Reversed(NatBytes(n));
        if |b| > 32 then Err else Ok(PadLeft(b, 0))
    case Int(n) =>
      if !StartsWith(kind, "int") then Err
      else
        var b := Reversed(SignedBytes(n));
        if |b| > 32 then Err else Ok(PadLeft(b, if n < 0 then 255 else 0))
    case Raw(b) =>
      if FixedBytesSize(kind) == Some(|b|) then Ok(PadRight(b)) else Err
    case _ => Err
  }

  /** The encoder as it runs: one array, filled and then overwritten in part. */
  method EncodeStaticAbiWord(kind: string, v: Value) returns (r: Result<seq<byte>>)
    ensures r == EncodeWord(kind, v)
  {
    var out := new byte[32](_ => 0);
    match v {
    case Address(b) =>
      if kind != "address" || |b| != 20 { return Err; }
      CopyTo(out, 12, b);
      PaddedLeft(out[..], b, 0);
    case Bool(on) =>
      if kind != "bool" { return Err; }
      out[31] := if on then 1 else 0;
      PaddedLeft(out[..], [if on then 1 else 0], 0);
    case Uint(n) =>
      if !StartsWith(kind, "uint") || n < 0 { return Err; }
      var b := Reversed(NatBytes(n));
      if |b| > 32 { return Err; }
      CopyTo(out, 32 - |b|, b);
      PaddedLeft(out[..], b, 0);
    case Int(n) =>
      if !StartsWith(kind, "int") { return Err; }
      var fill: byte := if n < 0 then 255 else 0;
      forall i | 0 <= i < 32 { out[i] := fill; }
      var b := Reversed(SignedBytes(n));
      if |b| > 32 { return Err; }
      CopyTo(out, 32 - |b|, b);
      PaddedLeft(out[..], b, fill);
    case Raw(b) =>
      if FixedBytesSize(kind) != Some(|b|) { return Err; }
      CopyTo(out, 0, b);
      PaddedRight(out[..], b);
    case _ => return Err;
    }
    r := Ok(out[..]);
  }

  lemma PaddedLeft(s: seq<byte>, b: seq<byte>, fill: byte)
    requires |s| == 32 && |b| <= 32 && s[32 - |b|..] == b && forall i :: 0 <= i < 32 - |b| ==> s[i] == fill
    ensures s == PadLeft(b, fill)
  {
    assert s == s[..32 - |b|] + s[32 - |b|..];
  }

  lemma PaddedRight(s: seq<byte>, b: seq<byte>)
    requires |s| == 32 && |b| <= 32 && s[..|b|] == b && forall i :: |b| <= i < 32 ==> s[i] == 0
    ensures s == PadRight(b)
  {
    assert s == s[..|b|] + s[|b|..];
  }

  method CopyTo(out: array<byte>, at: nat, b: seq<byte>)
    requires at + |b| <= out.Length
    modifies out
    ensures out[..] == old(out[..at]) + b + old(out[at + |b|..])
  {
    forall i | 0 <= i < |b| { out[at + i] := b[i]; }
  }

  /** What the encoder accepts.  The width in a kind such as `uint8` is not looked at. */
  predicate Encodable(kind: string, v: Value) {
    match v
    case Address(b) => kind == "address" && |b| == 20
    case Bool(_) => kind == "bool"
    case Uint(n) => StartsWith(kind, "uint") && 0 <= n < Pow256(32)
    case Int(n) => StartsWith(kind, "int") && FitsSigned(n, 32)
    case Raw(b) => FixedBytesSize(kind) == Some(|b|)
    case _ => false
  }

  /** The word the Solidity ABI prescribes ("Formal Specification of the Encoding"): numbers are
      big-endian, modulo 2^256; an address is the number its bytes spell; fixed bytes are padded with
      zero bytes at the low-order end. */
  ghost predicate IsAbiWord(v: Value, w: seq<byte>) {
    && |w| == 32
    && match v
       case Address(b) => BeValue(w) == BeValue(b)
       case Bool(on) => BeValue(w) == if on then 1 else 0
       case Uint(n) => BeValue(w) == n
       case Int(n) => BeValue(w) == if n < 0 then n + Pow256(32) else n
       case Raw(b) => |b| <= 32 && w == b + Filled(32 - |b|, 0)
       case _ => false
  }

  lemma PadLeftValue(b: seq<byte>, fill: byte, n: nat)
    requires |b| <= 32 && n == 32 - |b|
    ensures Reversed(PadLeft(b, fill)) == Reversed(b) + Filled(n, fill)
    ensures fill == 0 ==> BeValue(PadLeft(b, fill)) == BeValue(b)
  {
    PadLeftReversed(b, n, fill);
    if fill == 0 { ZerosLeft(b, n); }
  }

  lemma ZerosLeft(b: seq<byte>, n: nat)
    ensures BeValue(Filled(n, 0) + b) == BeValue(b)
  {
    var r, z, w := Reversed(b), Filled(n, 0), Filled(n, 0) + b;
    BeLe(w);
    BeLe(b);
    PadLeftReversed(b, n, 0);
    assert LeValue(r + z) == LeValue(r) by {
      LeValueSplit(r, z);
      LeValueFilled(n);
    }
  }

  lemma PadLeftReversed(b: seq<byte>, n: nat, fill: byte)
    ensures Reversed(Filled(n, fill) + b) == Reversed(b) + Filled(n, fill)
  {
  }

  lemma BeLe(s: seq<byte>)
    ensures BeValue(s) == LeValue(Reversed(s))
  {
    ReversedTwice(s);
    BeIsReversed(Reversed(s));
  }

  /** Two's complement in a full word: the value modulo 2^256. */
  lemma SignedWord(n: int)
    requires |SignedBytes(n)| <= 32
    ensures var w := PadLeft(Reversed(SignedBytes(n)), if n < 0 then 255 else 0);
            && SignedValue(Reversed(w)) == n
            && BeValue(w) == if n < 0 then n + Pow256(32) else n
  {
    var b, fill: byte := SignedBytes(n), if n < 0 then 255 else 0;
    var w := PadLeft(Reversed(b), fill);
    var pad := 32 - |b|;
    PadLeftValue(Reversed(b), fill, pad);
    ReversedTwice(b);
    SignedRoundTrip(n);
    SignedBytesSign(n);
    SignExtend(b, pad);
    BeLe(w);
    SignedBounds(Reversed(w));
  }

  /** The encoder accepts exactly the encodable values, and writes the word the ABI prescribes. */
  lemma EncodeMeansAbi(kind: string, v: Value)
    ensures EncodeWord(kind, v).Ok? <==> Encodable(kind, v)
    ensures Encodable(kind, v) ==> IsAbiWord(v, EncodeWord(kind, v).value)
  {
    EncodeAccepts(kind, v);
    if Encodable(kind, v) {
      match v
      case Address(b) => PadLeftValue(b, 0, 12);
      case Bool(on) => BoolWord(if on then 1 else 0);
      case Uint(n) => UintWord(n, NatBytes(n));
      case Int(n) => SignedWord(n);
      case _ =>
    }
  }

  lemma BoolWord(b: byte)
    ensures BeValue(PadLeft([b], 0)) == b
  {
    PadLeftValue([b], 0, 31);
    assert [b][..0] == [] && BeValue([b]) == b;
  }

  lemma EncodeAccepts(kind: string, v: Value)
    ensures EncodeWord(kind, v).Ok? <==> Encodable(kind, v)
  {
    if v.Uint? {
      UintAccepts(kind, v.number);
    } else if v.Int? {
      SignedBytesFit(v.number, 32);
    }
  }

  lemma UintAccepts(kind: string, n: int)
    ensures EncodeWord(kind, Uint(n)).Ok? <==> Encodable(kind, Uint(n))
  {
    if n >= 0 { NatBytesFit(n, 32); }
  }

  lemma UintWord(n: nat, b: seq<byte>)
    requires b == NatBytes(n)
    ensures |b| <= 32 <==> n < Pow256(32)
    ensures |b| <= 32 ==> BeValue(PadLeft(Reversed(b), 0)) == n
  {
    NatBytesFit(n, 32);
    NatBytesValue(n);
    BeIsReversed(b);
    if |b| <= 32 { PadLeftValue(Reversed(b), 0, 32 - |b|); }
  }

  // ----- decoding -----

  /** The runtime's decoder. */
  function DecodeStaticAbiWord(kind: string, word: seq<byte>): Result<Value> {
    if |word| != 32 then Err
    else if kind == "address" then Ok(Address(word[12..32]))
    else if kind == "bool" then Ok(Bool(word[31] != 0))
    else if StartsWith(kind, "uint") then Ok(Uint(BeValue(word)))
    else if StartsWith(kind, "int") then Ok(Int(SignedValue(Reversed(word))))
    else if FixedBytesSize(kind).Some? then Ok(Raw(word[..FixedBytesSize(kind).value]))
    else Err
  }

  /** The event decoder.  Its callers pass whole words. */
  function DecodeStaticWord(kind: string, word: seq<byte>): Result<Value>
    requires |word| == 32
  {
    if kind == "address" then Ok(Address(word[12..32]))
    else if kind == "bool" then Ok(Bool(word[31] != 0))
    else if StartsWith(kind, "uint") then Ok(Uint(BeValue(word)))
    else if StartsWith(kind, "int") then Ok(Int(SignedValue(Reversed(word))))
    else if kind == "bytes32" then Ok(Raw(word))
    else if FixedBytesSize(kind).Some? then Ok(Raw(word[..FixedBytesSize(kind).value]))
    else Err
  }

  lemma DecodersAgree(kind: string, word: seq<byte>)
    requires |word| == 32
    ensures DecodeStaticWord(kind, word) == DecodeStaticAbiWord(kind, word)
  {
    if kind == "bytes32" {
      KindFamilies(kind);
      Bytes32Size();
      assert word[..32] == word;
    }
  }

  lemma Bytes32Size()
    ensures FixedBytesSize("bytes32") == Some(32)
  {
    FixedBytesNames(32);
    assert NatText(32) == "32" by { assert NatText(3) == "3"; }
  }

  /** There is only one word for a value, so decoding it is the same wherever it came from. */
  lemma AbiWordUnique(v: Value, w: seq<byte>, x: seq<byte>)
    requires IsAbiWord(v, w) && IsAbiWord(v, x)
    ensures w == x
  {
    if !v.Raw? { BeInjective(w, x); }
  }

  /** Both decoders return the value from the word the ABI prescribes for it. */
  lemma DecodeAbiWord(kind: string, v: Value, w: seq<byte>)
    requires Encodable(kind, v) && IsAbiWord(v, w)
    ensures DecodeStaticAbiWord(kind, w) == Ok(v) && DecodeStaticWord(kind, w) == Ok(v)
  {
    EncodeMeansAbi(kind, v);
    AbiWordUnique(v, w, EncodeWord(kind, v).value);
    KindFamilies(kind);
    DecodersAgree(kind, w);
    match v
    case Address(b) => assert w == Filled(12, 0) + b && w[12..32] == b;
    case Bool(on) => assert w == Filled(31, 0) + [if on then 1 else 0];
    case Uint(n) =>
    case Int(n) => SignedBytesFit(n, 32); SignedWord(n);
    case Raw(b) => assert w[..|b|] == b;
  }

  /** Both decoders undo the encoder, on every value it accepts. */
  lemma WordRoundTrip(kind: string, v: Value)
    requires Encodable(kind, v)
    ensures EncodeWord(kind, v).Ok?
    ensures DecodeStaticAbiWord(kind, EncodeWord(kind, v).value) == Ok(v)
    ensures DecodeStaticWord(kind, EncodeWord(kind, v).value) == Ok(v)
  {
    EncodeMeansAbi(kind, v);
    DecodeAbiWord(kind, v, EncodeWord(kind, v).value);
  }

  /** Whatever word is decoded, the result can be encoded again; numbers come back as the same word. */
  lemma DecodeThenEncode(kind: string, w: seq<byte>)
    requires |w| == 32 && DecodeStaticAbiWord(kind, w).Ok?
    ensures var v := DecodeStaticAbiWord(kind, w).value;
            && Encodable(kind, v)
            && (v.Uint? || v.Int? ==> EncodeWord(kind, v) == Ok(w))
  {
    var v := DecodeStaticAbiWord(kind, w).value;
    if v.Uint? || v.Int? {
      NumberEncodes(kind, w, v);
    } else if v.Raw? {
      KindFamilies(kind);
    }
  }

  lemma NumberEncodes(kind: string, w: seq<byte>, v: Value)
    requires |w| == 32 && DecodeStaticAbiWord(kind, w) == Ok(v) && (v.Uint? || v.Int?)
    ensures Encodable(kind, v) && EncodeWord(kind, v) == Ok(w)
  {
    NumberFits(kind, w, v, Reversed(w));
    EncodeMeansAbi(kind, v);
    AbiWordUnique(v, w, EncodeWord(kind, v).value);
  }

  /** A decoded number lies in its kind's range, and the word is the one prescribed for it. */
  lemma NumberFits(kind: string, w: seq<byte>, v: Value, le: seq<byte>)
    requires |w| == 32 && le == Reversed(w) && DecodeStaticAbiWord(kind, w) == Ok(v) && (v.Uint? || v.Int?)
    ensures Encodable(kind, v) && IsAbiWord(v, w)
  {
    KindOfNumber(kind, w, v);
    if v.Int? { IntFits(kind, w, v.number, le); } else { UintFits(kind, w, v.number, le); }
  }

  lemma UintFits(kind: string, w: seq<byte>, n: int, le: seq<byte>)
    requires |w| == 32 && le == Reversed(w) && StartsWith(kind, "uint") && n == BeValue(w)
    ensures Encodable(kind, Uint(n)) && IsAbiWord(Uint(n), w)
  {
    UnsignedFits(w, le);
  }

  lemma IntFits(kind: string, w: seq<byte>, n: int, le: seq<byte>)
    requires |w| == 32 && le == Reversed(w) && StartsWith(kind, "int") && n == SignedValue(le)
    ensures Encodable(kind, Int(n)) && IsAbiWord(Int(n), w)
  {
    SignedFits(w, n, le);
  }

  lemma KindOfNumber(kind: string, w: seq<byte>, v: Value)
    requires |w| == 32 && DecodeStaticAbiWord(kind, w) == Ok(v)
    ensures v.Uint? ==> StartsWith(kind, "uint") && v.number == BeValue(w)
    ensures v.Int? ==> StartsWith(kind, "int") && v.number == SignedValue(Reversed(w))
  {
  }

  lemma SignedFits(w: seq<byte>, n: int, le: seq<byte>)
    requires |w| == 32 && le == Reversed(w) && n == SignedValue(le)
    ensures FitsSigned(n, 32) && BeValue(w) == if n < 0 then n + Pow256(32) else n
  {
    BeLe(w);
    SignedBounds(le);
  }

  lemma UnsignedFits(w: seq<byte>, le: seq<byte>)
    requires |w| == 32 && le == Reversed(w)
    ensures 0 <= BeValue(w) < Pow256(32)
  {
    BeLe(w);
    LeBounds(le);
  }

  // ----- lengths and offsets -----

  /** The runtime's reading of a length or an offset: the first 24 bytes must be zero. */
  function AbiWordAsUsize(word: seq<byte>): Result<nat> {
    if |word| != 32 then Err
    else if exists i :: 0 <= i < 24 && word[i] != 0 then Err
    else Ok(BeValue(word[24..32]))
  }

  lemma {:induction false} BeSplit(a: seq<byte>, b: seq<byte>)
    ensures BeValue(a + b) == BeValue(a) * Pow256(|b|) + BeValue(b)
  {
    BeLe(a);
    BeLe(b);
    BeLe(a + b);
    ReversedConcat(a, b);
    LeValueSplit(Reversed(b), Reversed(a));
    Rejoined(BeValue(a), BeValue(b), Pow256(|b|));
  }

  lemma Rejoined(x: int, y: int, p: int)
    ensures y + p * x == x * p + y
  {
  }

  lemma ReversedConcat(a: seq<byte>, b: seq<byte>)
    ensures Reversed(a + b) == Reversed(b) + Reversed(a)
  {
  }

  lemma {:induction false} BeZero(s: seq<byte>)
    ensures BeValue(s) == 0 <==> forall i :: 0 <= i < |s| ==> s[i] == 0
  {
    if s != [] {
      BeZero(s[..|s| - 1]);
      assert forall i :: 0 <= i < |s| - 1 ==> s[i] == s[..|s| - 1][i];
    }
  }

  /** The event decoder's: the number must fit in 64 bits. */
  function UsizeFromWord(word: seq<byte>): Result<nat> {
    if BeValue(word) < Pow256(8) then Ok(BeValue(word)) else Err
  }

  lemma UsizesAgree(word: seq<byte>)
    requires |word| == 32
    ensures UsizeFromWord(word) == AbiWordAsUsize(word)
  {
    var high, low := word[..24], word[24..32];
    assert word == high + low;
    BeSplit(high, low);
    BeZero(high);
    BeLe(low);
    LeBounds(Reversed(low));
    assert forall i :: 0 <= i < 24 ==> high[i] == word[i];
    if BeValue(high) > 0 { AtLeast(BeValue(high), Pow256(8)); }
  }

  lemma AtLeast(n: nat, p: nat)
    requires n >= 1
    ensures n * p >= p
  {
  }

  // ----- events -----

  /** How the event decoder reads one parameter. */
  function EventCodec(u: Utf8): Codec<Value> {
    Codec(IsDynamic,
          (kind, word) => if |word| == 32 then DecodeStaticWord(kind, word) else Err,
          (kind, bytes) => if kind == "string" then Ok(Text(if u.valid(bytes) then bytes else u.repair(bytes)))
                           else if kind == "bytes" then Ok(Raw(bytes)) else Err,
          word => TopicHash(word),
          Pow256(8), n => NumberWord(n), UsizeFromWord)
  }

  function NumberWord(n: nat): seq<byte> {
    Reversed(LeBytes(n, 32))
  }

  lemma NumberWords(u: Utf8)
    ensures NumbersRead(EventCodec(u))
  {
    var d := EventCodec(u);
    forall n: nat | n < d.limit ensures |d.number(n)| == 32 && d.usize(d.number(n)) == Ok(n) {
      NumberWordReads(n);
    }
  }

  lemma NumberWordReads(n: nat)
    requires n < Pow256(8)
    ensures |NumberWord(n)| == 32 && BeValue(NumberWord(n)) == n
  {
    var s := LeBytes(n, 32);
    Pow256Grows(8, 32);
    LeRoundTrip(n, 32);
    BeIsReversed(s);
  }

  datatype EventArg = EventArg(input: Input, value: Value)

  /** The values an event can carry; an indexed dynamic value is present only as its hash. */
  predicate Carries(u: Utf8, a: EventArg) {
    if IsDynamic(a.input.kind) then
      if a.input.indexed then a.value.TopicHash? && |a.value.bytes| == 32
      else if a.input.kind == "string" then a.value.Text? && u.valid(a.value.bytes) && |a.value.bytes| < Pow256(8)
      else a.value.Raw? && |a.value.bytes| < Pow256(8)
    else Encodable(a.input.kind, a.value)
  }

  /** The bytes that go into the event for a value: itself, or the encoder's word. */
  function RawOf(a: EventArg): seq<byte> {
    if IsDynamic(a.input.kind) && (a.value.TopicHash? || a.value.Text? || a.value.Raw?) then a.value.bytes
    else if EncodeWord(a.input.kind, a.value).Ok? then EncodeWord(a.input.kind, a.value).value else []
  }

  function ArgsOf(args: seq<EventArg>): seq<Arg<Value>> {
    if args == [] then [] else [Arg(args[0].input, args[0].value, RawOf(args[0]))] + ArgsOf(args[1..])
  }

  /** Texts and byte strings are carried whole as data, and by a hash of 32 bytes as topics. */
  lemma DynamicCarried(u: Utf8, input: Input, bytes: seq<byte>)
    requires input.kind == "string" || input.kind == "bytes"
    ensures input.indexed ==> (Carries(u, EventArg(input, TopicHash(bytes))) <==> |bytes| == 32)
    ensures !input.indexed && input.kind == "bytes" ==>
              (Carries(u, EventArg(input, Raw(bytes))) <==> |bytes| < 0x1_0000_0000_0000_0000)
    ensures !input.indexed && input.kind == "string" ==>
              (Carries(u, EventArg(input, Text(bytes))) <==> u.valid(bytes) && |bytes| < 0x1_0000_0000_0000_0000)
    ensures RawOf(EventArg(input, Text(bytes))) == bytes && RawOf(EventArg(input, Raw(bytes))) == bytes
  {
    assert Pow256(4) == 0x1_0000_0000 && Pow256(6) == 0x1_0000_0000_0000;
  }

  lemma CarriedReads(u: Utf8, a: EventArg)
    requires Carries(u, a)
    ensures Good(EventCodec(u), Arg(a.input, a.value, RawOf(a)))
  {
    if !IsDynamic(a.input.kind) { WordRoundTrip(a.input.kind, a.value); }
  }

  ghost predicate AllCarried(u: Utf8, args: seq<EventArg>) {
    forall i :: 0 <= i < |args| ==> Carries(u, args[i])
  }

  lemma {:induction false} AllGood(u: Utf8, args: seq<EventArg>)
    requires AllCarried(u, args)
    ensures FirstBad(EventCodec(u), ArgsOf(args)) == None
    ensures |ArgsOf(args)| == |args|
    ensures forall i :: 0 <= i < |args| ==> ArgsOf(args)[i] == Arg(args[i].input, args[i].value, RawOf(args[i]))
  {
    if args != [] {
      CarriedReads(u, args[0]);
      AllGood(u, args[1..]);
      assert ArgsOf(args)[1..] == ArgsOf(args[1..]);
    }
  }

  /** Decoding an event undoes its ABI encoding, for any mix of indexed and plain, static and dynamic
      arguments the event can carry. */
  lemma EventRoundTrip(u: Utf8, args: seq<EventArg>, signature: seq<byte>)
    requires AllCarried(u, args) && EventSize(EventCodec(u), ArgsOf(args)) < Pow256(8)
    ensures var d, event := EventCodec(u), ArgsOf(args);
            && FirstBad(d, event) == None
            && DecodeParams(d, InputsOf(event), [signature] + TopicsOf(event), EventData(d, event), 1, 0)
               == Ok(ValuesOf(event))
  {
    AllGood(u, args);
    NumberWords(u);
    LayoutRoundTrip(EventCodec(u), ArgsOf(args), signature);
  }
}
