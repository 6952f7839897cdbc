/** How the Solidity ABI lays out an event ("Formal Specification of the Encoding"): indexed arguments in
    topics, the others as heads followed by tails, where a dynamic value's head is the offset of its tail.
    The decoder walks them with two counters.  What a single word or byte string decodes to is left to a
    codec, so everything here holds for any word decoder. */
module AbiLayout {
  import opened ChainModel
  import opened Bytes

  /** Which kinds are dynamic, what words, bytes and hashes stand for, and how lengths and
      offsets below `limit` are written and read. */
  datatype Codec<!V> = Codec(dynamic: string -> bool, word: (string, seq<byte>) -> Result<V>,
                             bytes: (string, seq<byte>) -> Result<V>, hash: seq<byte> -> V,
                             limit: nat, number: nat -> seq<byte>, usize: seq<byte> -> Result<nat>)

  datatype Input = Input(kind: string, indexed: bool)

  // ----- decoding -----

  /** The bytes a dynamic value's offset leads to. */
  function DynamicBytes<V>(d: Codec<V>, data: seq<byte>, offset: nat): Result<seq<byte>> {
    if offset + 32 > |data| then Err
    else
      var length := d.usize(data[offset..offset + 32]);
      if length.Err? || offset + 32 + length.value > |data| then Err
      else Ok(data[offset + 32..offset + 32 + length.value])
  }

  function DecodeDynamicValue<V>(d: Codec<V>, kind: string, data: seq<byte>, word: seq<byte>): Result<V> {
    var offset := d.usize(word);
    var bytes := if offset.Ok? then DynamicBytes(d, data, offset.value) else Err;
    if bytes.Err? then Err else d.bytes(kind, bytes.value)
  }

  function DataWord(data: seq<byte>, index: nat): Result<seq<byte>> {
    if 32 * index + 32 <= |data| then Ok(data[32 * index..32 * index + 32]) else Err
  }

  /** One parameter, from the topic or data word that is next. */
  function DecodeParam<V>(d: Codec<V>, input: Input, topics: seq<seq<byte>>, data: seq<byte>, ti: nat,
                          di: nat): Result<V>
  {
    if input.indexed then
      if ti >= |topics| || |topics[ti]| != 32 then Err
      else if d.dynamic(input.kind) then Ok(d.hash(topics[ti]))
      else d.word(input.kind, topics[ti])
    else
      var word := DataWord(data, di);
      if word.Err? then Err
      else if d.dynamic(input.kind) then DecodeDynamicValue(d, input.kind, data, word.value)
      else d.word(input.kind, word.value)
  }

  function DecodeParams<V>(d: Codec<V>, inputs: seq<Input>, topics: seq<seq<byte>>, data: seq<byte>, ti: nat,
                           di: nat): Result<seq<V>>
  {
    if inputs == [] then Ok([])
    else
      var first := DecodeParam(d, inputs[0], topics, data, ti, di);
      if first.Err? then Err
      else Prefixed([first.value], DecodeParams(d, inputs[1..], topics, data,
                                                if inputs[0].indexed then ti + 1 else ti,
                                                if inputs[0].indexed then di else di + 1))
  }

  function Prefixed<V>(done: seq<V>, rest: Result<seq<V>>): Result<seq<V>> {
    if rest.Ok? then Ok(done + rest.value) else Err
  }

  /** The decoder's loop, with its two running counters; topic 0 is the event's signature. */
  method DecodeEventParams<V>(d: Codec<V>, inputs: seq<Input>, topics: seq<seq<byte>>, data: seq<byte>)
    returns (r: Result<seq<V>>)
    ensures r == DecodeParams(d, inputs, topics, data, 1, 0)
  {
    var topicIndex, dataIndex := 1, 0;
    var params := [];
    ghost var all := DecodeParams(d, inputs, topics, data, 1, 0);
    assert inputs[0..] == inputs && (all.Ok? ==> [] + all.value == all.value);
    for i := 0 to |inputs|
      invariant topicIndex >= 1 && dataIndex >= 0
      invariant all == Prefixed(params, DecodeParams(d, inputs[i..], topics, data, topicIndex, dataIndex))
    {
      var rest := inputs[i..];
      assert rest[0] == inputs[i] && rest[1..] == inputs[i + 1..];
      var param := DecodeParam(d, inputs[i], topics, data, topicIndex, dataIndex);
      if param.Err? { return Err; }
      ghost var next := DecodeParams(d, inputs[i + 1..], topics, data,
                                     if inputs[i].indexed then topicIndex + 1 else topicIndex,
                                     if inputs[i].indexed then dataIndex else dataIndex + 1);
      PrefixedTwice(params, [param.value], next);
      params := params + [param.value];
      if inputs[i].indexed { topicIndex := topicIndex + 1; } else { dataIndex := dataIndex + 1; }
    }
    assert inputs[|inputs|..] == [] && params + [] == params;
    r := Ok(params);
  }

  lemma PrefixedTwice<V>(a: seq<V>, b: seq<V>, r: Result<seq<V>>)
    ensures Prefixed(a, Prefixed(b, r)) == Prefixed(a + b, r)
  {
    if r.Ok? { assert a + (b + r.value) == (a + b) + r.value; }
  }

  // ----- encoding -----

  /** An argument: `raw` is its topic, its word, or the bytes of a dynamic value. */
  datatype Arg<V> = Arg(input: Input, value: V, raw: seq<byte>)

  /** The codec understands the argument's own bytes. */
  predicate Good<V(==)>(d: Codec<V>, a: Arg<V>) {
    if d.dynamic(a.input.kind) then
      if a.input.indexed then |a.raw| == 32 && d.hash(a.raw) == a.value
      else |a.raw| < d.limit && d.bytes(a.input.kind, a.raw) == Ok(a.value)
    else |a.raw| == 32 && d.word(a.input.kind, a.raw) == Ok(a.value)
  }

  function FirstBad<V(==)>(d: Codec<V>, args: seq<Arg<V>>): Option<Arg<V>> {
    if args == [] then None
    else if Good(d, args[0]) then FirstBad(d, args[1..])
    else Some(args[0])
  }

  /** Lengths and offsets are read back from the words they are written as. */
  ghost predicate NumbersRead<V>(d: Codec<V>) {
    forall n: nat :: n < d.limit ==> |d.number(n)| == 32 && d.usize(d.number(n)) == Ok(n)
  }

  /** A dynamic value's tail: its length, its bytes, and padding to whole words. */
  function TailOf<V>(d: Codec<V>, bytes: seq<byte>): seq<byte> {
    d.number(|bytes|) + bytes + Filled((32 - |bytes| % 32) % 32, 0)
  }

  /** The tail is its length and its bytes, filled up with zeros to the next whole word. */
  lemma TailPadded<V>(d: Codec<V>, bytes: seq<byte>)
    requires |d.number(|bytes|)| == 32
    ensures var t := TailOf(d, bytes);
            && t[..32] == d.number(|bytes|) && |t| % 32 == 0 && 32 + |bytes| <= |t| < 64 + |bytes|
            && t[32..32 + |bytes|] == bytes && forall i :: 32 + |bytes| <= i < |t| ==> t[i] == 0
  {
  }

  /** What an argument adds to the data: nothing, a word, or a tail whose offset goes in its head. */
  datatype Piece = Nothing | Static(word: seq<byte>) | Dynamic(tail: seq<byte>)

  function PieceOf<V>(d: Codec<V>, a: Arg<V>): Piece {
    if a.input.indexed then Nothing
    else if d.dynamic(a.input.kind) then Dynamic(TailOf(d, a.raw))
    else Static(a.raw)
  }

  function Pieces<V>(d: Codec<V>, args: seq<Arg<V>>): seq<Piece> {
    if args == [] then [] else [PieceOf(d, args[0])] + Pieces(d, args[1..])
  }

  function TopicsOf<V>(args: seq<Arg<V>>): seq<seq<byte>> {
    if args == [] then [] else (if args[0].input.indexed then [args[0].raw] else []) + TopicsOf(args[1..])
  }

  function TailBytes(p: Piece): seq<byte> {
    if p.Dynamic? then p.tail else []
  }

  function Tails(ps: seq<Piece>): seq<byte> {
    if ps == [] then [] else TailBytes(ps[0]) + Tails(ps[1..])
  }

  function Head<V>(d: Codec<V>, p: Piece, off: nat): seq<byte> {
    match p
    case Nothing => []
    case Static(word) => word
    case Dynamic(_) => d.number(off)
  }

  /** All heads; the next tail starts at `off`. */
  function Heads<V>(d: Codec<V>, ps: seq<Piece>, off: nat): seq<byte> {
    if ps == [] then [] else Head(d, ps[0], off) + Heads(d, ps[1..], off + |TailBytes(ps[0])|)
  }

  function HeadSize(ps: seq<Piece>): nat {
    if ps == [] then 0 else (if ps[0].Nothing? then 0 else 32) + HeadSize(ps[1..])
  }

  function EventSize<V>(d: Codec<V>, args: seq<Arg<V>>): nat {
    HeadSize(Pieces(d, args)) + |Tails(Pieces(d, args))|
  }

  /** An event's data: all heads, then all tails. */
  function EventData<V>(d: Codec<V>, args: seq<Arg<V>>): seq<byte> {
    var ps := Pieces(d, args);
    Heads(d, ps, HeadSize(ps)) + Tails(ps)
  }

  function InputsOf<V>(args: seq<Arg<V>>): seq<Input> {
    if args == [] then [] else [args[0].input] + InputsOf(args[1..])
  }

  function ValuesOf<V>(args: seq<Arg<V>>): seq<V> {
    if args == [] then [] else [args[0].value] + ValuesOf(args[1..])
  }

  // ----- where the pieces lie -----

  /** Each head is the next data word. */
  ghost predicate HeadsAt<V>(d: Codec<V>, ps: seq<Piece>, data: seq<byte>, di: nat, off: nat) {
    if ps == [] then true
    else if ps[0].Nothing? then HeadsAt(d, ps[1..], data, di, off)
    else
      DataWord(data, di) == Ok(Head(d, ps[0], off)) && HeadsAt(d, ps[1..], data, di + 1, off + |TailBytes(ps[0])|)
  }

  /** Each tail follows the one before it. */
  ghost predicate TailsAt(ps: seq<Piece>, data: seq<byte>, off: nat) {
    if ps == [] then true
    else
      var t := TailBytes(ps[0]);
      off + |t| <= |data| && data[off..off + |t|] == t && TailsAt(ps[1..], data, off + |t|)
  }

  lemma {:induction false} TailsLie(ps: seq<Piece>, data: seq<byte>, off: nat)
    requires off <= |data| && data[off..] == Tails(ps)
    ensures TailsAt(ps, data, off)
  {
    if ps != [] {
      var t := TailBytes(ps[0]);
      assert data[off..off + |t|] == data[off..][..|t|] == t;
      assert data[off + |t|..] == data[off..][|t|..] == Tails(ps[1..]);
      TailsLie(ps[1..], data, off + |t|);
    }
  }

  ghost predicate WordsWhole<V>(d: Codec<V>, ps: seq<Piece>, off: nat) {
    if ps == [] then true
    else (ps[0].Nothing? || |Head(d, ps[0], off)| == 32) && WordsWhole(d, ps[1..], off + |TailBytes(ps[0])|)
  }

  lemma {:induction false} HeadsLie<V>(d: Codec<V>, ps: seq<Piece>, data: seq<byte>, at: nat, di: nat, off: nat,
                                       rest: seq<byte>)
    requires WordsWhole(d, ps, off) && at == 32 * di && at <= |data| && data[at..] == Heads(d, ps, off) + rest
    ensures HeadsAt(d, ps, data, di, off)
  {
    if ps != [] {
      var h, off' := Head(d, ps[0], off), off + |TailBytes(ps[0])|;
      var later := Heads(d, ps[1..], off') + rest;
      assert Heads(d, ps, off) + rest == h + later;
      if ps[0].Nothing? {
        assert h + later == later && off' == off;
        HeadsLie(d, ps[1..], data, at, di, off, rest);
      } else {
        assert data[at..at + 32] == data[at..][..32] == h;
        assert data[at + 32..] == data[at..][32..] == later;
        HeadsLie(d, ps[1..], data, at + 32, di + 1, off', rest);
      }
    }
  }

  // ----- reading them back -----

  /** Reading back one dynamic value whose tail lies at `off`. */
  lemma DynamicReads<V>(d: Codec<V>, kind: string, b: seq<byte>, data: seq<byte>, off: nat, t: seq<byte>)
    requires NumbersRead(d) && off < d.limit && |b| < d.limit && t == TailOf(d, b)
    requires off + |t| <= |data| && data[off..off + |t|] == t
    ensures DecodeDynamicValue(d, kind, data, d.number(off)) == d.bytes(kind, b)
  {
    var w, n := d.number(|b|), |b|;
    assert |w| == 32 && t[..32] == w && t[32..32 + n] == b;
    SubSlice(data, off, t, 0, 32);
    SubSlice(data, off, t, 32, 32 + n);
  }

  lemma SubSlice(data: seq<byte>, at: nat, t: seq<byte>, lo: nat, hi: nat)
    requires at + |t| <= |data| && data[at..at + |t|] == t && lo <= hi <= |t|
    ensures data[at + lo..at + hi] == t[lo..hi]
  {
    var part := data[at + lo..at + hi];
    assert |part| == hi - lo;
    forall k | 0 <= k < hi - lo ensures part[k] == t[lo..hi][k] {
      assert t[lo + k] == data[at..at + |t|][lo + k];
    }
  }

  /** One parameter read back from where the encoding puts it. */
  lemma ParamReads<V>(d: Codec<V>, a: Arg<V>, topics: seq<seq<byte>>, data: seq<byte>, ti: nat, di: nat, off: nat,
                      p: Piece)
    requires NumbersRead(d) && Good(d, a) && p == PieceOf(d, a) && |data| < d.limit
    requires a.input.indexed ==> ti < |topics| && topics[ti] == a.raw
    requires a.input.indexed || DataWord(data, di) == Ok(Head(d, p, off))
    requires off + |TailBytes(p)| <= |data| && data[off..off + |TailBytes(p)|] == TailBytes(p)
    ensures DecodeParam(d, a.input, topics, data, ti, di) == Ok(a.value)
  {
    if p.Dynamic? { DynamicReads(d, a.input.kind, a.raw, data, off, p.tail); }
  }

  lemma {:induction false} ParamsRead<V>(d: Codec<V>, args: seq<Arg<V>>, ps: seq<Piece>, topics: seq<seq<byte>>,
                                         data: seq<byte>, ti: nat, di: nat, off: nat)
    requires NumbersRead(d) && FirstBad(d, args) == None && ps == Pieces(d, args) && |data| < d.limit
    requires HeadsAt(d, ps, data, di, off) && TailsAt(ps, data, off)
    requires ti <= |topics| && topics[ti..] == TopicsOf(args)
    ensures DecodeParams(d, InputsOf(args), topics, data, ti, di) == Ok(ValuesOf(args))
  {
    if args != [] {
      var ti', di', off' := FirstRead(d, args, ps, topics, data, ti, di, off);
      ParamsRead(d, args[1..], ps[1..], topics, data, ti', di', off');
      ParamsStep(d, args, topics, data, ti, di, ti', di');
    }
  }

  /** The first parameter is read, and the others are laid out from where its reading ends. */
  lemma {:induction false} FirstRead<V>(d: Codec<V>, args: seq<Arg<V>>, ps: seq<Piece>, topics: seq<seq<byte>>,
                                        data: seq<byte>, ti: nat, di: nat, off: nat)
    returns (ti': nat, di': nat, off': nat)
    requires NumbersRead(d) && FirstBad(d, args) == None && ps == Pieces(d, args) && |data| < d.limit && args != []
    requires HeadsAt(d, ps, data, di, off) && TailsAt(ps, data, off)
    requires ti <= |topics| && topics[ti..] == TopicsOf(args)
    ensures DecodeParam(d, args[0].input, topics, data, ti, di) == Ok(args[0].value)
    ensures ti' == (if args[0].input.indexed then ti + 1 else ti)
    ensures di' == (if args[0].input.indexed then di else di + 1)
    ensures ps != [] && FirstBad(d, args[1..]) == None && ps[1..] == Pieces(d, args[1..])
    ensures HeadsAt(d, ps[1..], data, di', off') && TailsAt(ps[1..], data, off')
    ensures ti' <= |topics| && topics[ti'..] == TopicsOf(args[1..])
  {
    FirstValue(d, args, ps, topics, data, ti, di, off);
    TopicStep(topics, ti, args);
    ti' := if args[0].input.indexed then ti + 1 else ti;
    di' := if args[0].input.indexed then di else di + 1;
    off' := off + |TailBytes(PieceOf(d, args[0]))|;
    LayoutNext(d, args, ps, data, di, off, di', off');
  }

  lemma {:induction false} LayoutNext<V>(d: Codec<V>, args: seq<Arg<V>>, ps: seq<Piece>, data: seq<byte>, di: nat,
                                         off: nat, di': nat, off': nat)
    requires args != [] && FirstBad(d, args) == None && ps == Pieces(d, args)
    requires HeadsAt(d, ps, data, di, off) && TailsAt(ps, data, off)
    requires di' == (if args[0].input.indexed then di else di + 1) && off' == off + |TailBytes(PieceOf(d, args[0]))|
    ensures ps != [] && FirstBad(d, args[1..]) == None && ps[1..] == Pieces(d, args[1..])
    ensures HeadsAt(d, ps[1..], data, di', off') && TailsAt(ps[1..], data, off')
  {
    var p, later := PieceOf(d, args[0]), Pieces(d, args[1..]);
    assert ps == [p] + later;
    assert ps[1..] == later;
  }

  lemma {:induction false} FirstValue<V>(d: Codec<V>, args: seq<Arg<V>>, ps: seq<Piece>, topics: seq<seq<byte>>,
                                         data: seq<byte>, ti: nat, di: nat, off: nat)
    requires NumbersRead(d) && FirstBad(d, args) == None && ps == Pieces(d, args) && |data| < d.limit && args != []
    requires HeadsAt(d, ps, data, di, off) && TailsAt(ps, data, off)
    requires ti <= |topics| && topics[ti..] == TopicsOf(args)
    ensures DecodeParam(d, args[0].input, topics, data, ti, di) == Ok(args[0].value)
  {
    TopicStep(topics, ti, args);
    LayoutStep(d, args, ps, data, di, off);
    ParamReads(d, args[0], topics, data, ti, di, off, ps[0]);
  }

  /** The first piece, and what is laid out for the others. */
  lemma {:induction false} LayoutStep<V>(d: Codec<V>, args: seq<Arg<V>>, ps: seq<Piece>, data: seq<byte>, di: nat,
                                         off: nat)
    requires args != [] && FirstBad(d, args) == None && ps == Pieces(d, args)
    requires HeadsAt(d, ps, data, di, off) && TailsAt(ps, data, off)
    ensures ps != [] && ps[0] == PieceOf(d, args[0]) && ps[1..] == Pieces(d, args[1..])
    ensures Good(d, args[0]) && FirstBad(d, args[1..]) == None
    ensures var t := TailBytes(ps[0]);
            && off + |t| <= |data| && data[off..off + |t|] == t && TailsAt(ps[1..], data, off + |t|)
            && (args[0].input.indexed ==> HeadsAt(d, ps[1..], data, di, off + |t|))
            && (!args[0].input.indexed ==>
                  DataWord(data, di) == Ok(Head(d, ps[0], off)) && HeadsAt(d, ps[1..], data, di + 1, off + |t|))
  {
  }

  lemma {:induction false} ParamsStep<V>(d: Codec<V>, args: seq<Arg<V>>, topics: seq<seq<byte>>, data: seq<byte>,
                                         ti: nat, di: nat, ti': nat, di': nat)
    requires args != [] && ti' == (if args[0].input.indexed then ti + 1 else ti)
             && di' == if args[0].input.indexed then di else di + 1
    requires DecodeParam(d, args[0].input, topics, data, ti, di) == Ok(args[0].value)
    requires DecodeParams(d, InputsOf(args[1..]), topics, data, ti', di') == Ok(ValuesOf(args[1..]))
    ensures DecodeParams(d, InputsOf(args), topics, data, ti, di) == Ok(ValuesOf(args))
  {
    assert InputsOf(args)[1..] == InputsOf(args[1..]);
  }

  lemma {:induction false} TopicStep<V>(topics: seq<seq<byte>>, ti: nat, args: seq<Arg<V>>)
    requires ti <= |topics| && topics[ti..] == TopicsOf(args) && args != []
    ensures args[0].input.indexed ==>
              ti < |topics| && topics[ti] == args[0].raw && topics[ti + 1..] == TopicsOf(args[1..])
    ensures !args[0].input.indexed ==> topics[ti..] == TopicsOf(args[1..])
  {
    if args[0].input.indexed {
      assert topics[ti] == topics[ti..][0];
      assert topics[ti + 1..] == topics[ti..][1..];
    }
  }

  lemma {:induction false} GoodWords<V>(d: Codec<V>, args: seq<Arg<V>>, ps: seq<Piece>, off: nat)
    requires NumbersRead(d) && FirstBad(d, args) == None && ps == Pieces(d, args) && off + |Tails(ps)| < d.limit
    ensures WordsWhole(d, ps, off)
  {
    if args != [] {
      var off' := off + |TailBytes(ps[0])|;
      GoodWords(d, args[1..], ps[1..], off');
      assert ps[0].Nothing? || |Head(d, ps[0], off)| == 32;
    }
  }

  lemma {:induction false} HeadsSize<V>(d: Codec<V>, ps: seq<Piece>, off: nat)
    requires WordsWhole(d, ps, off)
    ensures |Heads(d, ps, off)| == HeadSize(ps)
  {
    if ps != [] { HeadsSize(d, ps[1..], off + |TailBytes(ps[0])|); }
  }

  /** Decoding undoes the layout of a whole event, whatever the single words and byte strings mean. */
  lemma LayoutRoundTrip<V>(d: Codec<V>, args: seq<Arg<V>>, signature: seq<byte>)
    requires NumbersRead(d) && FirstBad(d, args) == None && EventSize(d, args) < d.limit
    ensures DecodeParams(d, InputsOf(args), [signature] + TopicsOf(args), EventData(d, args), 1, 0)
            == Ok(ValuesOf(args))
  {
    var ps := Pieces(d, args);
    var n := HeadSize(ps);
    GoodWords(d, args, ps, n);
    HeadsSize(d, ps, n);
    var data, topics := EventData(d, args), [signature] + TopicsOf(args);
    assert data[0..] == Heads(d, ps, n) + Tails(ps) && data[n..] == Tails(ps);
    HeadsLie(d, ps, data, 0, 0, n, Tails(ps));
    TailsLie(ps, data, n);
    assert topics[1..] == TopicsOf(args);
    ParamsRead(d, args, ps, topics, data, 1, 0, n);
  }
}
