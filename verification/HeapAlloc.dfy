/** The host's allocating calls: each asks the module's allocator for a block, writes one object into it,
    and so builds a structure from its leaves up. */
module HeapAlloc {
  import opened ChainModel
  import opened Bytes
  import opened HeapLayout
  import opened Heap

  /** What `__new` answers: nothing, or a block in the memory it leaves behind. */
  datatype Grant<S> = Refused | Granted(state: S, ptr: nat, memory: seq<byte>)

  /** An allocator with a state of its own, and the bytes it has handed out in a state. */
  datatype Allocator<!S> = Allocator(next: (S, seq<byte>, nat) -> Grant<S>, owned: S -> set<nat>)

  ghost predicate Inside(live: set<nat>, memory: seq<byte>) {
    forall i :: i in live ==> i < |memory|
  }

  /** A granted block is new, carries its size in front, and leaves what was handed out alone. */
  ghost predicate LawfulGrant<S>(a: Allocator<S>, s: S, memory: seq<byte>, n: nat, g: Grant<S>) {
    g.Granted? ==>
      && 4 <= g.ptr && g.ptr + n < W31 && g.ptr + n <= |g.memory|
      && ReadU32(g.memory, g.ptr - 4) == Ok(n)
      && Inside(a.owned(g.state), g.memory)
      && Grows(View(memory, a.owned(s)), View(g.memory, a.owned(g.state)))
      && forall i :: g.ptr - 4 <= i < g.ptr + n ==> i in a.owned(g.state) && i !in a.owned(s)
  }

  ghost predicate Lawful<S(!new)>(a: Allocator<S>) {
    forall s: S, memory: seq<byte>, n: nat ::
      Inside(a.owned(s), memory) ==> LawfulGrant(a, s, memory, n, a.next(s, memory, n))
  }

  /** How much room an allocator has in a state, given the memory's length: a block that fits with its four bytes of
      header is granted, and takes no more than that away.  (Of an allocator about which nothing is known, no room.) */
  ghost predicate Roomy<S(!new)>(a: Allocator<S>, room: (S, nat) -> nat) {
    forall s: S, memory: seq<byte>, n: nat :: Inside(a.owned(s), memory) && n + 4 <= room(s, |memory|) ==>
      var g := a.next(s, memory, n);
      g.Granted? && room(s, |memory|) <= room(g.state, |g.memory|) + n + 4
  }

  /** What fits the room succeeds, and takes no more than it needs. */
  predicate Spent(before: nat, need: nat, ok: bool, after: nat) {
    need <= before ==> ok && before <= after + need
  }

  /** A call fails exactly when the allocator has refused a block during it. */
  predicate FailsRefused(before: nat, ok: bool, after: nat) {
    if ok then after == before else after > before
  }

  // ----- there is a lawful allocator -----

  function BumpNext(top: nat, memory: seq<byte>, n: nat): Grant<nat> {
    if top > |memory| || top + 4 + n >= W31 then Refused
    else Granted(top + 4 + n, top + 4, memory[..top] + LeBytes(n, 4) + Filled(n, 0) + memory[top..])
  }

  function Below(top: nat): (r: set<nat>)
    ensures forall i: nat :: i in r <==> i < top
  {
    if top == 0 then {} else Below(top - 1) + {top - 1}
  }

  lemma BumpIsLawful()
    ensures Lawful(Allocator(BumpNext, Below))
  {
    var a := Allocator(BumpNext, Below);
    forall s: nat, memory: seq<byte>, n: nat | Inside(a.owned(s), memory)
      ensures LawfulGrant(a, s, memory, n, a.next(s, memory, n))
    {
      var g := BumpNext(s, memory, n);
      if g.Granted? {
        assert g.memory[s..s + 4] == LeBytes(n, 4);
        FourBytes();
        LeRoundTrip(n, 4);
        assert Grows(View(memory, Below(s)), View(g.memory, Below(g.state)));
      }
    }
  }

  function BumpRoom(top: nat, length: nat): nat {
    if top > length || top + 1 > W31 then 0 else W31 - 1 - top
  }

  /** The bump allocator has the room above its top, up to the last address a pointer can have. */
  lemma BumpIsRoomy()
    ensures Roomy(Allocator(BumpNext, Below), BumpRoom)
  {
    forall s: nat, memory: seq<byte>, n: nat | n + 4 <= BumpRoom(s, |memory|)
      ensures var g := BumpNext(s, memory, n);
              g.Granted? && BumpRoom(s, |memory|) <= BumpRoom(g.state, |g.memory|) + n + 4
    {
      var g := BumpNext(s, memory, n);
      assert |g.memory| == |memory| + 4 + n;
    }
  }

  // ----- what values need -----

  function NeedText(s: Text): nat { |TextBytes(s)| + 4 }

  /** A buffer, and the object that points to it. */
  function NeedBytes(bytes: seq<byte>): nat { |bytes| + 4 + 16 }

  function NeedBigInt(n: int): nat { NeedBytes(SignedBytes(n)) }

  function NeedDecimal(digits: int, exp: int): nat { NeedBigInt(digits) + NeedBigInt(exp) + 12 }

  function NeedArray(count: nat): nat { 4 * count + 4 + 20 }

  function NeedPayload(x: StoreValue): nat
    decreases x, 0
  {
    match x
    case String(s) => NeedText(s)
    case Decimal(digits, exp) => NeedDecimal(digits, exp)
    case Array(xs) => NeedItems(xs) + NeedArray(|xs|)
    case Raw(bytes) => NeedBytes(bytes)
    case BigInt(n) => NeedBigInt(n)
    case _ => 0
  }

  function NeedItems(xs: seq<StoreValue>): nat
    decreases xs, 2
  {
    if xs == [] then 0 else NeedValue(xs[0]) + NeedItems(xs[1..])
  }

  function NeedValue(x: StoreValue): nat
    decreases x, 1
  {
    NeedPayload(x) + 20
  }

  function NeedEntry(key: Text, x: StoreValue): nat { NeedText(key) + NeedValue(x) + 12 }

  /** What the entries of an entity need, by key. */
  function NeedOf(entity: EntityData): Text -> nat {
    (k: Text) => if k in entity then NeedEntry(k, entity[k]) else 0
  }

  ghost function Sum(keys: set<Text>, need: Text -> nat): nat {
    if keys == {} then 0
    else
      var k :| k in keys;
      need(k) + Sum(keys - {k}, need)
  }

  /** It does not matter which key is counted first. */
  lemma {:induction false} SumWithout(keys: set<Text>, need: Text -> nat, key: Text)
    requires key in keys
    ensures Sum(keys, need) == need(key) + Sum(keys - {key}, need)
    decreases |keys|
  {
    var k :| k in keys && Sum(keys, need) == need(k) + Sum(keys - {k}, need);
    if k != key {
      SumWithout(keys - {k}, need, key);
      SumWithout(keys - {key}, need, k);
      assert keys - {k} - {key} == keys - {key} - {k};
    }
  }

  ghost function NeedEntries(entity: EntityData, keys: set<Text>): nat {
    Sum(keys, NeedOf(entity))
  }

  ghost function NeedEntity(entity: EntityData): nat {
    NeedEntries(entity, entity.Keys) + NeedArray(|entity|) + 8
  }

  lemma EntriesNext(v: View, w: View, ps: seq<nat>, pairs: seq<(Text, StoreValue)>, p: nat, key: Text, x: StoreValue)
    requires EntriesRep(v, ps, pairs) && Grows(v, w) && EntryRep(w, p, key, x)
    ensures EntriesRep(w, ps + [p], pairs + [(key, x)])
  {
    EntriesKept(v, w, ps, pairs);
  }

  lemma NeedNext(entity: EntityData, todo: set<Text>, key: Text)
    requires key in todo && key in entity
    ensures NeedEntries(entity, todo) == NeedEntry(key, entity[key]) + NeedEntries(entity, todo - {key})
  {
    SumWithout(todo, NeedOf(entity), key);
  }

  // ----- allocating -----

  class Memory<S(!new)> {
    const allocator: Allocator<S>
    ghost const room: (S, nat) -> nat
    var state: S
    var data: seq<byte>
    /** How often the allocator has refused a block. */
    ghost var refusals: nat

    ghost predicate Valid()
      reads this
    {
      Lawful(allocator) && Roomy(allocator, room) && Inside(allocator.owned(state), data)
    }

    ghost function Room(): nat
      reads this
    {
      room(state, |data|)
    }

    ghost function Now(): View
      reads this
    {
      View(data, allocator.owned(state))
    }

    constructor (allocator: Allocator<S>, state: S, data: seq<byte>, ghost room: (S, nat) -> nat)
      requires Lawful(allocator) && Roomy(allocator, room) && Inside(allocator.owned(state), data)
      ensures Valid() && Now() == View(data, allocator.owned(state))
      ensures this.allocator == allocator && Room() == room(state, |data|)
    {
      this.allocator, this.state, this.data := allocator, state, data;
      this.room, this.refusals := room, 0;
    }

    /** One object: its block is new, and holds its bytes. */
    method AllocObj(bytes: seq<byte>) returns (r: Result<nat>)
      requires Valid()
      modifies this
      ensures Valid() && Grows(old(Now()), Now())
      ensures FailsRefused(old(refusals), r.Ok?, refusals) && Spent(old(Room()), |bytes| + 4, r.Ok?, Room())
      ensures r.Err? <==> old(allocator.next(state, data, |bytes|)).Refused?
      ensures r.Ok? ==> Block(Now(), r.value, bytes)
      ensures r.Ok? ==> forall i :: r.value - 4 <= i < r.value + |bytes| ==> i !in old(Now()).live
    {
      var n := |bytes|;
      ghost var before := Now();
      var g := allocator.next(state, data, n);
      assert LawfulGrant(allocator, state, data, n, g);
      if g.Refused? {
        refusals := refusals + 1;
        return Err;
      }
      var p := g.ptr;
      state := g.state;
      data := g.memory[..p] + bytes + g.memory[p + n..];
      Written(before, View(g.memory, allocator.owned(state)), p, bytes);
      r := Ok(p);
    }

    method AllocWords(ws: seq<nat>) returns (r: Result<nat>)
      requires Valid() && forall k :: 0 <= k < |ws| ==> ws[k] < W32
      modifies this
      ensures Valid() && Grows(old(Now()), Now())
      ensures FailsRefused(old(refusals), r.Ok?, refusals) && Spent(old(Room()), 4 * |ws| + 4, r.Ok?, Room())
      ensures r.Ok? ==> WordBlock(Now(), r.value, ws)
    {
      r := AllocObj(Words(ws));
      if r.Ok? {
        WordsSpell(ws);
        BlockWords(Now(), r.value, ws, Words(ws));
      }
    }

    method AllocText(s: Text) returns (r: Result<nat>)
      requires Valid()
      modifies this
      ensures Valid() && Grows(old(Now()), Now())
      ensures FailsRefused(old(refusals), r.Ok?, refusals) && Spent(old(Room()), NeedText(s), r.Ok?, Room())
      ensures r.Ok? ==> TextRep(Now(), r.value, s)
    {
      r := AllocObj(TextBytes(s));
    }

    /** A typed array: the buffer first, then the object that points to it. */
    method AllocBytes(bytes: seq<byte>) returns (r: Result<nat>)
      requires Valid()
      modifies this
      ensures Valid() && Grows(old(Now()), Now())
      ensures FailsRefused(old(refusals), r.Ok?, refusals) && Spent(old(Room()), NeedBytes(bytes), r.Ok?, Room())
      ensures r.Ok? ==> BytesRep(Now(), r.value, bytes)
    {
      ghost var v0 := Now();
      var buffer := AllocObj(bytes);
      if buffer.Err? { return Err; }
      ghost var v1 := Now();
      var buf := buffer.value;
      r := AllocWords([buf, buf, |bytes|]);
      GrowsTrans(v0, v1, Now());
      if r.Ok? { BlockKept(v1, Now(), buf, bytes); }
    }

    method AllocBigInt(n: int) returns (r: Result<nat>)
      requires Valid()
      modifies this
      ensures Valid() && Grows(old(Now()), Now())
      ensures FailsRefused(old(refusals), r.Ok?, refusals) && Spent(old(Room()), NeedBigInt(n), r.Ok?, Room())
      ensures r.Ok? ==> BigIntRep(Now(), r.value, n)
    {
      r := AllocBytes(SignedBytes(n));
    }

    method AllocDecimal(digits: int, exp: int) returns (r: Result<nat>)
      requires Valid()
      modifies this
      ensures Valid() && Grows(old(Now()), Now())
      ensures FailsRefused(old(refusals), r.Ok?, refusals)
      ensures Spent(old(Room()), NeedDecimal(digits, exp), r.Ok?, Room())
      ensures r.Ok? ==> DecimalRep(Now(), r.value, digits, exp)
    {
      ghost var v0 := Now();
      var d := AllocBigInt(digits);
      if d.Err? { return Err; }
      ghost var v1 := Now();
      var e := AllocBigInt(exp);
      ghost var v2 := Now();
      GrowsTrans(v0, v1, v2);
      if e.Err? { return Err; }
      BytesPlace(v1, d.value, SignedBytes(digits));
      BytesPlace(v2, e.value, SignedBytes(exp));
      r := AllocWords([d.value, e.value]);
      ghost var v3 := Now();
      GrowsTrans(v0, v2, v3);
      GrowsTrans(v1, v2, v3);
      if r.Ok? {
        BytesKept(v1, v3, d.value, SignedBytes(digits));
        BytesKept(v2, v3, e.value, SignedBytes(exp));
      }
    }

    method AllocArray(ptrs: seq<nat>) returns (r: Result<nat>)
      requires Valid() && forall k :: 0 <= k < |ptrs| ==> ptrs[k] < W31
      modifies this
      ensures Valid() && Grows(old(Now()), Now())
      ensures FailsRefused(old(refusals), r.Ok?, refusals) && Spent(old(Room()), NeedArray(|ptrs|), r.Ok?, Room())
      ensures r.Ok? ==> ArrayRep(Now(), r.value, ptrs)
    {
      ghost var v0 := Now();
      var buffer := AllocWords(ptrs);
      if buffer.Err? { return Err; }
      ghost var v1 := Now();
      var buf := buffer.value;
      r := AllocWords([buf, buf, 4 * |ptrs|, |ptrs|]);
      GrowsTrans(v0, v1, Now());
      if r.Ok? { WordBlockKept(v1, Now(), buf, ptrs); }
    }

    /** A payload that is a pointer to what was allocated before, or the value itself. */
    method AllocPayload(x: StoreValue) returns (r: Result<nat>)
      requires Valid()
      modifies this
      ensures Valid() && Grows(old(Now()), Now())
      ensures FailsRefused(old(refusals), r.Ok?, refusals) && Spent(old(Room()), NeedPayload(x), r.Ok?, Room())
      ensures r.Ok? ==> r.value < W32 * W32 && PayloadRep(Now(), r.value, x)
      decreases x, 0
    {
      match x {
        case String(s) => r := AllocText(s);
        case Int(n) => r := Ok(n % W32);
        case Decimal(digits, exp) => r := AllocDecimal(digits, exp);
        case Bool(on) => r := Ok(if on then 1 else 0);
        case Array(xs) => r := AllocItems(xs);
        case Null => r := Ok(0);
        case Raw(bytes) => r := AllocBytes(bytes);
        case BigInt(n) => r := AllocBigInt(n);
        case Int8(n) => r := Ok(n % (W32 * W32));
        case Timestamp(n) => r := Ok(n % (W32 * W32));
      }
    }

    method AllocItems(xs: seq<StoreValue>) returns (r: Result<nat>)
      requires Valid()
      modifies this
      ensures Valid() && Grows(old(Now()), Now())
      ensures FailsRefused(old(refusals), r.Ok?, refusals)
      ensures Spent(old(Room()), NeedItems(xs) + NeedArray(|xs|), r.Ok?, Room())
      ensures r.Ok? ==> r.value < W31 && PayloadRep(Now(), r.value, Array(xs))
      decreases xs, 2
    {
      ghost var v0 := Now();
      var ptrs: seq<nat> := [];
      for i := 0 to |xs|
        invariant Valid() && Grows(v0, Now()) && |ptrs| == i && refusals == old(refusals)
        invariant forall k :: 0 <= k < i ==> ValueRep(Now(), ptrs[k], xs[k])
        invariant NeedItems(xs) <= old(Room()) ==> old(Room()) + NeedItems(xs[i..]) <= Room() + NeedItems(xs)
      {
        assert xs[i..][0] == xs[i] && xs[i..][1..] == xs[i + 1..];
        ghost var v1 := Now();
        var ptr := AllocValue(xs[i]);
        ghost var v2 := Now();
        GrowsTrans(v0, v1, v2);
        if ptr.Err? { return Err; }
        forall k | 0 <= k < i ensures ValueRep(v2, ptrs[k], xs[k]) { ValueKept(v1, v2, ptrs[k], xs[k]); }
        ptrs := ptrs + [ptr.value];
      }
      ghost var v3 := Now();
      forall k | 0 <= k < |xs| ensures ptrs[k] < W31 { ValuePlace(v3, ptrs[k], xs[k]); }
      r := AllocArray(ptrs);
      ghost var v4 := Now();
      GrowsTrans(v0, v3, v4);
      if r.Ok? {
        forall k | 0 <= k < |xs| ensures ValueRep(v4, ptrs[k], xs[k]) { ValueKept(v3, v4, ptrs[k], xs[k]); }
        assert ItemsRep(v4, r.value, ptrs, xs);
      }
    }

    /** A store value, and all it refers to. */
    method AllocValue(x: StoreValue) returns (r: Result<nat>)
      requires Valid()
      modifies this
      ensures Valid() && Grows(old(Now()), Now())
      ensures FailsRefused(old(refusals), r.Ok?, refusals) && Spent(old(Room()), NeedValue(x), r.Ok?, Room())
      ensures r.Ok? ==> ValueRep(Now(), r.value, x)
      decreases x, 1
    {
      ghost var v0 := Now();
      var payload := AllocPayload(x);
      if payload.Err? { return Err; }
      ghost var v1 := Now();
      var q := payload.value;
      r := AllocWords([KindOf(x), 0, q % W32, q / W32]);
      ghost var v2 := Now();
      GrowsTrans(v0, v1, v2);
      if r.Ok? {
        if x.Array? {
          ghost var ps: seq<nat> :| ItemsRep(v1, q, ps, x.values);
          ItemsKept(v1, v2, q, ps, x.values);
        } else {
          PayloadKept(v1, v2, q, x);
        }
        assert Header(v2, r.value, KindOf(x), q) && PayloadRep(v2, q, x);
      }
    }

    method AllocEntry(key: Text, x: StoreValue) returns (r: Result<nat>)
      requires Valid()
      modifies this
      ensures Valid() && Grows(old(Now()), Now())
      ensures FailsRefused(old(refusals), r.Ok?, refusals) && Spent(old(Room()), NeedEntry(key, x), r.Ok?, Room())
      ensures r.Ok? ==> EntryRep(Now(), r.value, key, x)
    {
      ghost var v0 := Now();
      var k := AllocText(key);
      if k.Err? { return Err; }
      ghost var v1 := Now();
      var value := AllocValue(x);
      ghost var v2 := Now();
      GrowsTrans(v0, v1, v2);
      if value.Err? { return Err; }
      ValuePlace(v2, value.value, x);
      r := AllocWords([k.value, value.value]);
      ghost var v3 := Now();
      GrowsTrans(v0, v2, v3);
      GrowsTrans(v1, v2, v3);
      if r.Ok? {
        BlockKept(v1, v3, k.value, TextBytes(key));
        ValueKept(v2, v3, value.value, x);
      }
    }

    /** The entries of a map, in some order of the keys. */
    method AllocEntries(entity: EntityData) returns (r: Result<seq<nat>>, ghost pairs: seq<(Text, StoreValue)>)
      requires Valid()
      modifies this
      ensures Valid() && Grows(old(Now()), Now())
      ensures FailsRefused(old(refusals), r.Ok?, refusals)
      ensures Spent(old(Room()), NeedEntries(entity, entity.Keys), r.Ok?, Room())
      ensures r.Ok? ==> EntriesRep(Now(), r.value, pairs) && Lists(pairs, entity, {}) && |r.value| == |entity|
    {
      ghost var v0 := Now();
      var ptrs: seq<nat> := [];
      pairs := [];
      var todo := entity.Keys;
      ghost var all, left := NeedEntries(entity, todo), NeedEntries(entity, todo);
      while todo != {}
        invariant Valid() && Grows(v0, Now()) && todo <= entity.Keys && refusals == old(refusals)
        invariant EntriesRep(Now(), ptrs, pairs) && Lists(pairs, entity, todo) && |ptrs| + |todo| == |entity|
        invariant left == NeedEntries(entity, todo) && (all <= old(Room()) ==> old(Room()) + left <= Room() + all)
        decreases |todo|
      {
        var key :| key in todo;
        NeedNext(entity, todo, key);
        ghost var v1 := Now();
        var ptr := AllocEntry(key, entity[key]);
        GrowsTrans(v0, v1, Now());
        if ptr.Err? { return Err, pairs; }
        EntriesNext(v1, Now(), ptrs, pairs, ptr.value, key, entity[key]);
        ptrs := ptrs + [ptr.value];
        ListsNext(pairs, entity, todo, key);
        pairs, todo := pairs + [(key, entity[key])], todo - {key};
        left := NeedEntries(entity, todo);
      }
      r := Ok(ptrs);
    }

    /** A whole entity: the entries, then the array, then the map object.  What is returned reads back as
        the same entity, and everything handed out before is as it was. */
    method AllocEntity(entity: EntityData) returns (r: Result<nat>, ghost shape: Shape)
      requires Valid()
      modifies this
      ensures Valid() && Grows(old(Now()), Now())
      ensures FailsRefused(old(refusals), r.Ok?, refusals) && Spent(old(Room()), NeedEntity(entity), r.Ok?, Room())
      ensures r.Ok? ==> EntityRep(Now(), r.value, shape) && MapOf(shape.pairs) == entity
      ensures r.Ok? ==> forall depth: nat :: Within(entity, depth) ==> ReadEntity(data, r.value, depth) == Ok(entity)
    {
      ghost var v0 := Now();
      var ptrs;
      ghost var pairs;
      ptrs, pairs := AllocEntries(entity);
      shape := Shape(0, [], pairs);
      if ptrs.Err? { return Err, shape; }
      ghost var v1 := Now();
      EntriesPlace(v1, ptrs.value, pairs);
      var entries := AllocArray(ptrs.value);
      ghost var v2 := Now();
      GrowsTrans(v0, v1, v2);
      if entries.Err? { return Err, shape; }
      r := AllocWords([entries.value]);
      ghost var v3 := Now();
      GrowsTrans(v0, v2, v3);
      if r.Ok? {
        GrowsTrans(v1, v2, v3);
        shape := Shape(entries.value, ptrs.value, pairs);
        EntityMade(v1, v2, v3, r.value, shape);
        AllRead(v3, r.value, shape, entity);
      }
    }
  }

  /** On a bump allocator that has room for it, an entity is always allocated, and reads back. */
  method AllocOnBump(entity: EntityData, top: nat, data: seq<byte>) returns (memory: seq<byte>, p: nat)
    requires top <= |data| && top + NeedEntity(entity) < W31
    ensures forall depth: nat :: Within(entity, depth) ==> ReadEntity(memory, p, depth) == Ok(entity)
  {
    BumpIsLawful();
    BumpIsRoomy();
    var m := new Memory(Allocator(BumpNext, Below), top, data, BumpRoom);
    var r;
    ghost var shape;
    r, shape := m.AllocEntity(entity);
    memory, p := m.data, r.value;
  }

  /** `pairs` lists the map without the keys still to do. */
  ghost predicate Lists(pairs: seq<(Text, StoreValue)>, entity: EntityData, todo: set<Text>) {
    && MapOf(pairs) == (map k | k in entity && k !in todo :: entity[k])
    && forall i :: 0 <= i < |pairs| ==> pairs[i].0 in entity && pairs[i].1 == entity[pairs[i].0]
  }

  lemma ListsNext(pairs: seq<(Text, StoreValue)>, entity: EntityData, todo: set<Text>, key: Text)
    requires Lists(pairs, entity, todo) && key in todo && key in entity
    ensures Lists(pairs + [(key, entity[key])], entity, todo - {key})
  {
    assert (pairs + [(key, entity[key])])[..|pairs|] == pairs;
  }

  ghost predicate Within(entity: EntityData, depth: nat) {
    forall k :: k in entity ==> Depth(entity[k]) <= depth
  }

  lemma EntityMade(v1: View, v2: View, v3: View, p: nat, e: Shape)
    requires EntriesRep(v1, e.entries, e.pairs) && ArrayRep(v2, e.index, e.entries) && WordBlock(v3, p, [e.index])
    requires Grows(v1, v3) && Grows(v2, v3)
    ensures EntityRep(v3, p, e)
  {
    ArrayKept(v2, v3, e.index, e.entries);
    EntriesKept(v1, v3, e.entries, e.pairs);
  }

  lemma AllRead(v: View, p: nat, e: Shape, entity: EntityData)
    requires EntityRep(v, p, e) && Lists(e.pairs, entity, {})
    ensures MapOf(e.pairs) == entity
    ensures forall depth: nat :: Within(entity, depth) ==> ReadEntity(v.data, p, depth) == Ok(entity)
  {
    assert MapOf(e.pairs) == entity;
    forall depth: nat | Within(entity, depth) ensures ReadEntity(v.data, p, depth) == Ok(entity) {
      EntityRead(v, p, e, depth);
    }
  }

  lemma EntriesPlace(v: View, ps: seq<nat>, pairs: seq<(Text, StoreValue)>)
    requires EntriesRep(v, ps, pairs)
    ensures forall k :: 0 <= k < |ps| ==> ps[k] < W31
  {
    forall k | 0 <= k < |ps| ensures ps[k] < W31 { assert EntryRep(v, ps[k], pairs[k].0, pairs[k].1); }
  }

  /** Writing into a granted block. */
  lemma Written(v: View, granted: View, p: nat, bytes: seq<byte>)
    requires 4 <= p && p + |bytes| < W31 && p + |bytes| <= |granted.data| && ReadU32(granted.data, p - 4) == Ok(|bytes|)
    requires Grows(v, granted)
    requires forall i :: p - 4 <= i < p + |bytes| ==> i in granted.live && i !in v.live
    ensures var w := View(granted.data[..p] + bytes + granted.data[p + |bytes|..], granted.live);
            |w.data| == |granted.data| && Grows(v, w) && Block(w, p, bytes)
  {
    var data := granted.data[..p] + bytes + granted.data[p + |bytes|..];
    assert data[p - 4..p] == granted.data[p - 4..p];
  }
}
