/** The shared feed: one chain reader fetches the logs of all subscriptions into tables, and indexers read
    them from there.  A subscription is filled up to its cursor. */
module Feed {
  import opened ChainModel
  import opened Scan

  datatype SubKey = SubKey(deployment: nat, source: nat, dynamic: bool, address: nat, from: nat)

  datatype Sub = Sub(topics: set<nat>, cursor: Option<nat>, hash: Option<nat>)

  type Subs = map<SubKey, Sub>

  /** Raw logs by position. */
  type Logs = map<Pos, RawLog>

  predicate Wants(k: SubKey, topics: set<nat>, l: RawLog) {
    l.address == k.address && l.topic in topics && k.from <= l.pos.block
  }

  /** The log is in a part of the chain that a subscription has been filled with. */
  predicate CoveredBy(subs: Subs, k: SubKey, l: RawLog) {
    k in subs && Wants(k, subs[k].topics, l) && subs[k].cursor.Some? && l.pos.block <= subs[k].cursor.value
  }

  ghost predicate Covered(subs: Subs, l: RawLog) {
    exists k :: CoveredBy(subs, k, l)
  }

  ghost predicate Stored(logs: Logs, l: RawLog) {
    l.pos in logs && logs[l.pos] == l
  }

  /** The feed holds a log exactly when it is on the chain and some subscription has been filled past it. */
  ghost predicate Good(chain: seq<RawLog>, subs: Subs, logs: Logs) {
    && (forall p :: p in logs ==> logs[p].pos == p)
    && forall l :: Stored(logs, l) <==> l in chain && Covered(subs, l)
  }

  // ----- positions -----

  lemma OnePerPos(chain: seq<RawLog>, a: RawLog, b: RawLog)
    requires Ordered(chain) && a in chain && b in chain && a.pos == b.pos
    ensures a == b
  {
    forall i, j | 0 <= i < j < |chain|
      ensures chain[i].pos != chain[j].pos
    {
      assert Before(chain[i].pos, chain[j].pos);
    }
    var i, j :| 0 <= i < |chain| && 0 <= j < |chain| && chain[i] == a && chain[j] == b;
  }

  lemma {:induction false} AnswerMember(logs: seq<RawLog>, address: nat, topics: set<nat>, l: RawLog)
    ensures l in Select(logs, address, topics) <==> l in logs && l.address == address && l.topic in topics
  {
    if logs != [] { AnswerMember(logs[1..], address, topics, l); }
  }

  lemma Answered(chain: seq<RawLog>, address: nat, topics: set<nat>, from: nat, to: nat, l: RawLog)
    ensures l in Answer(chain, address, topics, from, to)
       <==> l in chain && from <= l.pos.block <= to && l.address == address && l.topic in topics
  {
    AnswerMember(LogsIn(chain, from, to), address, topics, l);
    LogsInMember(chain, from, to, l);
  }

  lemma {:induction false} SelectOrdered(logs: seq<RawLog>, address: nat, topics: set<nat>)
    requires Ordered(logs)
    ensures Ordered(Select(logs, address, topics))
  {
    if logs != [] {
      SelectOrdered(logs[1..], address, topics);
      var rest := Select(logs[1..], address, topics);
      forall j | 0 <= j < |rest| ensures Before(logs[0].pos, rest[j].pos) {
        AnswerMember(logs[1..], address, topics, rest[j]);
        var k :| 0 <= k < |logs[1..]| && logs[1..][k] == rest[j];
        assert logs[k + 1] == rest[j];
      }
    }
  }

  /** Two sequences in order with the same logs are the same. */
  lemma {:induction false} OrderedSame(a: seq<RawLog>, b: seq<RawLog>)
    requires Ordered(a) && Ordered(b) && forall l :: l in a <==> l in b
    ensures a == b
  {
    assert a != [] ==> a[0] in b;
    assert b != [] ==> b[0] in a;
    if a != [] {
      FirstSame(a, b);
      var a1, b1 := a[1..], b[1..];
      forall l ensures l in a1 <==> l in b1 {
        TailMember(a, l);
        TailMember(b, l);
      }
      OrderedSame(a1, b1);
      assert a == [a[0]] + a1 && b == [b[0]] + b1;
    }
  }

  lemma TailMember(a: seq<RawLog>, l: RawLog)
    requires Ordered(a) && a != []
    ensures l in a[1..] <==> l in a && l != a[0]
  {
    assert a == [a[0]] + a[1..];
    forall k | 0 <= k < |a[1..]| ensures a[1..][k] != a[0] { assert Before(a[0].pos, a[k + 1].pos); }
  }

  lemma FirstSame(a: seq<RawLog>, b: seq<RawLog>)
    requires Ordered(a) && Ordered(b) && a != [] && b != [] && forall l :: l in a <==> l in b
    ensures a[0] == b[0]
  {
    assert a[0] in b && b[0] in a;
    var i :| 0 <= i < |b| && b[i] == a[0];
    var j :| 0 <= j < |a| && a[j] == b[0];
    assert i > 0 ==> Before(b[0].pos, b[i].pos);
    assert j > 0 ==> Before(a[0].pos, a[j].pos);
  }

  // ----- writing -----

  /** What rows are inserted: a position that is taken stays as it is. */
  function Inserted(logs: Logs, rows: seq<RawLog>): Logs {
    if rows == [] then logs
    else
      var before, l := Inserted(logs, rows[..|rows| - 1]), rows[|rows| - 1];
      if l.pos in before then before else before[l.pos := l]
  }

  lemma {:induction false} InsertedPlaced(chain: seq<RawLog>, logs: Logs, rows: seq<RawLog>)
    requires forall r :: r in rows ==> r in chain
    requires forall p :: p in logs ==> logs[p].pos == p && logs[p] in chain
    ensures forall p :: p in Inserted(logs, rows) ==>
              Inserted(logs, rows)[p].pos == p && Inserted(logs, rows)[p] in chain
  {
    if rows != [] {
      var n := |rows| - 1;
      assert rows == rows[..n] + [rows[n]];
      InsertedPlaced(chain, logs, rows[..n]);
    }
  }

  /** Inserting chain logs into a table of chain logs adds exactly them. */
  lemma {:induction false} InsertedStored(chain: seq<RawLog>, logs: Logs, rows: seq<RawLog>, l: RawLog)
    requires Ordered(chain) && forall r :: r in rows ==> r in chain
    requires forall p :: p in logs ==> logs[p].pos == p && logs[p] in chain
    ensures Stored(Inserted(logs, rows), l) <==> Stored(logs, l) || l in rows
  {
    if rows != [] {
      var n := |rows| - 1;
      var init, last := rows[..n], rows[n];
      assert rows == init + [last];
      InsertedStored(chain, logs, init, l);
      InsertedPlaced(chain, logs, init);
      var before := Inserted(logs, init);
      if last.pos in before { OnePerPos(chain, before[last.pos], last); }
    }
  }

  // ----- what happens to a feed -----

  /** The chain, and what the feed holds of it. */
  datatype World = World(chain: seq<RawLog>, subs: Subs, logs: Logs, blocks: map<nat, Option<nat>>)

  /** A source registers; a subscription is filled up to a block, from its cursor or from where the reader was told
      to start; the chain grows, or changes and the feed is
      rolled back to a block. */
  datatype Event = Registers(k: SubKey, topics: set<nat>)
                 | Fills(k: SubKey, from: Option<nat>, to: nat, hash: Option<nat>)
                 | Moves(chain: seq<RawLog>)
                 | Reorganizes(chain: seq<RawLog>, block: nat)

  function Registered(subs: Subs, k: SubKey, topics: set<nat>): Subs {
    if topics == {} then subs
    else subs[k := if k in subs then subs[k].(topics := topics) else Sub(topics, None, None)]
  }

  function FilledWorld(w: World, k: SubKey, from: Option<nat>, to: nat, hash: Option<nat>): World {
    if k !in w.subs || FirstBlock(k, w.subs[k], from) > to || to >= I64_LIMIT then w
    else
      World(w.chain, w.subs[k := Sub(w.subs[k].topics, Some(to), hash)],
            Inserted(w.logs, Answer(w.chain, k.address, w.subs[k].topics, FirstBlock(k, w.subs[k], from), to)),
            w.blocks[to := hash])
  }

  function RolledBlocks(blocks: map<nat, Option<nat>>, b: nat): map<nat, Option<nat>> {
    map n | n in blocks && n < b :: blocks[n]
  }

  function Play(w: World, e: Event): World {
    match e
    case Registers(k, topics) => w.(subs := Registered(w.subs, k, topics))
    case Fills(k, from, to, hash) => FilledWorld(w, k, from, to, hash)
    case Moves(chain) => w.(chain := chain)
    case Reorganizes(chain, b) =>
      World(chain, RolledSubs(w.subs, w.blocks, b), RolledLogs(w.logs, b), RolledBlocks(w.blocks, b))
  }

  function PlayAll(w: World, events: seq<Event>): World {
    if events == [] then w else Play(PlayAll(w, events[..|events| - 1]), events[|events| - 1])
  }

  lemma {:induction false} PlayMore(w: World, a: seq<Event>, e: Event)
    ensures PlayAll(w, a + [e]) == Play(PlayAll(w, a), e)
  {
    assert (a + [e])[..|a|] == a;
  }

  lemma {:induction false} PlayOn(w: World, a: seq<Event>, b: seq<Event>)
    ensures PlayAll(PlayAll(w, a), b) == PlayAll(w, a + b)
    decreases |b|
  {
    if b == [] {
      assert a + b == a;
    } else {
      var n := |b| - 1;
      assert b == b[..n] + [b[n]] && a + b == (a + b[..n]) + [b[n]];
      PlayOn(w, a, b[..n]);
      PlayMore(w, a + b[..n], b[n]);
    }
  }

  /** What a reader pass plays: the chain it reads, with a rollback if it made one, and fills up to one block, with
      the hash that the RPC has for it. */
  ghost predicate PassEvents(events: seq<Event>, chain: seq<RawLog>, rolled: Option<nat>, from: Option<nat>, to: nat,
                             answer: Result<Option<nat>>)
  {
    && events != [] && events[0] == (if rolled.Some? then Reorganizes(chain, rolled.value) else Moves(chain))
    && forall i :: 0 < i < |events| ==>
         events[i].Fills? && events[i].from == from && events[i].to == to && answer == Ok(events[i].hash)
  }

  /** After those events, fills up to a block have led to this world. */
  ghost predicate Filling(start: World, events: seq<Event>, fills: seq<Event>, from: Option<nat>, to: nat,
                          hash: Option<nat>, now: World)
  {
    && (forall i :: 0 <= i < |fills| ==>
          fills[i].Fills? && fills[i].from == from && fills[i].to == to && fills[i].hash == hash)
    && now == PlayAll(start, events + fills)
  }

  /** All events of the passes, one after the other. */
  function Flat(passes: seq<seq<Event>>): seq<Event> {
    if passes == [] then [] else Flat(passes[..|passes| - 1]) + passes[|passes| - 1]
  }

  /** Each pass plays what it should from where the passes before it have led: it reads its own chain, rolls back to
      the least block whose hash has changed, and fills up to its own block. */
  ghost predicate LoopEvents(w: World, passes: seq<seq<Event>>, chains: seq<seq<RawLog>>, listed: seq<SubKey>,
                             from: Option<nat>, tos: seq<nat>, hashes: seq<nat -> Result<Option<nat>>>)
    requires |passes| <= |chains| == |tos| == |hashes|
  {
    passes == []
    || var n := |passes| - 1;
       && LoopEvents(w, passes[..n], chains, listed, from, tos, hashes)
       && PassEvents(passes[n], chains[n],
                     Detected(PlayAll(w, Flat(passes[..n])).subs, listed, tos[n], hashes[n]), from, tos[n],
                     hashes[n](tos[n]))
  }

  lemma NextPass(w: World, passes: seq<seq<Event>>, more: seq<Event>, chains: seq<seq<RawLog>>, listed: seq<SubKey>,
                 from: Option<nat>, tos: seq<nat>, hashes: seq<nat -> Result<Option<nat>>>)
    requires |passes| < |chains| == |tos| == |hashes| && LoopEvents(w, passes, chains, listed, from, tos, hashes)
    requires var n := |passes|;
             PassEvents(more, chains[n], Detected(PlayAll(w, Flat(passes)).subs, listed, tos[n], hashes[n]), from,
                        tos[n], hashes[n](tos[n]))
    ensures LoopEvents(w, passes + [more], chains, listed, from, tos, hashes)
    ensures PlayAll(w, Flat(passes + [more])) == PlayAll(PlayAll(w, Flat(passes)), more)
  {
    assert (passes + [more])[..|passes|] == passes;
    PlayOn(w, Flat(passes), more);
  }

  lemma FillingNext(start: World, events: seq<Event>, fills: seq<Event>, before: World, after: World, e: Event)
    returns (more: seq<Event>)
    requires e.Fills? && Filling(start, events, fills, e.from, e.to, e.hash, before)
    requires after == before || after == Play(before, e)
    ensures Filling(start, events, more, e.from, e.to, e.hash, after)
  {
    more := fills;
    if after != before {
      more := fills + [e];
      PlayMore(start, events + fills, e);
      assert (events + fills) + [e] == events + more;
    }
  }

  lemma PlayFill(w: World, v: World, k: SubKey, from: Option<nat>, to: nat, hash: Option<nat>)
    requires k in w.subs && FirstBlock(k, w.subs[k], from) <= to < I64_LIMIT && v.chain == w.chain
    requires v.subs == w.subs[k := Sub(w.subs[k].topics, Some(to), hash)] && v.blocks == w.blocks[to := hash]
    requires v.logs
          == Inserted(w.logs, Answer(w.chain, k.address, w.subs[k].topics, FirstBlock(k, w.subs[k], from), to))
    ensures v == Play(w, Fills(k, from, to, hash))
  {
  }

  class FeedStore {
    var subs: Subs
    var logs: Logs
    var blocks: map<nat, Option<nat>>

    constructor ()
      ensures subs == map[] && logs == map[] && blocks == map[]
    {
      subs, logs, blocks := map[], map[], map[];
    }

    /** Registering keeps the cursor and replaces the topics; a source without topics is not registered. */
    method Register(k: SubKey, topics: set<nat>) returns (done: bool)
      modifies this`subs
      ensures done <==> topics != {}
      ensures subs == if !done then old(subs)
                      else if k in old(subs) then old(subs)[k := old(subs)[k].(topics := topics)]
                      else old(subs)[k := Sub(topics, None, None)]
      ensures forall chain ::
                World(chain, subs, logs, blocks) == Play(old(World(chain, subs, logs, blocks)), Registers(k, topics))
    {
      if topics == {} { return false; }
      subs := subs[k := if k in subs then subs[k].(topics := topics) else Sub(topics, None, None)];
      done := true;
    }

    /** One transaction: the logs, the block's hash, and the cursor.  A block that the column cannot hold
        leaves everything as it was. */
    method WriteLogs(k: SubKey, rows: seq<RawLog>, to: nat, hash: Option<nat>) returns (ok: bool)
      modifies this
      ensures ok <==> to < I64_LIMIT
      ensures logs == if ok then Inserted(old(logs), rows) else old(logs)
      ensures blocks == if ok then old(blocks)[to := hash] else old(blocks)
      ensures subs == if ok && k in old(subs) then old(subs)[k := Sub(old(subs)[k].topics, Some(to), hash)]
                      else old(subs)
    {
      var draft := logs;
      for i := 0 to |rows|
        invariant draft == Inserted(old(logs), rows[..i]) && logs == old(logs)
        invariant subs == old(subs) && blocks == old(blocks)
      {
        assert rows[..i + 1][..i] == rows[..i];
        if rows[i].pos !in draft { draft := draft[rows[i].pos := rows[i]]; }
      }
      assert rows[..|rows|] == rows;
      if to >= I64_LIMIT { return false; }
      logs := draft;
      blocks := blocks[to := hash];
      if k in subs { subs := subs[k := Sub(subs[k].topics, Some(to), hash)]; }
      ok := true;
    }

    /** Drops everything from block `b` on and moves the cursors that are there back to the block before,
        with the hash that is stored for it. */
    method RollbackChain(b: nat)
      modifies this
      ensures subs == RolledSubs(old(subs), old(blocks), b) && logs == RolledLogs(old(logs), b)
      ensures blocks == RolledBlocks(old(blocks), b)
    {
      subs := RolledSubs(subs, blocks, b);
      logs := RolledLogs(logs, b);
      blocks := map n | n in blocks && n < b :: blocks[n];
    }

    /** The feed, and the chain it is read from. */
    ghost function WorldOn(chain: seq<RawLog>): World
      reads this
    {
      World(chain, subs, logs, blocks)
    }

    /** Fills one subscription: from the block after its cursor, or from its start (or from where the
        reader was told to start), to block `to`. */
    method FillOne(rpc: Rpc, k: SubKey, from: Option<nat>, to: nat, hash: Option<nat>, maxRange: nat, retries: nat)
      returns (ok: bool)
      requires Ordered(rpc.chain) && to <= U64_MAX && maxRange <= U64_MAX && (from.Some? ==> from.value <= U64_MAX)
      requires k in subs && k.from <= U64_MAX && CursorsFit(subs)
      modifies this, rpc
      ensures SameBut(subs, old(subs), k) && CursorsFit(subs)
      ensures ok ==> Filled(k, subs[k], to, from)
      ensures rpc.calls >= old(rpc.calls)
      ensures !ok ==> to >= I64_LIMIT || Refused(rpc.outcome, old(rpc.calls), rpc.calls, retries)
      ensures || WorldOn(rpc.chain) == old(WorldOn(rpc.chain))
              || WorldOn(rpc.chain) == Play(old(WorldOn(rpc.chain)), Fills(k, from, to, hash))
    {
      var sub := subs[k];
      var next := if sub.cursor.Some? then SaturatingAdd(sub.cursor.value, 1)
                  else if from.Some? then from.value else k.from;
      if next < k.from { next := k.from; }
      if next > to { return true; }
      var rows := rpc.Chunked(k.address, sub.topics, next, to, maxRange, retries);
      if rows.Err? { return false; }
      ghost var before := WorldOn(rpc.chain);
      ok := WriteLogs(k, rows.value, to, hash);
      if ok { PlayFill(before, WorldOn(rpc.chain), k, from, to, hash); }
    }

    /** The rollback of a pass, if it makes one. */
    method Reorganize(rolled: Option<nat>, ghost was: seq<RawLog>, ghost chain: seq<RawLog>)
      returns (ghost events: seq<Event>)
      requires CursorsFit(subs)
      modifies this
      ensures events == [if rolled.Some? then Reorganizes(chain, rolled.value) else Moves(chain)]
      ensures WorldOn(chain) == PlayAll(old(WorldOn(was)), events)
      ensures subs == After(old(subs), old(blocks), rolled)
      ensures SameTopics(subs, old(subs)) && CursorsFit(subs)
    {
      events := [if rolled.Some? then Reorganizes(chain, rolled.value) else Moves(chain)];
      PlayMore(WorldOn(was), [], events[0]);
      if rolled.Some? {
        RolledFit(subs, blocks, rolled.value);
        RollbackChain(rolled.value);
      }
    }

    /** One pass of the chain reader: a rollback if a cursor's hash no longer matches, then every listed
        subscription is filled to block `to`.  A request that fails ends the pass; what was filled stays.
        `was` is the chain that the feed was read from before. */
    method ReaderPass(rpc: Rpc, listed: seq<SubKey>, from: Option<nat>, to: nat, maxRange: nat, retries: nat,
                      hashes: nat -> Result<Option<nat>>, ghost was: seq<RawLog>)
      returns (ok: bool, rolled: Option<nat>, ghost events: seq<Event>)
      requires Ordered(rpc.chain) && to <= U64_MAX && maxRange <= U64_MAX && (from.Some? ==> from.value <= U64_MAX)
      requires (forall k :: k in listed <==> k in subs)
      requires (forall k :: k in subs ==> k.from <= U64_MAX) && CursorsFit(subs)
      modifies this, rpc
      ensures PassEvents(events, rpc.chain, rolled, from, to, hashes(to))
      ensures WorldOn(rpc.chain) == PlayAll(old(WorldOn(was)), events)
      ensures from.None? && Good(rpc.chain, After(old(subs), old(blocks), rolled), AfterLogs(old(logs), rolled))
          ==> Good(rpc.chain, subs, logs)
      ensures rolled == Detected(old(subs), listed, to, hashes)
      ensures ok ==> HashesAnswer(old(subs), listed, to, hashes)
      ensures HashesAnswer(old(subs), listed, to, hashes) ==>
                ok || to >= I64_LIMIT || Refused(rpc.outcome, old(rpc.calls), rpc.calls, retries)
      ensures Undisturbed(rpc.outcome, to, hashes) ==> ok
      ensures ok ==> AllFilled(subs, listed, to, from)
      ensures SameTopics(subs, old(subs)) && CursorsFit(subs)
    {
      rolled := None;
      ok := false;
      events := [Moves(rpc.chain)];
      PlayMore(WorldOn(was), [], Moves(rpc.chain));
      HashesFirst(subs, listed, to, hashes);
      if hashes(to).Err? { return; }
      var choice := FeedReorgRollbackBlock(SubsOf(subs, listed), hashes);
      if choice.Err? { return; }
      rolled := choice.value;
      events := Reorganize(rolled, was, rpc.chain);
      ghost var fills;
      ok, fills := FillAll(rpc, listed, from, to, hashes(to).value, maxRange, retries, old(WorldOn(was)), events);
      events := events + fills;
      if from.None? { FillsGood(old(WorldOn(was)), events, rolled, rpc.chain, to, hashes(to)); }
    }

    /** The chain reader's loop: one pass after the other, whatever fails, each on the chain as it is then.  Whatever
        failed before, a last pass for which the RPC answers leaves every subscription filled. */
    method ReaderLoop(rpcs: seq<Rpc>, listed: seq<SubKey>, from: Option<nat>, tos: seq<nat>, maxRange: nat,
                      retries: nat, hashes: seq<nat -> Result<Option<nat>>>, ghost was: seq<RawLog>)
      returns (ghost passes: seq<seq<Event>>, ghost chain: seq<RawLog>)
      requires |tos| == |rpcs| == |hashes| && maxRange <= U64_MAX && (from.Some? ==> from.value <= U64_MAX)
      requires forall i :: 0 <= i < |rpcs| ==> Ordered(rpcs[i].chain) && tos[i] <= U64_MAX
      requires (forall k :: k in listed <==> k in subs)
      requires (forall k :: k in subs ==> k.from <= U64_MAX) && CursorsFit(subs)
      modifies this, set r | r in rpcs
      ensures |passes| == |rpcs| && WorldOn(chain) == PlayAll(old(WorldOn(was)), Flat(passes))
      ensures LoopEvents(old(WorldOn(was)), passes, seq(|rpcs|, i requires 0 <= i < |rpcs| => rpcs[i].chain), listed,
                         from, tos, hashes)
      ensures chain == if rpcs == [] then was else rpcs[|rpcs| - 1].chain
      ensures var n := |rpcs| - 1;
              rpcs != [] && Undisturbed(rpcs[n].outcome, tos[n], hashes[n])
              ==> AllFilled(subs, listed, tos[n], from)
      ensures SameTopics(subs, old(subs)) && CursorsFit(subs)
    {
      passes, chain := [], was;
      ghost var chains := seq(|rpcs|, i requires 0 <= i < |rpcs| => rpcs[i].chain);
      for i := 0 to |rpcs|
        invariant |passes| == i && WorldOn(chain) == PlayAll(old(WorldOn(was)), Flat(passes))
        invariant LoopEvents(old(WorldOn(was)), passes, chains, listed, from, tos, hashes)
        invariant chain == if i == 0 then was else rpcs[i - 1].chain
        invariant i > 0 && Undisturbed(rpcs[i - 1].outcome, tos[i - 1], hashes[i - 1])
                  ==> AllFilled(subs, listed, tos[i - 1], from)
        invariant SameTopics(subs, old(subs)) && CursorsFit(subs)
      {
        ghost var more;
        var ok, rolled;
        ok, rolled, more := ReaderPass(rpcs[i], listed, from, tos[i], maxRange, retries, hashes[i], chain);
        NextPass(old(WorldOn(was)), passes, more, chains, listed, from, tos, hashes);
        passes, chain := passes + [more], rpcs[i].chain;
      }
    }

    method FillAll(rpc: Rpc, listed: seq<SubKey>, from: Option<nat>, to: nat, hash: Option<nat>, maxRange: nat,
                   retries: nat, ghost start: World, ghost events: seq<Event>)
      returns (ok: bool, ghost fills: seq<Event>)
      requires Ordered(rpc.chain) && to <= U64_MAX && maxRange <= U64_MAX && (from.Some? ==> from.value <= U64_MAX)
      requires (forall k :: k in listed <==> k in subs)
      requires (forall k :: k in subs ==> k.from <= U64_MAX) && CursorsFit(subs)
      requires WorldOn(rpc.chain) == PlayAll(start, events)
      modifies this, rpc
      ensures SameTopics(subs, old(subs)) && CursorsFit(subs)
      ensures ok ==> AllFilled(subs, listed, to, from)
      ensures !ok ==> to >= I64_LIMIT || Refused(rpc.outcome, old(rpc.calls), rpc.calls, retries)
      ensures Filling(start, events, fills, from, to, hash, WorldOn(rpc.chain))
    {
      fills := [];
      assert events + [] == events;
      for i := 0 to |listed|
        invariant SameTopics(subs, old(subs)) && CursorsFit(subs)
        invariant rpc.calls >= old(rpc.calls)
        invariant AllFilled(subs, listed[..i], to, from)
        invariant Filling(start, events, fills, from, to, hash, WorldOn(rpc.chain))
      {
        ghost var before := WorldOn(rpc.chain);
        ghost var had := subs;
        ok := FillOne(rpc, listed[i], from, to, hash, maxRange, retries);
        if ok { OneMoreFilled(had, subs, listed, i, to, from); }
        fills := FillingNext(start, events, fills, before, WorldOn(rpc.chain), Fills(listed[i], from, to, hash));
        if !ok { return; }
      }
      assert listed[..|listed|] == listed;
      ok := true;
    }

    method CaughtUp(k: SubKey, hasAddress: bool, to: nat) returns (r: bool)
      ensures r <==> !hasAddress || (k in subs && subs[k].cursor.Some? && subs[k].cursor.value >= to)
    {
      r := !hasAddress || (k in subs && subs[k].cursor.Some? && subs[k].cursor.value >= to);
    }

    /** How the indexer reads a source in feed mode: it registers the source, asks whether the feed has caught
        up, and loads what is there.  When the feed has caught up, that is what a direct scan returns. */
    method ReadSource(deployment: nat, s: Source, from: Option<nat>, to: nat, ghost chain: seq<RawLog>)
      returns (pending: bool, items: seq<Item>)
      requires Ordered(chain) && Good(chain, subs, logs) && s.topics != {}
      requires var k := KeyFor(deployment, s); k in subs ==> subs[k].topics == s.topics
      modifies this`subs
      ensures Good(chain, subs, logs) && subs == Registered(old(subs), KeyFor(deployment, s), s.topics)
      ensures !pending ==> items == ScanSource(s, LogsIn(chain, if from.Some? then from.value else s.start, to))
      ensures pending <==> !ReadyFor(subs, KeyFor(deployment, s), to)
    {
      var k := KeyFor(deployment, s);
      RegisterKeeps(chain, subs, logs, k, s.topics);
      var done := Register(k, s.topics);
      var caughtUp := CaughtUp(k, true, to);
      items := LoadSource(s, from, to);
      if caughtUp { FeedIsScan(chain, subs, logs, k, s, from, to, items); }
      pending := !caughtUp;
    }

    /** The stored logs a source asks for, in position order. */
    method LoadSource(s: Source, from: Option<nat>, to: nat) returns (items: seq<Item>)
      requires forall p :: p in logs ==> logs[p].pos == p
      ensures items == ItemsOf(s, LogsOf(items)) && Ordered(LogsOf(items))
      ensures forall l :: l in LogsOf(items) <==> Stored(logs, l) && AsksFor(s, from, to, l)
    {
      var start := StartOf(s, from);
      items := [];
      if start > to { return; }
      var todo := set p | p in logs && AsksFor(s, from, to, logs[p]);
      ghost var all := todo;
      while todo != {}
        invariant todo <= all && items == ItemsOf(s, LogsOf(items)) && Ordered(LogsOf(items))
        invariant forall l :: l in LogsOf(items) <==> Stored(logs, l) && l.pos in all && l.pos !in todo
        invariant forall p, q :: p in all && p !in todo && q in todo ==> Before(p, q)
        decreases |todo|
      {
        LeastPosExists(todo);
        var p :| LeastPos(todo, p);
        RowAdded(s, items, logs[p]);
        items := items + [ItemOf(s, logs[p])];
        todo := todo - {p};
      }
    }
  }

  /** A rollback moves cursors back only. */
  lemma RolledFit(subs: Subs, blocks: map<nat, Option<nat>>, b: nat)
    requires CursorsFit(subs)
    ensures CursorsFit(RolledSubs(subs, blocks, b)) && SameTopics(RolledSubs(subs, blocks, b), subs)
  {
  }

  lemma RowAdded(s: Source, items: seq<Item>, l: RawLog)
    requires items == ItemsOf(s, LogsOf(items)) && Ordered(LogsOf(items))
    requires forall r :: r in LogsOf(items) ==> Before(r.pos, l.pos)
    ensures var more := items + [ItemOf(s, l)];
            && LogsOf(more) == LogsOf(items) + [l]
            && more == ItemsOf(s, LogsOf(more)) && Ordered(LogsOf(more))
  {
    var rows, more := LogsOf(items), items + [ItemOf(s, l)];
    assert LogsOf(more) == rows + [l] && (rows + [l])[..|rows|] == rows;
    forall i | 0 <= i < |rows| ensures Before(rows[i].pos, l.pos) { assert rows[i] in rows; }
  }

  function LogsOf(items: seq<Item>): seq<RawLog> {
    seq(|items|, i requires 0 <= i < |items| => items[i].log)
  }

  function SubsOf(subs: Subs, listed: seq<SubKey>): seq<Sub>
    requires forall k :: k in listed ==> k in subs
  {
    seq(|listed|, i requires 0 <= i < |listed| => subs[listed[i]])
  }

  /** What the cursor column can hold. */
  predicate CursorsFit(subs: Subs) {
    forall k :: k in subs && subs[k].cursor.Some? ==> subs[k].cursor.value < I64_LIMIT
  }

  function KeyFor(deployment: nat, s: Source): SubKey {
    SubKey(deployment, s.name, s.dynamic, s.address, s.start)
  }

  /** The subscription has been filled to the block. */
  predicate ReadyFor(subs: Subs, k: SubKey, to: nat) {
    k in subs && subs[k].cursor.Some? && subs[k].cursor.value >= to
  }

  predicate SameTopics(a: Subs, b: Subs) {
    a.Keys == b.Keys && forall k :: k in a ==> a[k].topics == b[k].topics
  }

  predicate SameBut(a: Subs, b: Subs, k: SubKey) {
    SameTopics(a, b) && forall j :: j in a && j != k ==> a[j] == b[j]
  }

  /** The RPC answers for the block to fill to, and for every cursor block with a hash. */
  predicate HashesAnswer(subs: Subs, listed: seq<SubKey>, to: nat, hashes: nat -> Result<Option<nat>>)
    requires forall k :: k in listed ==> k in subs
  {
    hashes(to).Ok? && forall k :: k in listed && subs[k].cursor.Some? && subs[k].hash.Some? ==>
                        hashes(subs[k].cursor.value).Ok?
  }

  /** The block a pass rolls back to: the least one with a changed hash, when the RPC answers for all of them. */
  ghost function Detected(subs: Subs, listed: seq<SubKey>, to: nat, hashes: nat -> Result<Option<nat>>): Option<nat> {
    if (forall k :: k in listed ==> k in subs) && HashesAnswer(subs, listed, to, hashes)
    then LeastMismatch(FirstHashes(SubsOf(subs, listed)), hashes) else None
  }

  /** Requests fail only for being too wide, the block fits its column, and the RPC has an answer for every block. */
  ghost predicate Undisturbed(outcome: (nat, nat, nat) -> Outcome, to: nat, hashes: nat -> Result<Option<nat>>) {
    OnlyWidthFails(outcome) && to < I64_LIMIT && forall b: nat :: hashes(b).Ok?
  }

  /** The tables after the rollback a pass made, if any. */
  function After(subs: Subs, blocks: map<nat, Option<nat>>, rolled: Option<nat>): Subs {
    if rolled.Some? then RolledSubs(subs, blocks, rolled.value) else subs
  }

  function AfterLogs(logs: Logs, rolled: Option<nat>): Logs {
    if rolled.Some? then RolledLogs(logs, rolled.value) else logs
  }

  /** A subscription that needs nothing more up to block `to`. */
  predicate Filled(k: SubKey, s: Sub, to: nat, from: Option<nat>) {
    k.from > to || (s.cursor.None? && from.Some? && from.value > to) || (s.cursor.Some? && s.cursor.value >= to)
  }

  predicate AllFilled(subs: Subs, listed: seq<SubKey>, to: nat, from: Option<nat>) {
    forall k :: k in listed ==> k in subs && Filled(k, subs[k], to, from)
  }

  lemma OneMoreFilled(had: Subs, subs: Subs, listed: seq<SubKey>, i: nat, to: nat, from: Option<nat>)
    requires i < |listed| && AllFilled(had, listed[..i], to, from) && listed[i] in subs
    requires SameBut(subs, had, listed[i]) && Filled(listed[i], subs[listed[i]], to, from)
    ensures AllFilled(subs, listed[..i + 1], to, from)
  {
    forall k | k in listed[..i + 1] ensures k in subs && Filled(k, subs[k], to, from) {
      if k != listed[i] { assert k in listed[..i] && had[k] == subs[k]; }
    }
  }

  // ----- when to roll back -----

  /** The hash stored for each cursor block: the first listed one counts. */
  function FirstHashes(listed: seq<Sub>): map<nat, nat> {
    if listed == [] then map[]
    else
      var before, s := FirstHashes(listed[..|listed| - 1]), listed[|listed| - 1];
      if s.cursor.None? || s.hash.None? || s.cursor.value in before then before
      else before[s.cursor.value := s.hash.value]
  }

  /** The compared blocks are the cursors that have a hash, and the hash is that of the first one listed. */
  lemma {:induction false} FirstListed(listed: seq<Sub>, b: nat)
    ensures b in FirstHashes(listed) <==> exists s :: s in listed && s.cursor == Some(b) && s.hash.Some?
    ensures b in FirstHashes(listed) ==>
              exists i :: 0 <= i < |listed| && listed[i].cursor == Some(b)
                && listed[i].hash == Some(FirstHashes(listed)[b])
                && forall j :: 0 <= j < i ==> listed[j].cursor != Some(b) || listed[j].hash.None?
  {
    if listed != [] {
      var n := |listed| - 1;
      var before, s := listed[..n], listed[n];
      FirstListed(before, b);
      forall i | 0 <= i < n ensures listed[i] == before[i] { }
      if b in FirstHashes(before) {
        var i :| 0 <= i < n && before[i].cursor == Some(b) && before[i].hash == Some(FirstHashes(before)[b])
          && forall j :: 0 <= j < i ==> before[j].cursor != Some(b) || before[j].hash.None?;
        assert listed[i] in listed;
      } else {
        forall j | 0 <= j < n ensures listed[j].cursor != Some(b) || listed[j].hash.None? {
          assert listed[j] in before;
        }
      }
      assert forall x :: x in listed <==> x in before || x == s;
    }
  }

  lemma HashesFirst(subs: Subs, listed: seq<SubKey>, to: nat, hashes: nat -> Result<Option<nat>>)
    requires forall k :: k in listed ==> k in subs
    ensures HashesAnswer(subs, listed, to, hashes)
       <==> hashes(to).Ok? && forall b :: b in FirstHashes(SubsOf(subs, listed)) ==> hashes(b).Ok?
  {
    var subs', all := SubsOf(subs, listed), FirstHashes(SubsOf(subs, listed));
    forall b | b in all ensures exists s :: s in subs' && s.cursor == Some(b) && s.hash.Some? { FirstListed(subs', b); }
    forall k | k in listed && subs[k].cursor.Some? && subs[k].hash.Some? ensures subs[k].cursor.value in all {
      var i :| 0 <= i < |listed| && listed[i] == k;
      assert subs'[i] == subs[k];
      FirstListed(subs', subs[k].cursor.value);
    }
    forall s | s in subs' ensures exists k :: k in listed && subs[k] == s {
      var i :| 0 <= i < |listed| && subs'[i] == s;
      assert listed[i] in listed;
    }
  }

  /** The RPC has another hash for the block; having none is no mismatch. */
  predicate Mismatch(first: map<nat, nat>, hashes: nat -> Result<Option<nat>>, b: nat) {
    b in first && hashes(b).Ok? && hashes(b).value.Some? && hashes(b).value.value != first[b]
  }

  ghost function LeastMismatch(first: map<nat, nat>, hashes: nat -> Result<Option<nat>>): (r: Option<nat>)
    ensures r.None? <==> forall b :: !Mismatch(first, hashes, b)
    ensures r.Some? ==> Mismatch(first, hashes, r.value) && forall b :: Mismatch(first, hashes, b) ==> r.value <= b
  {
    if b :| Mismatch(first, hashes, b) then Some(LeastFrom(first, hashes, b)) else None
  }

  ghost function LeastFrom(first: map<nat, nat>, hashes: nat -> Result<Option<nat>>, b: nat): (r: nat)
    requires Mismatch(first, hashes, b)
    ensures Mismatch(first, hashes, r) && forall c :: Mismatch(first, hashes, c) ==> r <= c
    decreases b
  {
    if c: nat :| c < b && Mismatch(first, hashes, c) then LeastFrom(first, hashes, c) else b
  }

  /** Walks the cursor blocks and keeps the least one that does not match. */
  method FeedReorgRollbackBlock(listed: seq<Sub>, hashes: nat -> Result<Option<nat>>) returns (r: Result<Option<nat>>)
    ensures r.Ok? <==> forall b :: b in FirstHashes(listed) ==> hashes(b).Ok?
    ensures r.Ok? ==> r.value == LeastMismatch(FirstHashes(listed), hashes)
  {
    var first: map<nat, nat> := map[];
    for i := 0 to |listed|
      invariant first == FirstHashes(listed[..i])
    {
      var s := listed[i];
      assert listed[..i + 1][..i] == listed[..i];
      if s.cursor.Some? && s.hash.Some? && s.cursor.value !in first { first := first[s.cursor.value := s.hash.value]; }
    }
    assert listed[..|listed|] == listed;
    r := LeastMismatched(first, hashes);
  }

  method LeastMismatched(first: map<nat, nat>, hashes: nat -> Result<Option<nat>>) returns (r: Result<Option<nat>>)
    ensures r.Ok? <==> forall b :: b in first ==> hashes(b).Ok?
    ensures r.Ok? ==> r.value == LeastMismatch(first, hashes)
  {
    var least: Option<nat> := None;
    var todo := first.Keys;
    while todo != {}
      invariant todo <= first.Keys
      invariant forall b :: b in first && b !in todo ==> hashes(b).Ok?
      invariant least.None? ==> forall b :: b !in todo ==> !Mismatch(first, hashes, b)
      invariant least.Some? ==> Mismatch(first, hashes, least.value)
      invariant least.Some? ==> forall b :: b !in todo && Mismatch(first, hashes, b) ==> least.value <= b
      decreases |todo|
    {
      var b :| b in todo;
      var found := hashes(b);
      if found.Err? { return Err; }
      if found.value.Some? && found.value.value != first[b] && (least.None? || b < least.value) { least := Some(b); }
      todo := todo - {b};
    }
    r := Ok(least);
  }

  function StartOf(s: Source, from: Option<nat>): nat {
    if from.Some? && from.value > s.start then from.value else s.start
  }

  predicate AsksFor(s: Source, from: Option<nat>, to: nat, l: RawLog) {
    l.address == s.address && l.topic in s.topics && StartOf(s, from) <= l.pos.block <= to
  }

  predicate LeastPos(s: set<Pos>, p: Pos) {
    p in s && forall q :: q in s ==> q == p || Before(p, q)
  }

  lemma {:induction false} LeastPosExists(s: set<Pos>)
    requires s != {}
    ensures exists p :: LeastPos(s, p)
    decreases |s|
  {
    var p :| p in s;
    var rest := s - {p};
    if rest == {} {
      assert s == {p};
      assert LeastPos(s, p);
    } else {
      LeastPosExists(rest);
      var m :| LeastPos(rest, m);
      BeforeTotal(p, m);
      var least := if Before(p, m) then p else m;
      forall q | q in s ensures q == least || Before(least, q) { if q != p { assert q in rest; } }
      assert LeastPos(s, least);
    }
  }

  // ----- what registering and filling keep -----

  /** A new subscription, or one with the same topics, changes nothing about what must be held. */
  lemma RegisterKeeps(chain: seq<RawLog>, subs: Subs, logs: Logs, k: SubKey, topics: set<nat>)
    requires Good(chain, subs, logs) && (k in subs ==> subs[k].topics == topics)
    ensures Good(chain, subs[k := if k in subs then subs[k].(topics := topics) else Sub(topics, None, None)], logs)
  {
    var more := subs[k := if k in subs then subs[k].(topics := topics) else Sub(topics, None, None)];
    forall l ensures Covered(more, l) <==> Covered(subs, l) {
      if Covered(subs, l) {
        var j :| CoveredBy(subs, j, l);
        assert CoveredBy(more, j, l);
      }
      if Covered(more, l) {
        var j :| CoveredBy(more, j, l);
        assert CoveredBy(subs, j, l);
      }
    }
  }

  /** Where a fill starts: after the cursor, or where the reader was told to, but not before the subscription. */
  function FirstBlock(k: SubKey, s: Sub, from: Option<nat>): nat {
    if s.cursor.None? && from.Some? && from.value > k.from then from.value else NextBlock(k, s)
  }

  /** A log that the subscription still needs, before the block where the fill starts. */
  predicate PassedOver(k: SubKey, s: Sub, from: Option<nat>, l: RawLog) {
    NextBlock(k, s) <= l.pos.block < FirstBlock(k, s, from) && l.address == k.address && l.topic in s.topics
  }

  /** Filling a subscription is right exactly when every log of the chain that it passes over is covered already. */
  lemma FillExact(chain: seq<RawLog>, subs: Subs, logs: Logs, k: SubKey, from: Option<nat>, to: nat, hash: Option<nat>)
    requires Ordered(chain) && Good(chain, subs, logs) && k in subs && FirstBlock(k, subs[k], from) <= to
    ensures Good(chain, subs[k := Sub(subs[k].topics, Some(to), hash)],
                 Inserted(logs, Answer(chain, k.address, subs[k].topics, FirstBlock(k, subs[k], from), to)))
            <==> forall l :: l in chain && PassedOver(k, subs[k], from, l) ==> Covered(subs, l)
  {
    var sub, more := subs[k], subs[k := Sub(subs[k].topics, Some(to), hash)];
    var first := FirstBlock(k, sub, from);
    var rows := Answer(chain, k.address, sub.topics, first, to);
    forall r | r in rows ensures r in chain { Answered(chain, k.address, sub.topics, first, to, r); }
    forall p | p in logs ensures logs[p] in chain { assert Stored(logs, logs[p]); }
    forall l
      ensures Stored(Inserted(logs, rows), l) <==> l in chain && (Covered(subs, l) || (l in rows))
      ensures l in chain && l in rows <==> l in chain && BringsIn(k, sub, to, l) && !PassedOver(k, sub, from, l)
      ensures Covered(more, l) <==> Covered(subs, l) || BringsIn(k, sub, to, l)
    {
      InsertedStored(chain, logs, rows, l);
      Answered(chain, k.address, sub.topics, first, to, l);
      CoverGrows(subs, k, to, hash, l);
    }
    InsertedPlaced(chain, logs, rows);
    FillSame(chain, subs, more, Inserted(logs, rows), rows, k, from, to);
  }

  lemma FillSame(chain: seq<RawLog>, subs: Subs, more: Subs, filled: Logs, rows: seq<RawLog>, k: SubKey,
                 from: Option<nat>, to: nat)
    requires k in subs && FirstBlock(k, subs[k], from) <= to && forall p :: p in filled ==> filled[p].pos == p
    requires forall l :: Stored(filled, l) <==> l in chain && (Covered(subs, l) || l in rows)
    requires forall l :: l in chain && l in rows
                    <==> l in chain && BringsIn(k, subs[k], to, l) && !PassedOver(k, subs[k], from, l)
    requires forall l :: Covered(more, l) <==> Covered(subs, l) || BringsIn(k, subs[k], to, l)
    ensures Good(chain, more, filled)
       <==> forall l :: l in chain && PassedOver(k, subs[k], from, l) ==> Covered(subs, l)
  {
    if Good(chain, more, filled) {
      forall l | l in chain && PassedOver(k, subs[k], from, l)
        ensures Covered(subs, l)
      {
        assert BringsIn(k, subs[k], to, l);
        assert Stored(filled, l) <==> l in chain && Covered(more, l);
      }
    }
  }

  /** So filling from the cursor, or from the subscription's start, keeps the feed good. */
  lemma FillKeeps(chain: seq<RawLog>, subs: Subs, logs: Logs, k: SubKey, from: nat, to: nat, hash: Option<nat>)
    requires Ordered(chain) && Good(chain, subs, logs) && k in subs
    requires from == NextBlock(k, subs[k]) && from <= to
    ensures Good(chain, subs[k := Sub(subs[k].topics, Some(to), hash)],
                 Inserted(logs, Answer(chain, k.address, subs[k].topics, from, to)))
  {
    FillExact(chain, subs, logs, k, None, to, hash);
  }

  /** The first block a subscription still needs. */
  function NextBlock(k: SubKey, s: Sub): nat {
    if s.cursor.None? then k.from
    else if s.cursor.value + 1 > k.from then s.cursor.value + 1 else k.from
  }

  predicate BringsIn(k: SubKey, s: Sub, to: nat, l: RawLog) {
    NextBlock(k, s) <= l.pos.block <= to && l.address == k.address && l.topic in s.topics
  }

  lemma CoverGrows(subs: Subs, k: SubKey, to: nat, hash: Option<nat>, l: RawLog)
    requires k in subs && NextBlock(k, subs[k]) <= to
    ensures var more := subs[k := Sub(subs[k].topics, Some(to), hash)];
            Covered(more, l) <==> Covered(subs, l) || BringsIn(k, subs[k], to, l)
  {
    var more := subs[k := Sub(subs[k].topics, Some(to), hash)];
    if Covered(subs, l) {
      var j :| CoveredBy(subs, j, l);
      assert CoveredBy(more, j, l);
    }
    if Covered(more, l) {
      var j :| CoveredBy(more, j, l);
      assert j != k ==> CoveredBy(subs, j, l);
      assert j == k && l.pos.block < NextBlock(k, subs[k]) ==> CoveredBy(subs, k, l);
    }
    if BringsIn(k, subs[k], to, l) { assert CoveredBy(more, k, l); }
  }

  // ----- the feed in place of RPC -----

  /** What a caught-up source loads is what a direct scan of the chain returns. */
  lemma FeedIsScan(chain: seq<RawLog>, subs: Subs, logs: Logs, k: SubKey, s: Source, from: Option<nat>, to: nat,
                   items: seq<Item>)
    requires Ordered(chain) && Good(chain, subs, logs)
    requires k in subs && subs[k].cursor.Some? && subs[k].cursor.value >= to
    requires k.address == s.address && k.from <= s.start && subs[k].topics == s.topics
    requires items == ItemsOf(s, LogsOf(items)) && Ordered(LogsOf(items))
    requires forall l :: l in LogsOf(items) <==> Stored(logs, l) && AsksFor(s, from, to, l)
    ensures items == ScanSource(s, LogsIn(chain, if from.Some? then from.value else s.start, to))
  {
    var start := StartOf(s, from);
    var rows, direct := LogsOf(items), Answer(chain, s.address, s.topics, start, to);
    forall l ensures l in rows <==> l in direct {
      Answered(chain, s.address, s.topics, start, to, l);
      if l in direct { assert CoveredBy(subs, k, l); }
    }
    LogsInOrdered(chain, start, to);
    SelectOrdered(LogsIn(chain, start, to), s.address, s.topics);
    OrderedSame(rows, direct);
    AnswerIsScan(s, chain, if from.Some? then from.value else s.start, start, to);
  }

  // ----- where hashes come from -----

  /** A fill up to this block recorded this hash. */
  ghost predicate Recorded(events: seq<Event>, block: nat, hash: nat) {
    exists i :: 0 <= i < |events| && events[i].Fills? && events[i].to == block && events[i].hash == Some(hash)
  }

  ghost predicate HashesKnown(events: seq<Event>, w: World) {
    && (forall k :: k in w.subs && w.subs[k].hash.Some? ==>
          w.subs[k].cursor.Some? && Recorded(events, w.subs[k].cursor.value, w.subs[k].hash.value))
    && (forall b :: b in w.blocks && w.blocks[b].Some? ==> Recorded(events, b, w.blocks[b].value))
  }

  lemma RecordedMore(events: seq<Event>, e: Event, block: nat, hash: nat)
    requires Recorded(events, block, hash) || (e.Fills? && e.to == block && e.hash == Some(hash))
    ensures Recorded(events + [e], block, hash)
  {
    var more := events + [e];
    if Recorded(events, block, hash) {
      var i :| 0 <= i < |events| && events[i].Fills? && events[i].to == block && events[i].hash == Some(hash);
      assert more[i] == events[i];
    } else {
      assert more[|events|] == e;
    }
  }

  lemma HashesStep(events: seq<Event>, w: World, e: Event)
    requires HashesKnown(events, w)
    ensures HashesKnown(events + [e], Play(w, e))
  {
    var v, more := Play(w, e), events + [e];
    forall b | b in v.blocks && v.blocks[b].Some? ensures Recorded(more, b, v.blocks[b].value) {
      RecordedMore(events, e, b, v.blocks[b].value);
    }
    forall k | k in v.subs && v.subs[k].hash.Some?
      ensures v.subs[k].cursor.Some? && Recorded(more, v.subs[k].cursor.value, v.subs[k].hash.value)
    {
      RecordedMore(events, e, v.subs[k].cursor.value, v.subs[k].hash.value);
    }
  }

  /** Whatever happens to a feed that starts empty, the hash of a cursor, and the hash of a block, is one that a fill
      up to that very block recorded: so what the reader compares belongs to the block it asks for. */
  lemma {:induction false} HashesRecorded(chain: seq<RawLog>, events: seq<Event>)
    ensures HashesKnown(events, PlayAll(World(chain, map[], map[], map[]), events))
  {
    if events != [] {
      var n := |events| - 1;
      HashesRecorded(chain, events[..n]);
      HashesStep(events[..n], PlayAll(World(chain, map[], map[], map[]), events[..n]), events[n]);
      assert events[..n] + [events[n]] == events;
    }
  }

  // ----- rollback -----

  function RolledSub(s: Sub, blocks: map<nat, Option<nat>>, b: nat): Sub {
    if s.cursor.None? || s.cursor.value < b then s
    else if b == 0 then Sub(s.topics, None, None)
    else Sub(s.topics, Some(b - 1), if b - 1 in blocks then blocks[b - 1] else None)
  }

  function RolledSubs(subs: Subs, blocks: map<nat, Option<nat>>, b: nat): Subs {
    map k | k in subs :: RolledSub(subs[k], blocks, b)
  }

  function RolledLogs(logs: Logs, b: nat): Logs {
    map p | p in logs && p.block < b :: logs[p]
  }

  /** A cursor below the block stays; one from there on goes back to the block before, with the hash stored for that
      block, and to none when there is no block before. */
  lemma RolledCursor(s: Sub, blocks: map<nat, Option<nat>>, b: nat)
    ensures var r := RolledSub(s, blocks, b);
            && r.topics == s.topics
            && (r.cursor.None? <==> s.cursor.None? || (b == 0 && s.cursor.value >= b))
            && (r.cursor.Some? && s.cursor.value < b ==> r == s)
            && (r.cursor.Some? && s.cursor.value >= b ==> r.cursor.value + 1 == b)
            && (r != s && r.hash.Some? ==> b > 0 && b - 1 in blocks && blocks[b - 1] == r.hash)
            && (r != s && r.hash.None? && b > 0 && b - 1 in blocks ==> blocks[b - 1] == None)
  {
  }

  /** After a rollback exactly the parts below the block are still filled. */
  lemma CoverRolled(subs: Subs, blocks: map<nat, Option<nat>>, b: nat, l: RawLog)
    ensures Covered(RolledSubs(subs, blocks, b), l) <==> Covered(subs, l) && l.pos.block < b
  {
    var less := RolledSubs(subs, blocks, b);
    if Covered(less, l) {
      var j :| CoveredBy(less, j, l);
      assert CoveredBy(subs, j, l);
    }
    if Covered(subs, l) && l.pos.block < b {
      var j :| CoveredBy(subs, j, l);
      assert CoveredBy(less, j, l);
    }
  }

  /** A rolled-back feed is right for a new chain exactly when the two chains have the same covered logs
      below the rollback block. */
  lemma RollbackExact(was: seq<RawLog>, chain: seq<RawLog>, subs: Subs, logs: Logs, blocks: map<nat, Option<nat>>,
                      b: nat)
    requires Good(was, subs, logs)
    ensures Good(chain, RolledSubs(subs, blocks, b), RolledLogs(logs, b))
       <==> forall l :: Covered(subs, l) && l.pos.block < b ==> (l in was <==> l in chain)
  {
    var less, kept := RolledSubs(subs, blocks, b), RolledLogs(logs, b);
    forall l ensures Stored(kept, l) <==> l in was && Covered(subs, l) && l.pos.block < b {
      assert Stored(kept, l) <==> Stored(logs, l) && l.pos.block < b;
    }
    forall l ensures Covered(less, l) <==> Covered(subs, l) && l.pos.block < b { CoverRolled(subs, blocks, b, l); }
    if Good(chain, less, kept) {
      forall l | Covered(subs, l) && l.pos.block < b ensures l in was <==> l in chain {
        assert Stored(kept, l) <==> l in chain && Covered(less, l);
      }
    }
  }

  /** So it is right for every chain that agrees below the block. */
  lemma RollbackKeeps(was: seq<RawLog>, chain: seq<RawLog>, subs: Subs, logs: Logs, blocks: map<nat, Option<nat>>,
                      b: nat)
    requires Good(was, subs, logs) && (b > 0 ==> LogsIn(was, 0, b - 1) == LogsIn(chain, 0, b - 1))
    ensures Good(chain, RolledSubs(subs, blocks, b), RolledLogs(logs, b))
  {
    forall l: RawLog | l.pos.block < b ensures l in was <==> l in chain {
      LogsInMember(was, 0, b - 1, l);
      LogsInMember(chain, 0, b - 1, l);
    }
    RollbackExact(was, chain, subs, logs, blocks, b);
  }

  /** The reader rolls back to the least cursor block whose hash has changed, and to nothing if none has.  So
      the feed is right for the new chain exactly when no covered log below that block has changed. */
  lemma ReaderRollbackExact(was: seq<RawLog>, chain: seq<RawLog>, subs: Subs, logs: Logs, blocks: map<nat, Option<nat>>,
                            listed: seq<SubKey>, hashes: nat -> Result<Option<nat>>)
    requires Good(was, subs, logs) && forall k :: k in listed ==> k in subs
    ensures var rolled := LeastMismatch(FirstHashes(SubsOf(subs, listed)), hashes);
            Good(chain, After(subs, blocks, rolled), AfterLogs(logs, rolled))
            <==> forall l :: Covered(subs, l) && (rolled.Some? ==> l.pos.block < rolled.value) ==>
                   (l in was <==> l in chain)
  {
    var rolled := LeastMismatch(FirstHashes(SubsOf(subs, listed)), hashes);
    if rolled.Some? {
      RollbackExact(was, chain, subs, logs, blocks, rolled.value);
    } else {
      MoveExact(was, chain, subs, logs);
    }
  }

  /** Without a rollback the feed is right for another chain exactly when the covered logs are the same. */
  lemma MoveExact(was: seq<RawLog>, chain: seq<RawLog>, subs: Subs, logs: Logs)
    requires Good(was, subs, logs)
    ensures Good(chain, subs, logs) <==> forall l :: Covered(subs, l) ==> (l in was <==> l in chain)
  {
    if Good(chain, subs, logs) {
      forall l | Covered(subs, l)
        ensures l in was <==> l in chain
      {
        assert Stored(logs, l) <==> l in chain && Covered(subs, l);
      }
    }
  }

  /** The reader only looks at cursor blocks, so a reorganization may start below the block it rolls back
      to: a covered log that is gone from the chain is then still in the feed. */
  lemma StaleLogStays(was: seq<RawLog>, chain: seq<RawLog>, subs: Subs, logs: Logs, blocks: map<nat, Option<nat>>,
                      b: nat, l: RawLog)
    requires Good(was, subs, logs) && Covered(subs, l) && l.pos.block < b && l in was && l !in chain
    ensures Stored(RolledLogs(logs, b), l) && !Good(chain, RolledSubs(subs, blocks, b), RolledLogs(logs, b))
  {
    assert Stored(logs, l);
    RollbackExact(was, chain, subs, logs, blocks, b);
  }

  // ----- changing topics -----

  /** A log below the subscription's cursor that it asks for before, or after, the change of topics, but not
      both. */
  predicate Affected(k: SubKey, s: Sub, topics: set<nat>, l: RawLog) {
    && l.address == k.address && k.from <= l.pos.block && s.cursor.Some? && l.pos.block <= s.cursor.value
    && (l.topic in s.topics) != (l.topic in topics)
  }

  ghost predicate CoveredByOther(subs: Subs, k: SubKey, l: RawLog) {
    exists j :: j != k && CoveredBy(subs, j, l)
  }

  lemma TopicsCover(subs: Subs, k: SubKey, topics: set<nat>, l: RawLog)
    requires k in subs
    ensures var more := subs[k := subs[k].(topics := topics)];
            (Covered(more, l) <==> Covered(subs, l))
            <==> (Affected(k, subs[k], topics, l) ==> CoveredByOther(subs, k, l))
  {
    var more := subs[k := subs[k].(topics := topics)];
    forall j | j != k ensures CoveredBy(more, j, l) <==> CoveredBy(subs, j, l) { }
    if CoveredByOther(subs, k, l) {
      var j :| j != k && CoveredBy(subs, j, l);
      assert CoveredBy(more, j, l);
    } else {
      assert Covered(more, l) <==> CoveredBy(more, k, l);
      assert Covered(subs, l) <==> CoveredBy(subs, k, l);
    }
  }

  /** Registering again with other topics, fewer or more, leaves the cursor where it is and the tables as they
      are.  That is right exactly when every log of the chain it matters for is covered by another
      subscription. */
  lemma TopicsExact(chain: seq<RawLog>, subs: Subs, logs: Logs, k: SubKey, topics: set<nat>)
    requires Good(chain, subs, logs) && k in subs
    ensures Good(chain, subs[k := subs[k].(topics := topics)], logs)
            <==> forall l :: l in chain && Affected(k, subs[k], topics, l) ==> CoveredByOther(subs, k, l)
  {
    var more := subs[k := subs[k].(topics := topics)];
    forall l
      ensures (Covered(more, l) <==> Covered(subs, l))
         <==> (Affected(k, subs[k], topics, l) ==> CoveredByOther(subs, k, l))
    {
      TopicsCover(subs, k, topics, l);
    }
    if Good(chain, more, logs) {
      forall l | l in chain && Affected(k, subs[k], topics, l) ensures CoveredByOther(subs, k, l) {
        assert Stored(logs, l) <==> l in chain && Covered(subs, l);
        assert Stored(logs, l) <==> l in chain && Covered(more, l);
      }
    }
    if forall l :: l in chain && Affected(k, subs[k], topics, l) ==> CoveredByOther(subs, k, l) {
      forall l
        ensures Stored(logs, l) <==> l in chain && Covered(more, l)
      {
        assert Stored(logs, l) <==> l in chain && Covered(subs, l);
      }
    }
  }

  /** So logs with an added topic below the cursor are missed. */
  lemma AddedTopicMisses(chain: seq<RawLog>, subs: Subs, logs: Logs, k: SubKey, topics: set<nat>, l: RawLog)
    requires Good(chain, subs, logs) && k in subs && subs[k].cursor.Some? && l in chain && !Covered(subs, l)
    requires Wants(k, topics, l) && l.pos.block <= subs[k].cursor.value
    ensures !Good(chain, subs[k := subs[k].(topics := topics)], logs)
  {
    TopicsExact(chain, subs, logs, k, topics);
    assert !CoveredBy(subs, k, l);
    assert Affected(k, subs[k], topics, l);
  }

  // ----- every reached feed -----

  ghost predicate GoodWorld(w: World) {
    Ordered(w.chain) && Good(w.chain, w.subs, w.logs)
  }

  /** What keeps a feed good, event by event: topics change only where others cover what is affected; the chain
      moves on without touching a covered log; and in a reorganization no covered log below the rollback
      block has changed.  A fill passes over nothing that is not covered. */
  ghost predicate Allowed(w: World, e: Event) {
    match e
    case Registers(k, topics) =>
      k in w.subs && topics != {} ==>
        forall l :: l in w.chain && Affected(k, w.subs[k], topics, l) ==> CoveredByOther(w.subs, k, l)
    case Fills(k, from, to, hash) =>
      k in w.subs && FirstBlock(k, w.subs[k], from) <= to && to < I64_LIMIT ==>
        forall l :: l in w.chain && PassedOver(k, w.subs[k], from, l) ==> Covered(w.subs, l)
    case Moves(chain) => Ordered(chain) && forall l :: Covered(w.subs, l) ==> (l in w.chain <==> l in chain)
    case Reorganizes(chain, b) =>
      Ordered(chain) && forall l :: Covered(w.subs, l) && l.pos.block < b ==> (l in w.chain <==> l in chain)
  }

  /** And nothing less does: an event keeps a good feed good exactly when it is allowed. */
  lemma EventExact(w: World, e: Event)
    requires GoodWorld(w)
    ensures GoodWorld(Play(w, e)) <==> Allowed(w, e)
  {
    match e {
      case Registers(k, topics) =>
        if k in w.subs && topics != {} {
          TopicsExact(w.chain, w.subs, w.logs, k, topics);
        } else if topics != {} {
          RegisterKeeps(w.chain, w.subs, w.logs, k, topics);
        }
      case Fills(k, from, to, hash) =>
        if k in w.subs && FirstBlock(k, w.subs[k], from) <= to && to < I64_LIMIT {
          FillExact(w.chain, w.subs, w.logs, k, from, to, hash);
        }
      case Moves(chain) => MoveExact(w.chain, chain, w.subs, w.logs);
      case Reorganizes(chain, b) => RollbackExact(w.chain, chain, w.subs, w.logs, w.blocks, b);
    }
  }

  /** Every event is allowed where it happens. */
  ghost predicate AllAllowed(w: World, events: seq<Event>) {
    forall i :: 0 <= i < |events| ==> Allowed(PlayAll(w, events[..i]), events[i])
  }

  /** Whatever registers, is filled, grows, reorganizes, in any order: as long as every event is allowed where it
      happens, a feed that starts empty is good. */
  lemma EveryReachedFeedIsGood(events: seq<Event>)
    requires AllAllowed(World([], map[], map[], map[]), events)
    ensures GoodWorld(PlayAll(World([], map[], map[], map[]), events))
  {
    FeedStaysGood(World([], map[], map[], map[]), events);
  }

  lemma {:induction false} FeedStaysGood(w: World, events: seq<Event>)
    requires GoodWorld(w) && AllAllowed(w, events)
    ensures GoodWorld(PlayAll(w, events))
    decreases |events|
  {
    if events != [] {
      var n := |events| - 1;
      var some := events[..n];
      forall i | 0 <= i < n ensures Allowed(PlayAll(w, some[..i]), some[i]) { assert some[..i] == events[..i]; }
      FeedStaysGood(w, some);
      EventExact(PlayAll(w, some), events[n]);
    }
  }

  /** Fills keep what the reader's rollback left good. */
  lemma {:induction false} FillsGood(w: World, events: seq<Event>, rolled: Option<nat>, chain: seq<RawLog>, to: nat,
                                       answer: Result<Option<nat>>)
    requires PassEvents(events, chain, rolled, None, to, answer) && Ordered(chain)
    ensures PlayAll(w, events).chain == chain
    ensures Good(chain, After(w.subs, w.blocks, rolled), AfterLogs(w.logs, rolled)) ==> GoodWorld(PlayAll(w, events))
    decreases |events|
  {
    var n := |events| - 1;
    var some := events[..n];
    if n == 0 {
      assert some == [];
      assert PlayAll(w, events) == Play(w, events[0]);
    } else {
      FillsGood(w, some, rolled, chain, to, answer);
      var v := PlayAll(w, some);
      if GoodWorld(v) { EventExact(v, events[n]); }
    }
  }

  // ----- a reorganization between two cursors -----

  const KEY := SubKey(0, 0, false, 7, 0)

  function LogAt(block: nat): RawLog {
    RawLog(Pos(block, 0, 0), 7, 1, 0)
  }

  /** A reader that registered one subscription and filled it to block 20. */
  function Reading(): seq<Event> {
    [Registers(KEY, {1}), Moves([LogAt(15)]), Fills(KEY, None, 20, Some(20))]
  }

  /** The reader's next pass, after a reorganization from block 15 on: only block 20 has a stored hash, so it
      rolls back to block 20, and fills on to block 25. */
  function ReadingOn(): seq<Event> {
    [Reorganizes([], 20), Fills(KEY, None, 25, Some(125))]
  }

  function Read(): World {
    World([LogAt(15)], map[KEY := Sub({1}, Some(20), Some(20))], map[Pos(15, 0, 0) := LogAt(15)], map[20 := Some(20)])
  }

  function Empty(): World {
    World([], map[], map[], map[])
  }

  lemma ReadTo20()
    ensures PlayAll(Empty(), Reading()) == Read()
  {
    var a, b, c := Registers(KEY, {1}), Moves([LogAt(15)]), Fills(KEY, None, 20, Some(20));
    PlayMore(Empty(), [], a);
    PlayMore(Empty(), [a], b);
    PlayMore(Empty(), [a, b], c);
    assert [] + [a] == [a] && [a] + [b] == [a, b] && [a, b] + [c] == Reading();
    var chain, rows := [LogAt(15)], Answer([LogAt(15)], 7, {1}, 0, 20);
    assert chain[1..] == [];
    assert LogsIn(chain, 0, 20) == chain;
    assert rows == chain && rows[..0] == [];
    assert Inserted(map[], rows) == map[Pos(15, 0, 0) := LogAt(15)];
  }

  function ReadMore(): World {
    World([], map[KEY := Sub({1}, Some(25), Some(125))], map[Pos(15, 0, 0) := LogAt(15)], map[25 := Some(125)])
  }

  lemma ReadTo25()
    ensures PlayAll(Read(), ReadingOn()) == ReadMore()
  {
    ReadBack();
    ReadOn();
    PlayTwo(Read(), Reorganizes([], 20), Fills(KEY, None, 25, Some(125)), ReadingOn());
  }

  lemma PlayTwo(w: World, a: Event, b: Event, events: seq<Event>)
    requires events == [a, b]
    ensures PlayAll(w, events) == Play(Play(w, a), b)
  {
    PlayMore(w, [], a);
    PlayMore(w, [a], b);
    assert [] + [a] == [a] && [a] + [b] == events;
  }

  /** After the rollback to block 20. */
  function ReadRolled(): World {
    World([], map[KEY := Sub({1}, Some(19), None)], map[Pos(15, 0, 0) := LogAt(15)], map[])
  }

  lemma ReadBack()
    ensures Play(Read(), Reorganizes([], 20)) == ReadRolled()
  {
  }

  lemma ReadOn()
    ensures Play(ReadRolled(), Fills(KEY, None, 25, Some(125))) == ReadMore()
  {
    assert Answer([], 7, {1}, 20, 25) == [];
  }

  /** The new chain's hashes: other ones from block 15 on. */
  function NewHashes(): nat -> Result<Option<nat>> {
    (n: nat) => Ok(Some(if n < 15 then n else n + 100))
  }

  lemma RollsBackTo20()
    ensures LeastMismatch(FirstHashes([Sub({1}, Some(20), Some(20))]), NewHashes()) == Some(20)
  {
    var s := Sub({1}, Some(20), Some(20));
    assert [s][..0] == [];
    assert FirstHashes([s]) == map[20 := 20];
    assert Mismatch(map[20 := 20], NewHashes(), 20);
  }

  /** A log of block 15 is gone from the chain, and the subscription is filled past it.  The block the reader
      rolls back to is 20, and the log stays in the feed. */
  lemma StaleLogRun()
    ensures PlayAll(Empty(), Reading()) == Read() && GoodWorld(Read())
    ensures LeastMismatch(FirstHashes([Read().subs[KEY]]), NewHashes()) == Some(20)
    ensures var v := PlayAll(Read(), ReadingOn());
            v.chain == [] && Stored(v.logs, LogAt(15)) && Covered(v.subs, LogAt(15)) && !GoodWorld(v)
  {
    ReadTo20();
    ReadTo25();
    RollsBackTo20();
    assert CoveredBy(Read().subs, KEY, LogAt(15)) && CoveredBy(ReadMore().subs, KEY, LogAt(15));
    assert Stored(ReadMore().logs, LogAt(15));
  }
}
