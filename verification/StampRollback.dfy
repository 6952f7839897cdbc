/** A rollback to the entry of an unfinished pass: it keeps the pass's start block and its state, but forgets which
    logs that state already includes. */
module StampRollback {
  import opened ChainModel
  import opened Streaming
  import opened Resume
  import opened Sync
  import opened Runs
  import opened Counter
  import opened NoStart
  import opened Reorg
  import opened Partial
  import opened Stamps

  // ----- every handler -----

  /** The resync leads to the reference at every block from the entry's on. */
  ghost predicate LeadsRight<S>(cfg: Config<S>, chain: seq<RawLog>, first: nat, initial: S, rolled: Snapshot<S>,
                                trace: seq<Item>)
  {
    forall t: nat :: rolled.to <= t ==>
      ViewOf(WalkP(cfg, StartEngine(initial, Some(rolled), trace), LogsIn(chain, NextStart(rolled), t)))
      == Reference(cfg, chain, first, initial, t)
  }

  /** From an entry that holds the reference's state it does if no source has a log from the block the resync starts
      at up to the entry. */
  lemma ExactLeadsRight<S>(cfg: Config<S>, chain: seq<RawLog>, first: nat, initial: S, later: Snapshot<S>, e: Entry<S>)
    requires Ordered(chain) && WfSources(cfg.statics, []) && ApartChain(cfg, chain, first, initial)
    requires Exact(cfg, chain, first, initial, e) && first <= NextStart(RolledBack(later, e)) <= e.to + 1
    requires NoneBetween(cfg.statics + e.sources, chain, NextStart(RolledBack(later, e)), e.to)
    ensures LeadsRight(cfg, chain, first, initial, RolledBack(later, e),
                       Reference(cfg, chain, first, initial, e.to).trace)
  {
    var x := Walk(cfg, FreshEngine(initial), LogsIn(chain, first, e.to));
    var rolled, start := RolledBack(later, e), NextStart(RolledBack(later, e));
    var y := StartEngine(initial, Some(rolled), x.trace);
    assert y == Engine(x.store, Persist(x.dyn), x.trace, {}, true);
    ResumeGood(cfg, chain, first, initial, e.to, e.to + 1, start, x, y);
    forall t: nat | rolled.to <= t
      ensures ViewOf(WalkP(cfg, y, LogsIn(chain, start, t))) == Reference(cfg, chain, first, initial, t)
    {
      assert Behind(cfg, chain, y, start, t);
    }
  }

  /** It does if nothing was left before the block the resync starts at, and nothing processed from there on. */
  lemma StampLeadsRight<S>(cfg: Config<S>, chain: seq<RawLog>, first: nat, initial: S, later: Snapshot<S>,
                           s: Snapshot<S>, trace: seq<Item>)
    requires Ordered(chain) && GoodSnapshot(cfg, chain, first, initial, s, trace)
    requires LosesNothing(cfg, chain, initial, s) && !s.complete
    requires forall id :: id in s.processed ==> id.pos.block < NextStart(s)
    ensures LeadsRight(cfg, chain, first, initial, RolledBack(later, EntryOf(s)), trace)
  {
    var rolled := RolledBack(later, EntryOf(s));
    var e, start := StartEngine(initial, Some(s), trace), NextStart(s);
    assert NextStart(rolled) == start && StartEngine(initial, Some(rolled), trace) == e.(processed := {});
    NextGood(cfg, chain, first, initial, s, trace, start);
    forall t: nat | rolled.to <= t
      ensures ViewOf(WalkP(cfg, e.(processed := {}), LogsIn(chain, start, t)))
              == Reference(cfg, chain, first, initial, t)
    {
      assert Behind(cfg, chain, e, Origin(s), t);
      assert Behind(cfg, chain, e, start, t);
      ForgetProcessed(cfg, chain, e, start, t);
    }
  }

  // ----- on the chain after a reorganization -----

  lemma {:induction false} WalkPWithin<S>(cfg: Config<S>, e: Engine<S>, logs: seq<RawLog>, bound: nat)
    requires Wf(cfg, e) && Within(e, bound) && forall l :: l in logs ==> l.pos.block <= bound
    ensures Wf(cfg, WalkP(cfg, e, logs)) && Within(WalkP(cfg, e, logs), bound)
    decreases logs
  {
    if e.ok && logs != [] {
      var items := FreshAt(cfg, e, logs[0]);
      ActiveAtLog(cfg, e, logs[0]);
      assert logs[0] in logs;
      WalkItemsWf(cfg, e, items);
      ItemsWithin(cfg, e, items, bound);
      WalkPWithin(cfg, WalkItems(cfg, e, items), logs[1..], bound);
    }
  }

  /** Two states that look alike after block `b` stay alike from there on. */
  lemma AlikeAfter<S>(cfg: Config<S>, chain: seq<RawLog>, x: Engine<S>, y: Engine<S>, b: nat, next: nat, t: nat)
    requires Ordered(chain) && next == b + 1 && ViewOf(x) == ViewOf(y)
    requires Wf(cfg, x) && Within(x, b) && Wf(cfg, y) && Within(y, b)
    requires Apart(ViewOf(WalkP(cfg, x, LogsIn(chain, next, t))).sources)
    ensures ViewOf(WalkP(cfg, y, LogsIn(chain, next, t))) == ViewOf(WalkP(cfg, x, LogsIn(chain, next, t)))
  {
    var rest := LogsIn(chain, next, t);
    var p, z := Engine(x.store, Persist(x.dyn), x.trace, {}, x.ok), y.(processed := {});
    ForgetAndReload(cfg, chain, x, p, b, next, t);
    ForgetProcessed(cfg, chain, y, next, t);
    WfSnapshotOf(cfg, x.dyn);
    forall c, d, l | c in p.dyn && d in z.dyn && l in rest
      ensures TwinAt(c, d, l)
    {
      LogsInMember(chain, next, t, l);
      assert c.resumed;
    }
    WalksAlike(cfg, p, z, rest);
  }

  lemma SameLogs(was: seq<RawLog>, fork: seq<RawLog>, b: nat, from: nat, to: nat)
    requires Agree(was, fork, b) && to <= b
    ensures LogsIn(was, from, to) == LogsIn(fork, from, to)
  {
    LogsInNested(was, from, to, b);
    LogsInNested(fork, from, to, b);
  }

  lemma SameQuiet(sources: seq<Source>, was: seq<RawLog>, fork: seq<RawLog>, b: nat, t: nat, start: nat)
    requires Agree(was, fork, b) && start <= b + 1
    ensures Quiet(sources, was, t, start) <==> Quiet(sources, fork, t, start)
  {
    forall l: RawLog | l.pos.block <= b
      ensures l in was <==> l in fork
    {
      LogsInMember(was, 0, b, l);
      LogsInMember(fork, 0, b, l);
    }
  }

  /** Up to block `b` the walks of both chains are the same. */
  lemma AgreeHere<S>(cfg: Config<S>, was: seq<RawLog>, fork: seq<RawLog>, first: nat, initial: S, e: Engine<S>,
                     start: nat, b: nat, x: Engine<S>, y: Engine<S>)
    requires Agree(was, fork, b) && first <= b + 1
    requires GoodState(cfg, was, first, initial, e, start) && Behind(cfg, was, e, start, b)
    requires x == Walk(cfg, FreshEngine(initial), LogsIn(fork, first, b)) && y == WalkP(cfg, e, LogsIn(fork, start, b))
    ensures ViewOf(y) == ViewOf(x) && Wf(cfg, y) && Within(y, b)
  {
    SameLogs(was, fork, b, start, b);
    SameLogs(was, fork, b, first, b);
    forall l | l in LogsIn(fork, start, b) ensures l.pos.block <= b { LogsInMember(fork, start, b, l); }
    WalkPWithin(cfg, e, LogsIn(fork, start, b), b);
  }

  lemma AgreeLater<S>(cfg: Config<S>, fork: seq<RawLog>, first: nat, initial: S, e: Engine<S>, start: nat, b: nat,
                      next: nat, t: nat, x: Engine<S>, y: Engine<S>)
    requires Ordered(fork) && WfSources(cfg.statics, []) && ApartChain(cfg, fork, first, initial)
    requires next == b + 1 && first <= next && start <= next && b <= t
    requires x == Walk(cfg, FreshEngine(initial), LogsIn(fork, first, b)) && y == WalkP(cfg, e, LogsIn(fork, start, b))
    requires ViewOf(y) == ViewOf(x) && Wf(cfg, y) && Within(y, b)
    ensures ViewOf(WalkP(cfg, e, LogsIn(fork, start, t))) == Reference(cfg, fork, first, initial, t)
  {
    ReferencePoint(cfg, fork, first, initial, b, x);
    WalkOn(cfg, fork, first, initial, b, next, x, LogsIn(fork, next, t), t);
    AlikeAfter(cfg, fork, x, y, b, next, t);
    WalkInParts(cfg, fork, e, start, b, next, t);
  }

  lemma WalkInParts<S>(cfg: Config<S>, chain: seq<RawLog>, e: Engine<S>, start: nat, b: nat, next: nat, t: nat)
    requires Ordered(chain) && next == b + 1 && start <= next && b <= t
    ensures WalkP(cfg, e, LogsIn(chain, start, t))
         == WalkP(cfg, WalkP(cfg, e, LogsIn(chain, start, b)), LogsIn(chain, next, t))
  {
    LogsInSplit(chain, start, b, t);
    WalkPConcat(cfg, e, LogsIn(chain, start, b), LogsIn(chain, next, t));
  }

  /** A snapshot in good order, finished or not, is in good order for every chain that agrees up to its block. */
  lemma AgreeGood<S>(cfg: Config<S>, was: seq<RawLog>, fork: seq<RawLog>, first: nat, initial: S, s: Snapshot<S>,
                     trace: seq<Item>)
    requires Ordered(was) && Ordered(fork) && WfSources(cfg.statics, []) && ApartChain(cfg, fork, first, initial)
    requires GoodSnapshot(cfg, was, first, initial, s, trace) && Agree(was, fork, s.to)
    ensures GoodSnapshot(cfg, fork, first, initial, s, trace)
  {
    var e, start := StartEngine(initial, Some(s), trace), Origin(s);
    forall t: nat | first <= t + 1 && Behind(cfg, fork, e, start, t)
      ensures ViewOf(WalkP(cfg, e, LogsIn(fork, start, t))) == Reference(cfg, fork, first, initial, t)
    {
      if t <= s.to {
        SameQuiet(cfg.statics + e.dyn, was, fork, s.to, t, start);
        assert Behind(cfg, was, e, start, t);
        SameLogs(was, fork, s.to, start, t);
        SameLogs(was, fork, s.to, first, t);
      } else {
        var x := Walk(cfg, FreshEngine(initial), LogsIn(fork, first, s.to));
        var y := WalkP(cfg, e, LogsIn(fork, start, s.to));
        AgreeHere(cfg, was, fork, first, initial, e, start, s.to, x, y);
        AgreeLater(cfg, fork, first, initial, e, start, s.to, s.to + 1, t, x, y);
      }
    }
    SameQuiet(cfg.statics + e.dyn, was, fork, s.to, s.to, start);
  }

  // ----- the counting handler -----

  /** A counting walk executes every unprocessed item. */
  lemma {:induction false} RestExecuted(statics: seq<Source>, e: Engine<int>, logs: seq<RawLog>, l: RawLog, x: Item)
    returns (k: nat)
    requires e.ok && e.dyn == [] && Ordered(logs) && l in logs && x in Fresh(ItemsAt(statics, l), e.processed)
    ensures var trace := WalkP(Counting(statics), e, logs).trace; |e.trace| <= k < |trace| && trace[k] == x
    decreases logs
  {
    var cfg, items := Counting(statics), FreshAt(Counting(statics), e, logs[0]);
    assert statics + [] == statics;
    var f := WalkItems(cfg, e, items);
    CountItems(statics, e, items);
    SourcesGrow(cfg, f, logs[1..]);
    var trace := WalkP(cfg, e, logs).trace;
    assert trace[..|f.trace|] == f.trace;
    if l == logs[0] {
      var i :| 0 <= i < |items| && items[i] == x;
      k := |e.trace| + i;
      assert trace[k] == trace[..|f.trace|][k] == x;
    } else {
      StillFresh(statics, e, logs, l, x, f);
      k := RestExecuted(statics, f, logs[1..], l, x);
    }
  }

  lemma StillFresh(statics: seq<Source>, e: Engine<int>, logs: seq<RawLog>, l: RawLog, x: Item, f: Engine<int>)
    requires e.dyn == [] && Ordered(logs) && logs != [] && l in logs[1..]
    requires x in Fresh(ItemsAt(statics, l), e.processed)
    requires f == WalkItems(Counting(statics), e, FreshAt(Counting(statics), e, logs[0]))
    ensures x in Fresh(ItemsAt(statics, l), f.processed)
  {
    var k :| 0 <= k < |logs[1..]| && logs[1..][k] == l;
    assert Before(logs[0].pos, logs[k + 1].pos);
    FreshMember(ItemsAt(statics, l), e.processed, x);
    FreshMember(ItemsAt(statics, l), f.processed, x);
    ItemsAtMember(statics, l, x);
    OthersProcessed(Counting(statics), e, FreshAt(Counting(statics), e, logs[0]), logs[0], IdOf(x));
  }

  /** What is left lies at or after the blocks of what has been processed. */
  lemma LeftLater(statics: seq<Source>, chain: seq<RawLog>, first: nat, s: Snapshot<int>, trace: seq<Item>, l: RawLog,
                  x: Item, id: Id)
    requires Ordered(chain) && GoodSnapshot(Counting(statics), chain, first, 0, s, trace) && s.sources == []
    requires !s.complete && l in LogsIn(chain, Origin(s), s.to) && x in Fresh(ItemsAt(statics, l), s.processed)
    requires id in s.processed
    ensures id.pos.block <= l.pos.block
  {
    var e, logs := StartEngine(0, Some(s), trace), LogsIn(chain, Origin(s), s.to);
    LogsInOrdered(chain, Origin(s), s.to);
    ReferenceInOrder(Counting(statics), chain, first, 0, s.to);
    var k := RestExecuted(statics, e, logs, l, x);
    SourcesGrow(Counting(statics), e, logs);
    var all := WalkP(Counting(statics), e, logs).trace;
    var y :| y in e.trace && IdOf(y) == id;
    var i :| 0 <= i < |e.trace| && e.trace[i] == y;
    assert all[i] == all[..|e.trace|][i] == y;
    FreshMember(ItemsAt(statics, l), s.processed, x);
    ItemsAtMember(statics, l, x);
  }

  /** The state that a rollback to the entry leaves, and what it goes on to count. */
  lemma RolledCount(statics: seq<Source>, chain: seq<RawLog>, first: nat, later: Snapshot<int>, s: Snapshot<int>,
                    trace: seq<Item>, start: nat, t: nat)
    requires Ordered(chain) && GoodSnapshot(Counting(statics), chain, first, 0, s, trace) && s.sources == []
    requires !s.complete && start == NextStart(s) && s.to <= t
    ensures Resynced(statics, chain, RolledBack(later, EntryOf(s)), t)
         == s.store + Count(statics, LogsIn(chain, start, t))
    ensures Reference(Counting(statics), chain, first, 0, t).store
         == s.store + Remaining(statics, s.processed, LogsIn(chain, Origin(s), t))
  {
    var e := StartEngine(0, Some(s), trace);
    var y := StartEngine(0, Some(RolledBack(later, EntryOf(s))), []);
    assert Behind(Counting(statics), chain, e, Origin(s), t);
    LogsInOrdered(chain, Origin(s), t);
    CountRemaining(statics, e, LogsIn(chain, Origin(s), t));
    ReloadedCount(statics, chain, y, start, t);
  }

  /** Nothing processed lies past the snapshot's block. */
  lemma ProcessedWithin(statics: seq<Source>, chain: seq<RawLog>, processed: set<Id>, start: nat, b: nat, t: nat)
    requires b <= t && forall id :: id in processed ==> id.pos.block <= b
    ensures SomeProcessed(statics, processed, LogsIn(chain, start, t))
       <==> SomeProcessed(statics, processed, LogsIn(chain, start, b))
  {
    forall l, x | x in ItemsAt(statics, l) && IdOf(x) in processed
      ensures l in LogsIn(chain, start, t) <==> l in LogsIn(chain, start, b)
    {
      ItemsAtMember(statics, l, x);
      LogsInMember(chain, start, t, l);
      LogsInMember(chain, start, b, l);
    }
  }

  /** If the resync misses nothing and counts nothing twice together, it does neither. */
  lemma NoBalance(statics: seq<Source>, chain: seq<RawLog>, first: nat, s: Snapshot<int>, trace: seq<Item>)
    requires Ordered(chain) && GoodSnapshot(Counting(statics), chain, first, 0, s, trace) && s.sources == []
    requires !s.complete && s.from.None?
    ensures Remaining(statics, s.processed, Earlier(chain, s.to)) == 0
            || !SomeProcessed(statics, s.processed, LogsIn(chain, s.to, s.to))
  {
    if Remaining(statics, s.processed, Earlier(chain, s.to)) > 0
       && SomeProcessed(statics, s.processed, LogsIn(chain, s.to, s.to))
    {
      RemainingZero(statics, s.processed, Earlier(chain, s.to));
      var l :| l in Earlier(chain, s.to) && Fresh(ItemsAt(statics, l), s.processed) != [];
      var m, y :| m in LogsIn(chain, s.to, s.to) && y in ItemsAt(statics, m) && IdOf(y) in s.processed;
      EarlierMember(chain, s.to, l);
      LogsInMember(chain, Origin(s), s.to, l);
      LogsInMember(chain, s.to, s.to, m);
      ItemsAtMember(statics, m, y);
      LeftLater(statics, chain, first, s, trace, l, Fresh(ItemsAt(statics, l), s.processed)[0], IdOf(y));
    }
  }

  /** The resync from the entry, at one block: what it counts is right exactly if what was left before its start
      is as much as what was processed after it. */
  lemma BalanceAt(statics: seq<Source>, chain: seq<RawLog>, first: nat, later: Snapshot<int>, s: Snapshot<int>,
                  trace: seq<Item>, start: nat, t: nat, skipped: nat)
    requires Ordered(chain) && GoodSnapshot(Counting(statics), chain, first, 0, s, trace) && s.sources == []
    requires !s.complete && start == NextStart(s) && s.to <= t
    requires skipped == if s.from.None? then Remaining(statics, s.processed, Earlier(chain, s.to)) else 0
    ensures Resynced(statics, chain, RolledBack(later, EntryOf(s)), t)
            == Reference(Counting(statics), chain, first, 0, t).store
            <==> Count(statics, LogsIn(chain, start, t))
                 == skipped + Remaining(statics, s.processed, LogsIn(chain, start, t))
  {
    RolledCount(statics, chain, first, later, s, trace, start, t);
    if s.from.None? {
      EarlierSplit(chain, s.to, t);
      RemainingConcat(statics, s.processed, Earlier(chain, s.to), LogsIn(chain, start, t));
    }
  }

  /** For a counting handler the resync from the entry of an unfinished pass is right exactly when nothing was left
      before the block it starts at, and nothing was processed from there on. */
  lemma StampRedoes(statics: seq<Source>, chain: seq<RawLog>, first: nat, later: Snapshot<int>, s: Snapshot<int>,
                    trace: seq<Item>)
    requires Ordered(chain) && GoodSnapshot(Counting(statics), chain, first, 0, s, trace) && s.sources == []
    requires !s.complete
    ensures NextStart(RolledBack(later, EntryOf(s))) == NextStart(s)
    ensures ResyncsRight(statics, chain, first, RolledBack(later, EntryOf(s)), s.to)
       <==> && LosesNothing(Counting(statics), chain, 0, s)
            && !SomeProcessed(statics, s.processed, LogsIn(chain, NextStart(s), s.to))
  {
    var start := NextStart(s);
    var rolled := RolledBack(later, EntryOf(s));
    var skipped := if s.from.None? then Remaining(statics, s.processed, Earlier(chain, s.to)) else 0;
    forall t: nat | s.to <= t
      ensures Resynced(statics, chain, rolled, t) == Reference(Counting(statics), chain, first, 0, t).store
              <==> Count(statics, LogsIn(chain, start, t))
                   == skipped + Remaining(statics, s.processed, LogsIn(chain, start, t))
      ensures Count(statics, LogsIn(chain, start, t)) == Remaining(statics, s.processed, LogsIn(chain, start, t))
         <==> !SomeProcessed(statics, s.processed, LogsIn(chain, start, s.to))
    {
      BalanceAt(statics, chain, first, later, s, trace, start, t, skipped);
      RemainingLess(statics, s.processed, LogsIn(chain, start, t));
      ProcessedWithin(statics, chain, s.processed, start, s.to, t);
    }
    RemainingLess(statics, s.processed, LogsIn(chain, start, s.to));
    if s.from.None? {
      SkippedNone(statics, chain, StartEngine(0, Some(s), []), s.to);
      NoBalance(statics, chain, first, s, trace);
    }
  }
}
