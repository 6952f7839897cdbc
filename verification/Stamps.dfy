/** The entries of unfinished passes.  A pass that stops early stamps its state with the block it was to reach;
    the entry stays in the history when the sync goes on, and a rollback may pick it. */
module Stamps {
  import opened ChainModel
  import opened Streaming
  import opened Replay
  import opened Resume
  import opened HistoryWindow
  import opened Sync
  import opened Runs
  import opened Counter
  import opened TimeTravel
  import opened Partial

  // ----- the order of what was executed -----

  ghost predicate BlocksInOrder(trace: seq<Item>) {
    forall i, j :: 0 <= i < j < |trace| ==> trace[i].log.pos.block <= trace[j].log.pos.block
  }

  ghost predicate UpToBlock(trace: seq<Item>, block: nat) {
    forall x :: x in trace ==> x.log.pos.block <= block
  }

  lemma {:induction false} ItemsInOrder<S>(cfg: Config<S>, e: Engine<S>, items: seq<Item>, block: nat)
    requires BlocksInOrder(e.trace) && UpToBlock(e.trace, block)
    requires forall x :: x in items ==> x.log.pos.block == block
    ensures var f := WalkItems(cfg, e, items); BlocksInOrder(f.trace) && UpToBlock(f.trace, block)
    decreases items
  {
    if e.ok && items != [] {
      assert items[0] in items;
      var f := Step(cfg, e, items[0]);
      if Clean(cfg, e.store, items[0]) {
        forall i | 0 <= i < |e.trace| ensures e.trace[i].log.pos.block <= block { assert e.trace[i] in e.trace; }
      }
      ItemsInOrder(cfg, f, items[1..], block);
    }
  }

  lemma {:induction false} WalkInOrder<S>(cfg: Config<S>, e: Engine<S>, logs: seq<RawLog>)
    requires Ordered(logs) && BlocksInOrder(e.trace) && (logs != [] ==> UpToBlock(e.trace, logs[0].pos.block))
    ensures BlocksInOrder(Walk(cfg, e, logs).trace)
    decreases logs
  {
    if e.ok && logs != [] {
      ActiveAtLog(cfg, e, logs[0]);
      ItemsInOrder(cfg, e, Active(cfg, e, logs[0]), logs[0].pos.block);
      if |logs| > 1 { assert Before(logs[0].pos, logs[1].pos); }
      WalkInOrder(cfg, WalkItems(cfg, e, Active(cfg, e, logs[0])), logs[1..]);
    }
  }

  /** The reference executes block after block. */
  lemma ReferenceInOrder<S>(cfg: Config<S>, chain: seq<RawLog>, first: nat, initial: S, t: nat)
    requires Ordered(chain)
    ensures BlocksInOrder(Reference(cfg, chain, first, initial, t).trace)
  {
    LogsInOrdered(chain, first, t);
    WalkInOrder(cfg, FreshEngine(initial), LogsIn(chain, first, t));
  }

  // ----- entries recorded on the way are right -----

  /** A pass on its way executes no item in a block before something processed. */
  lemma NothingPast<S>(cfg: Config<S>, chain: seq<RawLog>, first: nat, initial: S, e: Engine<S>, pa: PassArgs,
                       r: Run<S>, block: nat)
    requires Ordered(chain) && GoodState(cfg, chain, first, initial, e, LowerBound(pa.from)) && first <= pa.to + 1
    requires LowerBound(pa.from) <= pa.to && Behind(cfg, chain, e, LowerBound(pa.from), pa.to)
    requires r == Pass(cfg, chain, pa, e) && ExecutedIn(r.eng.trace, |e.trace|, block)
    ensures forall id :: id in e.processed ==> id.pos.block <= block
  {
    PassInOrder(cfg, chain, first, initial, e, pa, r);
    ProcessedBefore(e, r.eng.trace, block);
  }

  lemma ProcessedBefore<S>(e: Engine<S>, trace: seq<Item>, block: nat)
    requires Recorded(e) && BlocksInOrder(trace) && e.trace <= trace && ExecutedIn(trace, |e.trace|, block)
    ensures forall id :: id in e.processed ==> id.pos.block <= block
  {
    var k :| |e.trace| <= k < |trace| && trace[k].log.pos.block == block;
    forall id | id in e.processed
      ensures id.pos.block <= block
    {
      var x :| x in e.trace && IdOf(x) == id;
      var i :| 0 <= i < |e.trace| && e.trace[i] == x;
      assert trace[i] == x;
    }
  }

  /** What has been executed after such a pass came block after block. */
  lemma PassInOrder<S>(cfg: Config<S>, chain: seq<RawLog>, first: nat, initial: S, e: Engine<S>, pa: PassArgs,
                       r: Run<S>)
    requires Ordered(chain) && GoodState(cfg, chain, first, initial, e, LowerBound(pa.from)) && first <= pa.to + 1
    requires LowerBound(pa.from) <= pa.to && Behind(cfg, chain, e, LowerBound(pa.from), pa.to)
    requires r == Pass(cfg, chain, pa, e)
    ensures BlocksInOrder(r.eng.trace) && |e.trace| <= |r.eng.trace| && r.eng.trace[..|e.trace|] == e.trace
  {
    var logs := LogsIn(chain, LowerBound(pa.from), pa.to);
    ContinueStopped(cfg, chain, e, pa, pa.to);
    SourcesGrow(cfg, r.eng, logs);
    PassTraceStarts(cfg, chain, e, pa, r);
    ReferenceInOrder(cfg, chain, first, initial, pa.to);
    PrefixInOrder(Reference(cfg, chain, first, initial, pa.to).trace, r.eng.trace);
  }

  lemma PassTraceStarts<S>(cfg: Config<S>, chain: seq<RawLog>, e: Engine<S>, pa: PassArgs, r: Run<S>)
    requires Ordered(chain) && e.ok && Wf(cfg, e) && r == Pass(cfg, chain, pa, e)
    ensures |e.trace| <= |r.eng.trace| && r.eng.trace[..|e.trace|] == e.trace
  {
    LogsInOrdered(chain, LowerBound(pa.from), pa.to);
    RunContinues(cfg, pa, StartRun(e), PassLogs(chain, pa));
  }

  lemma PrefixInOrder(all: seq<Item>, some: seq<Item>)
    requires BlocksInOrder(all) && |some| <= |all| && all[..|some|] == some
    ensures BlocksInOrder(some)
  {
    forall k | 0 <= k < |some| ensures some[k] == all[k] { }
  }

  /** What a pass on its way records, stopped later or not, is what the reference has at the block. */
  lemma RecordedRight<S>(cfg: Config<S>, chain: seq<RawLog>, first: nat, initial: S, e: Engine<S>, pa: PassArgs,
                         r: Run<S>, x: Entry<S>)
    requires Ordered(chain) && GoodState(cfg, chain, first, initial, e, LowerBound(pa.from)) && first <= pa.to + 1
    requires Behind(cfg, chain, e, LowerBound(pa.from), pa.to)
    requires r == Pass(cfg, chain, pa, e) && x in r.history
    ensures LowerBound(pa.from) <= x.to <= pa.to && At(x) == ReferenceMoment(cfg, chain, first, initial, x.to)
  {
    var start := LowerBound(pa.from);
    var logs := LogsIn(chain, start, pa.to);
    LogsInOrdered(chain, start, pa.to);
    HistoryPushed(cfg, pa, StartRun(e), logs);
    assert x in Pushed(cfg, pa, StartRun(e), logs);
    EntryIsPoint(cfg, pa, StartRun(e), logs, x);
    var m :| m in logs && m.pos.block == x.to;
    LogsInMember(chain, start, pa.to, m);
    EntryExecuted(cfg, pa, StartRun(e), logs, |e.trace|, x);
    NothingPast(cfg, chain, first, initial, e, pa, r, x.to);
    UpToRange(chain, start, x.to, pa.to);
    assert Behind(cfg, chain, e, start, x.to);
  }

  // ----- what the history keeps for a block -----

  /** The entries that a merge leaves for a block before its end: a recorded one, or else what was there. */
  lemma MergedAt<S(!new)>(h: seq<Entry<S>>, previous: Entry<S>, news: seq<Entry<S>>, current: Entry<S>, limit: nat,
                          x: Entry<S>)
    requires Increasing(h) && x.to < current.to && x in PushAll(h, Incoming(Some(previous), news, current), limit)
    ensures x in news || (NotIn(news, x.to) && (x == previous || (x in h && previous.to != x.to)))
  {
    var es := Incoming(Some(previous), news, current);
    StreamingEqualsBatch(h, es, limit);
    assert x in PushAll(h, es, 0);
    LastIncoming(previous, news, current, es, x);
  }

  lemma LastIncoming<S>(previous: Entry<S>, news: seq<Entry<S>>, current: Entry<S>, es: seq<Entry<S>>, x: Entry<S>)
    requires es == Incoming(Some(previous), news, current) && x.to < current.to
    ensures LastFor(es, x) ==> x in news || (x == previous && NotIn(news, x.to))
    ensures NotIn(es, x.to) ==> NotIn(news, x.to) && previous.to != x.to
  {
    assert es == [previous] + news + [current] && es[0] == previous;
    forall i | 0 <= i < |news| ensures es[i + 1] == news[i] { }
    if LastFor(es, x) {
      var k :| 0 <= k < |es| && es[k] == x && forall j :: k < j < |es| ==> es[j].to != x.to;
      if k > 0 { assert news[k - 1] == x; }
    }
  }

  /** The snapshot answers for block `b` with this moment, as its checkpoint or from its history. */
  ghost predicate Holds<S>(s: Snapshot<S>, b: nat, m: Moment<S>) {
    && Increasing(s.history) && b <= s.to && (s.to == b ==> Moment(s.store, s.sources) == m)
    && (b < s.to ==> forall x :: x in s.history && x.to == b ==> At(x) == m)
  }

  /** The cycle stores something, and its pass records an entry for the block. */
  ghost predicate Records<S>(cfg: Config<S>, initial: S, chain: seq<RawLog>, st: Stored<S>, args: SyncArgs, fails: bool,
                             b: nat)
  {
    && Cycle(cfg, initial, chain, st, args, fails) != st
    && exists x :: x in PassOf(cfg, initial, chain, st, args).history && x.to == b
  }

  function PassOf<S>(cfg: Config<S>, initial: S, chain: seq<RawLog>, st: Stored<S>, args: SyncArgs): Run<S> {
    Pass(cfg, chain, PassArgsFor(args, st.snapshot), StartEngine(initial, st.snapshot, st.trace))
  }

  /** One cycle that stores nothing, or ends past block `b`. */
  lemma CycleHolds<S(!new)>(cfg: Config<S>, chain: seq<RawLog>, first: nat, initial: S, st: Stored<S>, args: SyncArgs,
                            fails: bool, hash: nat -> nat, b: nat, m: Moment<S>, next: Stored<S>)
    requires Ordered(chain) && Sound(cfg, chain, first, initial, st, hash) && !args.reset && Honest(args, hash)
    requires Forward(cfg, initial, chain, st, args, first) && next == Cycle(cfg, initial, chain, st, args, fails)
    requires st.snapshot.Some? && Holds(st.snapshot.value, b, m)
    requires next != st ==> next.snapshot.Some? && b < next.snapshot.value.to
    ensures next.snapshot.Some?
    ensures var recorded := Records(cfg, initial, chain, st, args, fails, b);
            Holds(next.snapshot.value, b, if recorded then ReferenceMoment(cfg, chain, first, initial, b) else m)
  {
    if next != st {
      var pa, e, r := CycleReady(cfg, chain, first, initial, st, args, fails, hash);
      MergedHolds(cfg, chain, first, initial, st.snapshot.value, args, pa, e, r, next.snapshot.value, b, m);
    }
  }

  lemma MergedHolds<S(!new)>(cfg: Config<S>, chain: seq<RawLog>, first: nat, initial: S, s: Snapshot<S>, args: SyncArgs,
                             pa: PassArgs, e: Engine<S>, r: Run<S>, next: Snapshot<S>, b: nat, m: Moment<S>)
    requires Ordered(chain) && GoodState(cfg, chain, first, initial, e, LowerBound(pa.from)) && first <= pa.to + 1
    requires Behind(cfg, chain, e, LowerBound(pa.from), pa.to) && r == Pass(cfg, chain, pa, e)
    requires next == NextSnapshot(Some(s), args, pa, RunOf(r)) && Holds(s, b, m) && b < pa.to
    ensures var recorded := exists x :: x in r.history && x.to == b;
            Holds(next, b, if recorded then ReferenceMoment(cfg, chain, first, initial, b) else m)
  {
    var previous, current := EntryOf(s), EntryOf(next);
    StreamingEqualsBatch(s.history, Incoming(Some(previous), r.history, current), args.historyLimit);
    forall x | x in next.history && x.to == b
      ensures x in r.history ==> At(x) == ReferenceMoment(cfg, chain, first, initial, b)
      ensures x !in r.history ==> At(x) == m && NotIn(r.history, b)
    {
      MergedAt(s.history, previous, r.history, current, args.historyLimit, x);
      if x in r.history { RecordedRight(cfg, chain, first, initial, e, pa, r, x); }
    }
  }

  // ----- runs of later cycles -----

  /** Every cycle that stores something ends past block `b`. */
  ghost predicate EndsPast<S>(cfg: Config<S>, initial: S, chain: seq<RawLog>, st: Stored<S>,
                              runs: seq<(SyncArgs, bool)>, b: nat)
    decreases runs
  {
    runs == [] ||
    var next := Cycle(cfg, initial, chain, st, runs[0].0, runs[0].1);
    && (next != st ==> next.snapshot.Some? && b < next.snapshot.value.to)
    && EndsPast(cfg, initial, chain, next, runs[1..], b)
  }

  /** Some pass of the run records an entry for block `b` again. */
  ghost predicate RecordsAgain<S>(cfg: Config<S>, initial: S, chain: seq<RawLog>, st: Stored<S>,
                                  runs: seq<(SyncArgs, bool)>, b: nat)
    decreases runs
  {
    runs != [] &&
    (Records(cfg, initial, chain, st, runs[0].0, runs[0].1, b)
     || RecordsAgain(cfg, initial, chain, Cycle(cfg, initial, chain, st, runs[0].0, runs[0].1), runs[1..], b))
  }

  lemma {:induction false} CyclesHold<S(!new)>(cfg: Config<S>, chain: seq<RawLog>, first: nat, initial: S,
                                               st: Stored<S>, runs: seq<(SyncArgs, bool)>, hash: nat -> nat, b: nat,
                                               m: Moment<S>)
    requires Ordered(chain) && Regular(cfg, initial, chain, st, runs, first)
    requires Sound(cfg, chain, first, initial, st, hash) && Steady(cfg, initial, chain, st, runs, first, hash)
    requires EndsPast(cfg, initial, chain, st, runs, b) && st.snapshot.Some? && Holds(st.snapshot.value, b, m)
    ensures var end := Cycles(cfg, initial, chain, st, runs).snapshot;
            var again := RecordsAgain(cfg, initial, chain, st, runs, b);
            && end.Some?
            && Holds(end.value, b, if again then ReferenceMoment(cfg, chain, first, initial, b) else m)
    decreases runs
  {
    if runs != [] {
      var args, fails := runs[0].0, runs[0].1;
      var next := Cycle(cfg, initial, chain, st, args, fails);
      RegularNext(cfg, initial, chain, st, runs, first, next);
      CycleHolds(cfg, chain, first, initial, st, args, fails, hash, b, m, next);
      CycleKeepsGood(cfg, chain, first, initial, st, args, fails, hash);
      var recorded := Records(cfg, initial, chain, st, args, fails, b);
      CyclesHold(cfg, chain, first, initial, next, runs[1..], hash, b,
                 if recorded then ReferenceMoment(cfg, chain, first, initial, b) else m);
    }
  }

  // ----- queries that read the entry -----

  /** A query at block `n` reads what is kept for block `b`. */
  ghost predicate Reads<S>(s: Snapshot<S>, n: nat, b: nat) {
    && n <= s.to
    && if n == s.to then s.to == b else FindAt(s.history, n).Some? && FindAt(s.history, n).value.to == b
  }

  lemma {:induction false} FindAtMember<S>(h: seq<Entry<S>>, n: nat)
    ensures FindAt(h, n).Some? ==> FindAt(h, n).value in h && FindAt(h, n).value.to <= n
    decreases h
  {
    if h != [] && h[|h| - 1].to > n {
      FindAtMember(h[..|h| - 1], n);
    }
  }

  lemma ReadsHeld<S>(s: Snapshot<S>, initial: S, n: nat, b: nat, m: Moment<S>)
    requires Holds(s, b, m) && Reads(s, n, b)
    ensures SelectAt(s, initial, n) == Ok(m)
  {
    FindAtMember(s.history, n);
  }

  /** Nothing up to block `n` is left to execute. */
  ghost predicate NothingLeftUpTo<S>(cfg: Config<S>, chain: seq<RawLog>, initial: S, s: Snapshot<S>, trace: seq<Item>,
                                     n: nat)
  {
    forall l :: l in LogsIn(chain, Origin(s), n) ==> FreshAt(cfg, StartEngine(initial, Some(s), trace), l) == []
  }

  /** What a snapshot holds is right for a block from its own on if nothing up to that block is left to execute. */
  lemma StampRight<S>(cfg: Config<S>, chain: seq<RawLog>, first: nat, initial: S, s: Snapshot<S>, trace: seq<Item>,
                      n: nat)
    requires GoodSnapshot(cfg, chain, first, initial, s, trace) && s.to <= n
    requires NothingLeftUpTo(cfg, chain, initial, s, trace, n)
    ensures ReferenceMoment(cfg, chain, first, initial, n) == Moment(s.store, s.sources)
  {
    var e := StartEngine(initial, Some(s), trace);
    assert Behind(cfg, chain, e, Origin(s), n);
    IdleWalk(cfg, e, LogsIn(chain, Origin(s), n));
    PersistIdem(e.dyn);
  }

  /** For a counting handler, only then. */
  lemma StampRightExact(statics: seq<Source>, chain: seq<RawLog>, first: nat, s: Snapshot<int>, trace: seq<Item>,
                        n: nat)
    requires Ordered(chain) && GoodSnapshot(Counting(statics), chain, first, 0, s, trace) && s.sources == []
    requires s.to <= n
    ensures ReferenceMoment(Counting(statics), chain, first, 0, n) == Moment(s.store, [])
            <==> NothingLeftUpTo(Counting(statics), chain, 0, s, trace, n)
  {
    var e := StartEngine(0, Some(s), trace);
    var logs := LogsIn(chain, Origin(s), n);
    assert statics + [] == statics;
    assert Behind(Counting(statics), chain, e, Origin(s), n);
    if NothingLeftUpTo(Counting(statics), chain, 0, s, trace, n) {
      StampRight(Counting(statics), chain, first, 0, s, trace, n);
    }
    LogsInOrdered(chain, Origin(s), n);
    CountRemaining(statics, e, logs);
    RemainingZero(statics, e.processed, logs);
    forall l ensures FreshAt(Counting(statics), e, l) == Fresh(ItemsAt(statics, l), e.processed) { }
  }

  /** Where later cycles of a deployment go on from the snapshot, ending past its block. */
  ghost predicate GoesOn<S>(cfg: Config<S>, chain: seq<RawLog>, first: nat, initial: S, st: Stored<S>,
                            runs: seq<(SyncArgs, bool)>, hash: nat -> nat)
  {
    && Regular(cfg, initial, chain, st, runs, first) && Sound(cfg, chain, first, initial, st, hash)
    && Steady(cfg, initial, chain, st, runs, first, hash) && st.snapshot.Some? && Increasing(st.snapshot.value.history)
    && EndsPast(cfg, initial, chain, st, runs, st.snapshot.value.to)
  }

  /** Later queries.  However the sync goes on, a query that reads what is kept for the snapshot's block reads the
      snapshot's state, or the state of the reference if a later pass has recorded the block again. */
  lemma LaterAnswer<S(!new)>(cfg: Config<S>, chain: seq<RawLog>, first: nat, initial: S, st: Stored<S>,
                             runs: seq<(SyncArgs, bool)>, hash: nat -> nat, n: nat)
    requires Ordered(chain) && GoesOn(cfg, chain, first, initial, st, runs, hash)
    ensures var s, end := st.snapshot.value, Cycles(cfg, initial, chain, st, runs).snapshot;
            && end.Some?
            && (Reads(end.value, n, s.to) ==>
                  SelectAt(end.value, initial, n)
                  == Ok(if RecordsAgain(cfg, initial, chain, st, runs, s.to)
                        then ReferenceMoment(cfg, chain, first, initial, s.to) else Moment(s.store, s.sources)))
  {
    var s, end := st.snapshot.value, Cycles(cfg, initial, chain, st, runs).snapshot;
    var held, again := Moment(s.store, s.sources), RecordsAgain(cfg, initial, chain, st, runs, s.to);
    CyclesHold(cfg, chain, first, initial, st, runs, hash, s.to, held);
    if Reads(end.value, n, s.to) {
      ReadsHeld(end.value, initial, n, s.to, if again then ReferenceMoment(cfg, chain, first, initial, s.to) else held);
    }
  }

  /** As long as no cycle drops entries, a query at the snapshot's block reads what is kept for it. */
  ghost predicate Has<S>(s: Snapshot<S>, b: nat) {
    b == s.to || (b < s.to && exists x :: x in s.history && x.to == b)
  }

  lemma {:induction false} BlockKept<S>(h: seq<Entry<S>>, es: seq<Entry<S>>, b: nat)
    requires Increasing(h) && exists x :: (x in h || x in es) && x.to == b
    ensures exists x :: x in PushAll(h, es, 0) && x.to == b
    decreases es
  {
    if es != [] {
      PushStep(h, es[0], 0);
      var x :| (x in h || x in es) && x.to == b;
      PlaceMember(h, es[0], es[0]);
      if x in h && x.to != es[0].to { PlaceMember(h, es[0], x); }
      BlockKept(Push(h, es[0], 0), es[1..], b);
    }
  }

  lemma CycleHas<S(!new)>(cfg: Config<S>, initial: S, chain: seq<RawLog>, st: Stored<S>, args: SyncArgs, fails: bool,
                          hash: nat -> nat, b: nat, next: Stored<S>)
    requires !args.reset && Honest(args, hash) && args.historyLimit == 0 && st.snapshot.Some?
    requires KnownHash(st.snapshot.value, hash) && Increasing(st.snapshot.value.history) && Has(st.snapshot.value, b)
    requires next == Cycle(cfg, initial, chain, st, args, fails)
    requires next != st ==> next.snapshot.Some? && b < next.snapshot.value.to
    ensures next.snapshot.Some? && Increasing(next.snapshot.value.history) && Has(next.snapshot.value, b)
  {
    if next != st {
      var s := st.snapshot.value;
      var pa, e, r := CycleStores(cfg, initial, chain, st, args, fails, hash);
      var es := Incoming(Some(EntryOf(s)), r.history, EntryOf(next.snapshot.value));
      StreamingEqualsBatch(s.history, es, 0);
      assert es[0] == EntryOf(s) && EntryOf(s) in es;
      BlockKept(s.history, es, b);
    }
  }

  lemma {:induction false} CyclesHave<S(!new)>(cfg: Config<S>, chain: seq<RawLog>, first: nat, initial: S,
                                               st: Stored<S>, runs: seq<(SyncArgs, bool)>, hash: nat -> nat, b: nat)
    requires Ordered(chain) && Regular(cfg, initial, chain, st, runs, first)
    requires Sound(cfg, chain, first, initial, st, hash) && Steady(cfg, initial, chain, st, runs, first, hash)
    requires EndsPast(cfg, initial, chain, st, runs, b) && Unlimited(runs) && st.snapshot.Some?
    requires Increasing(st.snapshot.value.history) && Has(st.snapshot.value, b)
    ensures var end := Cycles(cfg, initial, chain, st, runs).snapshot;
            end.Some? && Increasing(end.value.history) && Has(end.value, b)
    decreases runs
  {
    if runs != [] {
      var next := Cycle(cfg, initial, chain, st, runs[0].0, runs[0].1);
      RegularNext(cfg, initial, chain, st, runs, first, next);
      CycleHas(cfg, initial, chain, st, runs[0].0, runs[0].1, hash, b, next);
      CycleKeepsGood(cfg, chain, first, initial, st, runs[0].0, runs[0].1, hash);
      CyclesHave(cfg, chain, first, initial, next, runs[1..], hash, b);
    }
  }

  lemma EntryStays<S(!new)>(cfg: Config<S>, chain: seq<RawLog>, first: nat, initial: S, st: Stored<S>,
                            runs: seq<(SyncArgs, bool)>, hash: nat -> nat)
    requires Ordered(chain) && GoesOn(cfg, chain, first, initial, st, runs, hash) && Unlimited(runs)
    ensures var b, end := st.snapshot.value.to, Cycles(cfg, initial, chain, st, runs).snapshot;
            end.Some? && Reads(end.value, b, b)
  {
    var b := st.snapshot.value.to;
    CyclesHave(cfg, chain, first, initial, st, runs, hash, b);
    var end := Cycles(cfg, initial, chain, st, runs).snapshot.value;
    if b < end.to {
      var x :| x in end.history && x.to == b;
      var k :| 0 <= k < |end.history| && end.history[k] == x;
      FoundThere(end.history, k);
    }
  }

  /** So such a query at the snapshot's block is right if a later pass has recorded the block again, or nothing up
      to it was left to execute. */
  lemma LaterAnswerRight<S(!new)>(cfg: Config<S>, chain: seq<RawLog>, first: nat, initial: S, st: Stored<S>,
                                  runs: seq<(SyncArgs, bool)>, hash: nat -> nat)
    requires Ordered(chain) && GoesOn(cfg, chain, first, initial, st, runs, hash)
    requires var s, end := st.snapshot.value, Cycles(cfg, initial, chain, st, runs).snapshot;
             end.Some? ==> Reads(end.value, s.to, s.to)
    requires RecordsAgain(cfg, initial, chain, st, runs, st.snapshot.value.to)
             || NothingLeftUpTo(cfg, chain, initial, st.snapshot.value, st.trace, st.snapshot.value.to)
    ensures var s, end := st.snapshot.value, Cycles(cfg, initial, chain, st, runs).snapshot;
            end.Some? && SelectAt(end.value, initial, s.to) == Ok(ReferenceMoment(cfg, chain, first, initial, s.to))
  {
    var s := st.snapshot.value;
    LaterAnswer(cfg, chain, first, initial, st, runs, hash, s.to);
    if NothingLeftUpTo(cfg, chain, initial, s, st.trace, s.to) {
      StampRight(cfg, chain, first, initial, s, st.trace, s.to);
    }
  }

  /** For a counting handler, only then; and at a later block that still reads the entry, only if nothing up to that
      block was left, or had come since the entry was recorded again. */
  lemma LaterAnswerExact(statics: seq<Source>, chain: seq<RawLog>, first: nat, st: Stored<int>,
                         runs: seq<(SyncArgs, bool)>, hash: nat -> nat, n: nat)
    requires Ordered(chain) && GoesOn(Counting(statics), chain, first, 0, st, runs, hash)
    requires st.snapshot.value.sources == [] && st.snapshot.value.to <= n
    requires var s, end := st.snapshot.value, Cycles(Counting(statics), 0, chain, st, runs).snapshot;
             end.Some? ==> Reads(end.value, n, s.to)
    ensures var cfg, s := Counting(statics), st.snapshot.value;
            var end := Cycles(cfg, 0, chain, st, runs).snapshot;
            && end.Some?
            && (SelectAt(end.value, 0, n) == Ok(ReferenceMoment(cfg, chain, first, 0, n))
                <==> if RecordsAgain(cfg, 0, chain, st, runs, s.to)
                     then forall l :: l in LogsIn(chain, s.to + 1, n) ==> ItemsAt(statics, l) == []
                     else NothingLeftUpTo(cfg, chain, 0, s, st.trace, n))
  {
    LaterAnswer(Counting(statics), chain, first, 0, st, runs, hash, n);
    StampRightExact(statics, chain, first, st.snapshot.value, st.trace, n);
    StayExact(statics, chain, first, st, hash, n);
  }

  lemma StayExact(statics: seq<Source>, chain: seq<RawLog>, first: nat, st: Stored<int>, hash: nat -> nat, n: nat)
    requires Ordered(chain) && Sound(Counting(statics), chain, first, 0, st, hash) && st.snapshot.Some?
    requires st.snapshot.value.to <= n
    ensures var cfg, b := Counting(statics), st.snapshot.value.to;
            ReferenceMoment(cfg, chain, first, 0, b) == ReferenceMoment(cfg, chain, first, 0, n)
            <==> forall l :: l in LogsIn(chain, b + 1, n) ==> ItemsAt(statics, l) == []
  {
    SameCount(statics, chain, first, st.snapshot.value.to, st.snapshot.value.to + 1, n);
  }

  /** The counting reference stays where it is exactly as long as there is nothing to count. */
  lemma SameCount(statics: seq<Source>, chain: seq<RawLog>, first: nat, b: nat, next: nat, n: nat)
    requires Ordered(chain) && first <= next && next == b + 1 && b <= n
    ensures ReferenceMoment(Counting(statics), chain, first, 0, b)
            == ReferenceMoment(Counting(statics), chain, first, 0, n)
            <==> forall l :: l in LogsIn(chain, next, n) ==> ItemsAt(statics, l) == []
  {
    ReferenceCount(statics, chain, first, b);
    ReferenceCount(statics, chain, first, n);
    CountSplit(statics, chain, first, b, next, n);
    CountZero(statics, LogsIn(chain, next, n));
  }
}
