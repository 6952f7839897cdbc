/** Queries into the history of any run of cycles, finished or not.  Every block in which something was executed
    has an entry; what an entry answers is right unless an unfinished pass stamped it too far. */
module AnyTravel {
  import opened ChainModel
  import opened Streaming
  import opened Replay
  import opened Resume
  import opened HistoryWindow
  import opened Sync
  import opened Runs
  import opened TimeTravel
  import opened Counter
  import opened Bounds
  import opened Reload
  import opened Partial
  import opened Stamps

  // ----- what a pass executes, it records -----

  /** A block is open when the run has executed something in it and its logs go on. */
  predicate Open<S>(r: Run<S>, logs: seq<RawLog>, c: nat) {
    r.last == Some(c) && logs != [] && logs[0].pos.block == c
  }

  /** A run of one log's items: it is not stopped by its limit once something ran in the block. */
  lemma {:induction false} ItemsOfBlock<S>(cfg: Config<S>, args: PassArgs, r: Run<S>, items: seq<Item>, b: nat)
    requires r.halt == Running && (args.limit == 0 ==> r.last.None?)
    requires forall x :: x in items ==> x.log.pos.block == b
    ensures var s := RunItems(cfg, args, r, items);
            && (s.halt == Running ==> s.last == if items == [] then r.last else Some(b))
            && (args.limit == 0 ==> s.last.None?)
            && (s.halt == Limited ==> s.eng == r.eng && r.last != Some(b))
            && r.eng.trace <= s.eng.trace
            && forall k :: |r.eng.trace| <= k < |s.eng.trace| ==> s.eng.trace[k].log.pos.block == b
    decreases items
  {
    if items != [] {
      assert items[0] in items;
      var s := RunItem(cfg, args, r, items[0]);
      if s.halt == Running { ItemsOfBlock(cfg, args, s, items[1..], b); }
    }
  }

  /** A run executes items of its logs' blocks only, in their order. */
  lemma {:induction false} LogsBlocks<S>(cfg: Config<S>, args: PassArgs, r: Run<S>, logs: seq<RawLog>, least: nat)
    requires r.halt == Running && (args.limit == 0 ==> r.last.None?)
    requires forall l :: l in logs ==> least <= l.pos.block
    ensures var s := RunLogs(cfg, args, r, logs);
            && r.eng.trace <= s.eng.trace
            && forall k :: |r.eng.trace| <= k < |s.eng.trace| ==> least <= s.eng.trace[k].log.pos.block
    decreases logs
  {
    if logs != [] {
      var items := FreshAt(cfg, r.eng, logs[0]);
      ActiveAtLog(cfg, r.eng, logs[0]);
      assert logs[0] in logs;
      ItemsOfBlock(cfg, args, r, items, logs[0].pos.block);
      var s := RunItems(cfg, args, r, items);
      if s.halt == Running {
        CloseChanges(args, s, logs);
        LogsBlocks(cfg, args, Close(args, s, logs), logs[1..], least);
      }
    }
  }

  /** The block gets an entry, or the walk fails no later than in it. */
  ghost predicate Settled<S>(cfg: Config<S>, args: PassArgs, r: Run<S>, logs: seq<RawLog>, c: nat) {
    (exists x :: x in Pushed(cfg, args, r, logs) && x.to == c) || !WalkP(cfg, r.eng, UpToLogs(logs, c)).ok
  }

  /** One log of a run that goes on after it. */
  lemma SettledStep<S>(cfg: Config<S>, args: PassArgs, r: Run<S>, logs: seq<RawLog>, c: nat, s: Run<S>, n: Run<S>)
    requires logs != [] && r.halt == Running && r.eng.ok && logs[0].pos.block <= c
    requires s == RunItems(cfg, args, r, FreshAt(cfg, r.eng, logs[0])) && s.halt == Running
    requires s.eng == WalkItems(cfg, r.eng, FreshAt(cfg, r.eng, logs[0])) && n == Close(args, s, logs)
    requires n.eng == s.eng && (Settled(cfg, args, n, logs[1..], c) || (n != s && logs[0].pos.block == c))
    ensures Settled(cfg, args, r, logs, c)
  {
    UpToStep(cfg, r.eng, logs, c, s.eng);
    if n != s && logs[0].pos.block == c {
      assert BlockEntry(args, s.eng, c) in Pushed(cfg, args, r, logs);
    } else if x :| x in Pushed(cfg, args, n, logs[1..]) && x.to == c {
      assert x in Pushed(cfg, args, r, logs);
    }
  }

  /** One log at which the run fails. */
  lemma SettledStop<S>(cfg: Config<S>, args: PassArgs, r: Run<S>, logs: seq<RawLog>, c: nat)
    requires logs != [] && r.halt == Running && r.eng.ok && logs[0].pos.block <= c
    requires var s := RunItems(cfg, args, r, FreshAt(cfg, r.eng, logs[0])); s.halt == Invalid || s.halt == Trapped
    ensures Settled(cfg, args, r, logs, c)
  {
    var items := FreshAt(cfg, r.eng, logs[0]);
    StoppedItems(cfg, args, r, items);
    UpToStep(cfg, r.eng, logs, c, WalkItems(cfg, r.eng, items));
  }

  /** Something runs in block `c`, or has run and the block goes on. */
  ghost predicate RunsIn<S>(cfg: Config<S>, args: PassArgs, r: Run<S>, logs: seq<RawLog>, c: nat) {
    Open(r, logs, c) || ExecutedIn(RunLogs(cfg, args, r, logs).eng.trace, |r.eng.trace|, c)
  }

  lemma RunsLater<S>(cfg: Config<S>, args: PassArgs, r: Run<S>, logs: seq<RawLog>, c: nat)
    requires r.halt == Running && Ordered(logs) && (args.limit == 0 ==> r.last.None?) && logs != []
    requires RunsIn(cfg, args, r, logs, c)
    ensures logs[0].pos.block <= c
  {
    if !Open(r, logs, c) {
      forall l | l in logs
        ensures logs[0].pos.block <= l.pos.block
      {
        var k :| 0 <= k < |logs| && logs[k] == l;
        assert k > 0 ==> Before(logs[0].pos, logs[k].pos);
      }
      LogsBlocks(cfg, args, r, logs, logs[0].pos.block);
    }
  }

  /** One log: the run fails there, or the block ends there and gets its entry, or it goes on in the later logs. */
  lemma RunsOn<S>(cfg: Config<S>, args: PassArgs, r: Run<S>, logs: seq<RawLog>, c: nat, s: Run<S>, n: Run<S>)
    requires r.halt == Running && (args.limit == 0 ==> r.last.None?) && logs != [] && RunsIn(cfg, args, r, logs, c)
    requires s == RunItems(cfg, args, r, FreshAt(cfg, r.eng, logs[0])) && n == Close(args, s, logs)
    ensures s.halt != Running ==> s.halt == Invalid || s.halt == Trapped
    ensures s.halt == Running ==>
              && n.halt == Running && n.eng == s.eng && n.last == s.last && (args.limit == 0 ==> n.last.None?)
              && ((n != s && logs[0].pos.block == c) || RunsIn(cfg, args, n, logs[1..], c))
  {
    var items, b := FreshAt(cfg, r.eng, logs[0]), logs[0].pos.block;
    ActiveAtLog(cfg, r.eng, logs[0]);
    ItemsOfBlock(cfg, args, r, items, b);
    CloseChanges(args, s, logs);
    assert RunLogs(cfg, args, r, logs) == RunLogs(cfg, args, n, logs[1..]);
    if !Open(r, logs, c) {
      var k :| |r.eng.trace| <= k < |RunLogs(cfg, args, r, logs).eng.trace|
               && RunLogs(cfg, args, r, logs).eng.trace[k].log.pos.block == c;
      if s.halt == Running {
        LogsBlocks(cfg, args, n, logs[1..], 0);
        if k < |s.eng.trace| { RunNothing(cfg, args, r); }
      }
    }
  }

  lemma RunNothing<S>(cfg: Config<S>, args: PassArgs, r: Run<S>)
    ensures RunItems(cfg, args, r, []) == r
  {
  }

  /** So every block in which a run executes something gets an entry, unless the walk fails by then. */
  lemma {:induction false} ExecutedSettled<S>(cfg: Config<S>, args: PassArgs, r: Run<S>, logs: seq<RawLog>, c: nat)
    requires r.halt == Running && r.eng.ok && Ordered(logs) && (args.limit == 0 ==> r.last.None?)
    requires RunsIn(cfg, args, r, logs, c)
    ensures Settled(cfg, args, r, logs, c)
    decreases logs
  {
    if logs != [] {
      var s := RunItems(cfg, args, r, FreshAt(cfg, r.eng, logs[0]));
      var n := Close(args, s, logs);
      RunsLater(cfg, args, r, logs, c);
      RunsOn(cfg, args, r, logs, c, s, n);
      if s.halt != Running {
        SettledStop(cfg, args, r, logs, c);
      } else {
        StoppedItems(cfg, args, r, FreshAt(cfg, r.eng, logs[0]));
        if n == s || logs[0].pos.block != c { ExecutedSettled(cfg, args, n, logs[1..], c); }
        SettledStep(cfg, args, r, logs, c, s, n);
      }
    }
  }

  lemma {:induction false} WalkUpTo<S>(cfg: Config<S>, e: Engine<S>, logs: seq<RawLog>, bound: nat)
    requires UpToBlock(e.trace, bound) && forall l :: l in logs ==> l.pos.block <= bound
    ensures UpToBlock(Walk(cfg, e, logs).trace, bound)
    decreases logs
  {
    if e.ok && logs != [] {
      ActiveAtLog(cfg, e, logs[0]);
      assert logs[0] in logs;
      ItemsUpTo(cfg, e, Active(cfg, e, logs[0]), bound);
      WalkUpTo(cfg, WalkItems(cfg, e, Active(cfg, e, logs[0])), logs[1..], bound);
    }
  }

  lemma {:induction false} ItemsUpTo<S>(cfg: Config<S>, e: Engine<S>, items: seq<Item>, bound: nat)
    requires UpToBlock(e.trace, bound) && UpToBlock(items, bound)
    ensures UpToBlock(WalkItems(cfg, e, items).trace, bound)
    decreases items
  {
    if e.ok && items != [] {
      assert items[0] in items;
      ItemsUpTo(cfg, Step(cfg, e, items[0]), items[1..], bound);
    }
  }

  lemma ReferenceUpTo<S>(cfg: Config<S>, chain: seq<RawLog>, first: nat, initial: S, t: nat)
    ensures UpToBlock(Reference(cfg, chain, first, initial, t).trace, t)
  {
    forall l | l in LogsIn(chain, first, t) ensures l.pos.block <= t { LogsInMember(chain, first, t, l); }
    WalkUpTo(cfg, FreshEngine(initial), LogsIn(chain, first, t), t);
  }

  /** A pass on its way gives every block in which it executes something an entry, if the reference gets past it. */
  lemma PassRecords<S>(cfg: Config<S>, chain: seq<RawLog>, first: nat, initial: S, e: Engine<S>, pa: PassArgs,
                       r: Run<S>, c: nat)
    requires Ordered(chain) && GoodState(cfg, chain, first, initial, e, LowerBound(pa.from)) && first <= pa.to + 1
    requires Behind(cfg, chain, e, LowerBound(pa.from), pa.to) && r == Pass(cfg, chain, pa, e)
    requires ExecutedIn(r.eng.trace, |e.trace|, c) && Reference(cfg, chain, first, initial, c).ok
    ensures exists x :: x in r.history && x.to == c
  {
    var start := LowerBound(pa.from);
    var logs := LogsIn(chain, start, pa.to);
    if pa.to < start { BackwardPass(cfg, chain, e, pa); }
    LogsInOrdered(chain, start, pa.to);
    forall l | l in logs ensures start <= l.pos.block { LogsInMember(chain, start, pa.to, l); }
    LogsBlocks(cfg, pa, StartRun(e), logs, start);
    ExecutedBefore(cfg, chain, first, initial, e, pa, r, c);
    NothingPast(cfg, chain, first, initial, e, pa, r, c);
    ExecutedSettled(cfg, pa, StartRun(e), logs, c);
    UpToRange(chain, start, c, pa.to);
    assert Behind(cfg, chain, e, start, c);
    HistoryPushed(cfg, pa, StartRun(e), logs);
  }

  lemma ExecutedBefore<S>(cfg: Config<S>, chain: seq<RawLog>, first: nat, initial: S, e: Engine<S>, pa: PassArgs,
                          r: Run<S>, c: nat)
    requires Ordered(chain) && GoodState(cfg, chain, first, initial, e, LowerBound(pa.from)) && first <= pa.to + 1
    requires LowerBound(pa.from) <= pa.to && Behind(cfg, chain, e, LowerBound(pa.from), pa.to)
    requires r == Pass(cfg, chain, pa, e) && ExecutedIn(r.eng.trace, |e.trace|, c)
    ensures c <= pa.to
  {
    var logs := LogsIn(chain, LowerBound(pa.from), pa.to);
    ContinueStopped(cfg, chain, e, pa, pa.to);
    SourcesGrow(cfg, r.eng, logs);
    ReferenceUpTo(cfg, chain, first, initial, pa.to);
    var all := Reference(cfg, chain, first, initial, pa.to).trace;
    var k :| |e.trace| <= k < |r.eng.trace| && r.eng.trace[k].log.pos.block == c;
    assert r.eng.trace[k] == all[..|r.eng.trace|][k] && all[k] in all;
  }

  // ----- what a run of cycles has in its history -----

  /** Every block in which something was executed has an entry, if the reference gets past it; and so has the
      checkpoint. */
  ghost predicate Logbook<S(!new)>(cfg: Config<S>, chain: seq<RawLog>, first: nat, initial: S, st: Stored<S>) {
    st.snapshot.Some? ==>
      var h := st.snapshot.value.history;
      && Increasing(h) && EntryOf(st.snapshot.value) in h
      && forall y :: y in st.trace && Reference(cfg, chain, first, initial, y.log.pos.block).ok ==>
           HasEntry(h, y.log.pos.block)
  }

  ghost predicate HasEntry<S>(h: seq<Entry<S>>, b: nat) {
    exists x :: x in h && x.to == b
  }

  /** What a cycle pushes, on what was there before. */
  function Prior<S>(st: Stored<S>): seq<Entry<S>> {
    if st.snapshot.Some? then st.snapshot.value.history else []
  }

  function Pushes<S>(st: Stored<S>, r: Run<S>, next: Snapshot<S>): seq<Entry<S>> {
    Incoming(if st.snapshot.Some? then Some(EntryOf(st.snapshot.value)) else None, r.history, EntryOf(next))
  }

  /** Without a limit, every entry of the new history is the checkpoint's, or recorded in the pass, or was there. */
  lemma NewHistory<S(!new)>(st: Stored<S>, args: SyncArgs, pa: PassArgs, r: Run<S>, next: Snapshot<S>)
    requires next == NextSnapshot(st.snapshot, args, pa, RunOf(r)) && args.historyLimit == 0
    requires st.snapshot.Some? ==> Increasing(Prior(st)) && EntryOf(st.snapshot.value) in Prior(st)
    ensures Increasing(next.history) && EntryOf(next) in next.history
    ensures forall x :: x in next.history ==>
              || (x == EntryOf(next))
              || (x in r.history && x.to != next.to)
              || (x in Prior(st) && NotIn(r.history, x.to) && x.to != next.to)
    ensures forall b :: HasEntry(Prior(st), b) || HasEntry(r.history, b) ==> HasEntry(next.history, b)
  {
    var es := Pushes(st, r, next);
    assert next.history == PushAll(Prior(st), es, 0);
    StreamingEqualsBatch(Prior(st), es, 0);
    assert es[|es| - 1] == EntryOf(next);
    assert LastFor(es, EntryOf(next));
    forall x | x in next.history
      ensures || (x == EntryOf(next)) || (x in r.history && x.to != next.to)
              || (x in Prior(st) && NotIn(r.history, x.to) && x.to != next.to)
    {
      NewEntry(st, r, next, es, x);
    }
    forall b | HasEntry(Prior(st), b) || HasEntry(r.history, b)
      ensures HasEntry(next.history, b)
    {
      var x :| (x in Prior(st) || x in r.history) && x.to == b;
      if x in r.history { PushesHave(st, r, next, es, x); }
      BlockKept(Prior(st), es, b);
    }
  }

  lemma PushesHave<S>(st: Stored<S>, r: Run<S>, next: Snapshot<S>, es: seq<Entry<S>>, x: Entry<S>)
    requires es == Pushes(st, r, next) && x in r.history
    ensures x in es
  {
    var i :| 0 <= i < |r.history| && r.history[i] == x;
    assert es[if st.snapshot.Some? then i + 1 else i] == x;
  }

  lemma NewEntry<S>(st: Stored<S>, r: Run<S>, next: Snapshot<S>, es: seq<Entry<S>>, x: Entry<S>)
    requires es == Pushes(st, r, next) && (LastFor(es, x) || (x in Prior(st) && NotIn(es, x.to)))
    requires st.snapshot.Some? ==> EntryOf(st.snapshot.value) in Prior(st)
    ensures || (x == EntryOf(next)) || (x in r.history && x.to != next.to)
            || (x in Prior(st) && NotIn(r.history, x.to) && x.to != next.to)
  {
    var head := if st.snapshot.Some? then [EntryOf(st.snapshot.value)] else [];
    assert es == head + r.history + [EntryOf(next)];
    LastOfThree(head, r.history, EntryOf(next), es, x);
  }

  /** Where the last entry for a block stands. */
  lemma LastOfThree<S>(head: seq<Entry<S>>, news: seq<Entry<S>>, current: Entry<S>, es: seq<Entry<S>>, x: Entry<S>)
    requires es == head + news + [current]
    ensures LastFor(es, x) ==> x == current || (x in news && x.to != current.to)
                               || (x in head && NotIn(news, x.to) && x.to != current.to)
    ensures NotIn(es, x.to) ==> NotIn(news, x.to) && x.to != current.to
  {
    var d := |head|;
    assert es[|es| - 1] == current;
    forall i | 0 <= i < |news| ensures es[d + i] == news[i] { }
    if LastFor(es, x) {
      var k :| 0 <= k < |es| && es[k] == x && forall j :: k < j < |es| ==> es[j].to != x.to;
      if k < d {
        assert head[k] == x;
      } else if k < |es| - 1 {
        assert news[k - d] == x;
      }
    }
  }

  lemma CycleLogs<S(!new)>(cfg: Config<S>, chain: seq<RawLog>, first: nat, initial: S, st: Stored<S>, args: SyncArgs,
                           fails: bool, hash: nat -> nat, next: Stored<S>)
    requires Ordered(chain) && Sound(cfg, chain, first, initial, st, hash) && args.historyLimit == 0
    requires !args.reset && Honest(args, hash) && Forward(cfg, initial, chain, st, args, first)
    requires Logbook(cfg, chain, first, initial, st) && next == Cycle(cfg, initial, chain, st, args, fails)
    ensures Logbook(cfg, chain, first, initial, next)
  {
    if next != st {
      var pa, e, r := CycleReady(cfg, chain, first, initial, st, args, fails, hash);
      NewHistory(st, args, pa, r, next.snapshot.value);
      PassTraceStarts(cfg, chain, e, pa, r);
      forall y | y in next.trace && Reference(cfg, chain, first, initial, y.log.pos.block).ok
        ensures HasEntry(next.snapshot.value.history, y.log.pos.block)
      {
        var k :| 0 <= k < |r.eng.trace| && r.eng.trace[k] == y;
        if k < |e.trace| {
          assert y == r.eng.trace[..|e.trace|][k] && y in st.trace;
        } else {
          PassRecords(cfg, chain, first, initial, e, pa, r, y.log.pos.block);
        }
      }
    }
  }

  // ----- which entries are stamped too far -----

  /** After the cycle the entry of block `b` is one that an unfinished pass stamped too far: the cycle's own pass ends
      there and has something left, or the entry was one, and has not been recorded again. */
  ghost predicate StaleNow<S>(cfg: Config<S>, initial: S, chain: seq<RawLog>, st: Stored<S>, args: SyncArgs,
                              fails: bool, b: nat, was: bool)
  {
    var next := Cycle(cfg, initial, chain, st, args, fails);
    if !Stores(cfg, initial, chain, st, args, fails) || next.snapshot.None? then was
    else if next.snapshot.value.to == b then
      !NothingLeftUpTo(cfg, chain, initial, next.snapshot.value, next.trace, b)
    else was && !exists x :: x in PassOf(cfg, initial, chain, st, args).history && x.to == b
  }

  ghost predicate Stale<S>(cfg: Config<S>, initial: S, chain: seq<RawLog>, st: Stored<S>, runs: seq<(SyncArgs, bool)>,
                           b: nat, was: bool)
    decreases runs
  {
    if runs == [] then was
    else
      var next := Cycle(cfg, initial, chain, st, runs[0].0, runs[0].1);
      Stale(cfg, initial, chain, next, runs[1..], b, StaleNow(cfg, initial, chain, st, runs[0].0, runs[0].1, b, was))
  }

  /** The history's entry for block `b`, if it has one, is right unless it is stale. */
  ghost predicate RightAt<S>(cfg: Config<S>, chain: seq<RawLog>, first: nat, initial: S, st: Stored<S>, b: nat,
                             stale: bool)
  {
    st.snapshot.Some? && !stale ==>
      forall x :: x in st.snapshot.value.history && x.to == b ==>
        At(x) == ReferenceMoment(cfg, chain, first, initial, b)
  }

  lemma CycleRightAt<S(!new)>(cfg: Config<S>, chain: seq<RawLog>, first: nat, initial: S, st: Stored<S>, args: SyncArgs,
                              fails: bool, hash: nat -> nat, next: Stored<S>, b: nat, was: bool)
    requires Ordered(chain) && Sound(cfg, chain, first, initial, st, hash) && args.historyLimit == 0
    requires !args.reset && Honest(args, hash) && Forward(cfg, initial, chain, st, args, first)
    requires Logbook(cfg, chain, first, initial, st) && next == Cycle(cfg, initial, chain, st, args, fails)
    requires Sound(cfg, chain, first, initial, next, hash) && RightAt(cfg, chain, first, initial, st, b, was)
    ensures RightAt(cfg, chain, first, initial, next, b, StaleNow(cfg, initial, chain, st, args, fails, b, was))
  {
    if !Stores(cfg, initial, chain, st, args, fails) {
      var pa, e, r := CycleStores(cfg, initial, chain, st, args, fails, hash);
    } else if !StaleNow(cfg, initial, chain, st, args, fails, b, was) {
      var pa, e, r := CycleReady(cfg, chain, first, initial, st, args, fails, hash);
      var s := next.snapshot.value;
      NewHistory(st, args, pa, r, s);
      if s.to == b { StampRight(cfg, chain, first, initial, s, next.trace, b); }
      forall x | x in s.history && x.to == b
        ensures At(x) == ReferenceMoment(cfg, chain, first, initial, b)
      {
        if x in r.history { RecordedRight(cfg, chain, first, initial, e, pa, r, x); }
      }
    }
  }

  lemma {:induction false} CyclesLog<S(!new)>(cfg: Config<S>, chain: seq<RawLog>, first: nat, initial: S, st: Stored<S>,
                                              runs: seq<(SyncArgs, bool)>, hash: nat -> nat, b: nat, was: bool)
    requires Ordered(chain) && Regular(cfg, initial, chain, st, runs, first) && Unlimited(runs)
    requires Sound(cfg, chain, first, initial, st, hash) && Steady(cfg, initial, chain, st, runs, first, hash)
    requires Logbook(cfg, chain, first, initial, st) && RightAt(cfg, chain, first, initial, st, b, was)
    ensures var end := Cycles(cfg, initial, chain, st, runs);
            && Sound(cfg, chain, first, initial, end, hash) && Logbook(cfg, chain, first, initial, end)
            && RightAt(cfg, chain, first, initial, end, b, Stale(cfg, initial, chain, st, runs, b, was))
    decreases runs
  {
    if runs != [] {
      var args, fails := runs[0].0, runs[0].1;
      var next := Cycle(cfg, initial, chain, st, args, fails);
      RegularNext(cfg, initial, chain, st, runs, first, next);
      CycleKeepsGood(cfg, chain, first, initial, st, args, fails, hash);
      CycleLogs(cfg, chain, first, initial, st, args, fails, hash, next);
      CycleRightAt(cfg, chain, first, initial, st, args, fails, hash, next, b, was);
      CyclesLog(cfg, chain, first, initial, next, runs[1..], hash, b,
                StaleNow(cfg, initial, chain, st, args, fails, b, was));
    }
  }

  // ----- blocks between entries -----

  lemma {:induction false} ItemsIdle<S>(cfg: Config<S>, e: Engine<S>, items: seq<Item>)
    requires WalkItems(cfg, e, items).ok && |WalkItems(cfg, e, items).trace| == |e.trace|
    ensures WalkItems(cfg, e, items) == e
  {
    ItemsTraced(cfg, e, items);
  }

  /** A walk that does not fail and executes nothing changes nothing. */
  lemma {:induction false} TraceIdle<S>(cfg: Config<S>, e: Engine<S>, logs: seq<RawLog>)
    requires WalkP(cfg, e, logs).ok && |WalkP(cfg, e, logs).trace| == |e.trace|
    ensures WalkP(cfg, e, logs) == e
    decreases logs
  {
    if e.ok && logs != [] {
      var g := WalkItems(cfg, e, FreshAt(cfg, e, logs[0]));
      var rest := WalkTraced(cfg, g, logs[1..]);
      ItemsTraced(cfg, e, FreshAt(cfg, e, logs[0]));
      ItemsIdle(cfg, e, FreshAt(cfg, e, logs[0]));
      TraceIdle(cfg, e, logs[1..]);
    }
  }

  /** The reference executes nothing after block `b` up to block `n`. */
  ghost predicate NoneExecuted(trace: seq<Item>, b: int, n: nat) {
    forall y :: y in trace ==> !(b < y.log.pos.block <= n)
  }

  /** From a point of the reference, block `b` or the start, to block `n`: if it executes nothing, it stays. */
  lemma StaysPut<S>(cfg: Config<S>, chain: seq<RawLog>, first: nat, initial: S, x: Engine<S>, from: nat, n: nat, b: int)
    requires Ordered(chain) && from == b + 1 && Reference(cfg, chain, first, initial, n).ok
    requires ViewOf(WalkP(cfg, x, LogsIn(chain, from, n))) == Reference(cfg, chain, first, initial, n)
    requires NoneExecuted(Reference(cfg, chain, first, initial, n).trace, b, n)
    ensures ViewOf(x) == Reference(cfg, chain, first, initial, n)
  {
    var logs := LogsIn(chain, from, n);
    var rest := WalkTraced(cfg, x, logs);
    if rest != [] {
      assert rest[0] in rest && WalkP(cfg, x, logs).trace[|x.trace|] == rest[0];
      LogsInMember(chain, from, n, rest[0].log);
    }
    TraceIdle(cfg, x, logs);
  }

  lemma SameMoment<S>(cfg: Config<S>, chain: seq<RawLog>, first: nat, initial: S, b: nat, n: nat)
    requires Ordered(chain) && WfSources(cfg.statics, []) && first <= b + 1 && b <= n
    requires Reference(cfg, chain, first, initial, n).ok
    requires NoneExecuted(Reference(cfg, chain, first, initial, n).trace, b, n)
    ensures Reference(cfg, chain, first, initial, b) == Reference(cfg, chain, first, initial, n)
  {
    var x := Walk(cfg, FreshEngine(initial), LogsIn(chain, first, b));
    WalkOn(cfg, chain, first, initial, b, b + 1, x, LogsIn(chain, b + 1, n), n);
    StaysPut(cfg, chain, first, initial, x, b + 1, n, b);
  }

  lemma FirstMoment<S>(cfg: Config<S>, chain: seq<RawLog>, first: nat, initial: S, n: nat)
    requires Ordered(chain) && Reference(cfg, chain, first, initial, n).ok
    requires NoneExecuted(Reference(cfg, chain, first, initial, n).trace, first - 1, n)
    ensures ReferenceMoment(cfg, chain, first, initial, n) == Moment(initial, [])
  {
    LogsInOrdered(chain, first, n);
    WalkPIsWalk(cfg, FreshEngine(initial), LogsIn(chain, first, n));
    StaysPut(cfg, chain, first, initial, FreshEngine(initial), first, n, first - 1);
  }

  /** The reference at an earlier block is a part of it: its trace begins like the later one, and it has not failed. */
  lemma EarlierReference<S>(cfg: Config<S>, chain: seq<RawLog>, first: nat, initial: S, n: nat, t: nat)
    requires Ordered(chain) && WfSources(cfg.statics, []) && n <= t && Reference(cfg, chain, first, initial, t).ok
    ensures Reference(cfg, chain, first, initial, n).ok
    ensures Reference(cfg, chain, first, initial, n).trace <= Reference(cfg, chain, first, initial, t).trace
  {
    if first <= n + 1 {
      var x := Walk(cfg, FreshEngine(initial), LogsIn(chain, first, n));
      WalkOn(cfg, chain, first, initial, n, n + 1, x, LogsIn(chain, n + 1, t), t);
      var rest := WalkTraced(cfg, x, LogsIn(chain, n + 1, t));
    } else {
      LogsInBackwards(chain, first, n);
    }
  }

  // ----- queries -----

  /** A search finds the newest entry up to the block. */
  lemma {:induction false} FindNewest<S>(h: seq<Entry<S>>, n: nat, z: Entry<S>)
    requires Increasing(h) && z in h && z.to <= n
    ensures FindAt(h, n).Some? && z.to <= FindAt(h, n).value.to <= n
    decreases h
  {
    var k :| 0 <= k < |h| && h[k] == z;
    var last := |h| - 1;
    if h[last].to > n {
      assert h[..last][k] == z;
      FindNewest(h[..last], n, z);
    }
  }

  /** In a complete deployment the reference executes nothing between the entry a query finds and its block. */
  lemma NoneBetweenEntries<S(!new)>(cfg: Config<S>, chain: seq<RawLog>, first: nat, initial: S, st: Stored<S>,
                                    hash: nat -> nat, n: nat)
    requires Ordered(chain) && WfSources(cfg.statics, []) && Sound(cfg, chain, first, initial, st, hash)
    requires Logbook(cfg, chain, first, initial, st) && st.snapshot.Some? && st.snapshot.value.complete
    requires n <= st.snapshot.value.to
    ensures Reference(cfg, chain, first, initial, n).ok
    ensures var x := FindAt(st.snapshot.value.history, n);
            NoneExecuted(Reference(cfg, chain, first, initial, n).trace, if x.Some? then x.value.to else -1, n)
  {
    var s := st.snapshot.value;
    var x := FindAt(s.history, n);
    CompleteIsReference(cfg, chain, first, initial, s, st.trace);
    EarlierReference(cfg, chain, first, initial, n, s.to);
    forall y | y in Reference(cfg, chain, first, initial, n).trace
      ensures !((if x.Some? then x.value.to else -1) < y.log.pos.block <= n)
    {
      var k :| 0 <= k < |Reference(cfg, chain, first, initial, n).trace|
               && Reference(cfg, chain, first, initial, n).trace[k] == y;
      assert st.trace[k] == y;
      if y.log.pos.block <= n {
        EarlierReference(cfg, chain, first, initial, y.log.pos.block, s.to);
        var z :| z in s.history && z.to == y.log.pos.block;
        FindNewest(s.history, n, z);
      }
    }
  }

  /** So what the reference has at the block is what it has at the entry's. */
  lemma SameAsEntry<S>(cfg: Config<S>, chain: seq<RawLog>, first: nat, initial: S, x: Option<Entry<S>>, n: nat)
    requires Ordered(chain) && WfSources(cfg.statics, []) && Reference(cfg, chain, first, initial, n).ok
    requires x.Some? ==> x.value.to <= n
    requires NoneExecuted(Reference(cfg, chain, first, initial, n).trace, if x.Some? then x.value.to else -1, n)
    ensures ReferenceMoment(cfg, chain, first, initial, n)
         == if x.Some? then ReferenceMoment(cfg, chain, first, initial, x.value.to) else Moment(initial, [])
  {
    if x.Some? && first <= x.value.to + 1 {
      SameMoment(cfg, chain, first, initial, x.value.to, n);
    } else {
      FirstMoment(cfg, chain, first, initial, n);
      if x.Some? { LogsInBackwards(chain, first, x.value.to); }
    }
  }

  /** The query reads an entry that an unfinished pass stamped too far. */
  ghost predicate ReadsStale<S>(cfg: Config<S>, initial: S, chain: seq<RawLog>, runs: seq<(SyncArgs, bool)>,
                                s: Snapshot<S>, n: nat)
  {
    && n < s.to && FindAt(s.history, n).Some?
    && Stale(cfg, initial, chain, Stored(None, []), runs, FindAt(s.history, n).value.to, false)
  }

  lemma QueryFinds<S(!new)>(cfg: Config<S>, chain: seq<RawLog>, first: nat, initial: S, st: Stored<S>, hash: nat -> nat,
                            n: nat)
    requires Ordered(chain) && WfSources(cfg.statics, []) && Sound(cfg, chain, first, initial, st, hash)
    requires Logbook(cfg, chain, first, initial, st) && st.snapshot.Some? && st.snapshot.value.complete
    requires n < st.snapshot.value.to
    ensures var s := st.snapshot.value;
            var x := FindAt(s.history, n);
            && (x.Some? ==> x.value in s.history && SelectAt(s, initial, n) == Ok(At(x.value)))
            && (x.None? ==> SelectAt(s, initial, n) == Ok(Moment(initial, [])))
            && ReferenceMoment(cfg, chain, first, initial, n)
               == if x.Some? then ReferenceMoment(cfg, chain, first, initial, x.value.to) else Moment(initial, [])
  {
    FindAtMember(st.snapshot.value.history, n);
    NoneBetweenEntries(cfg, chain, first, initial, st, hash, n);
    SameAsEntry(cfg, chain, first, initial, FindAt(st.snapshot.value.history, n), n);
  }

  lemma UncutQuery<S(!new)>(cfg: Config<S>, chain: seq<RawLog>, first: nat, initial: S, runs: seq<(SyncArgs, bool)>,
                            hash: nat -> nat, n: nat)
    requires Ordered(chain) && WfSources(cfg.statics, []) && Regular(cfg, initial, chain, Stored(None, []), runs, first)
    requires Steady(cfg, initial, chain, Stored(None, []), runs, first, hash) && Unlimited(runs)
    requires Completed(Cycles(cfg, initial, chain, Stored(None, []), runs))
    ensures var end := Cycles(cfg, initial, chain, Stored(None, []), runs).snapshot;
            end.Some? && n <= end.value.to && !ReadsStale(cfg, initial, chain, runs, end.value, n) ==>
              SelectAt(end.value, initial, n) == Ok(ReferenceMoment(cfg, chain, first, initial, n))
  {
    var st: Stored<S> := Stored(None, []);
    var end := Cycles(cfg, initial, chain, st, runs);
    CyclesKeepGood(cfg, chain, first, initial, st, runs, hash);
    if end.snapshot.Some? && n <= end.snapshot.value.to {
      var s := end.snapshot.value;
      var x := FindAt(s.history, n);
      CyclesLog(cfg, chain, first, initial, st, runs, hash, if x.Some? then x.value.to else 0, false);
      if n == s.to {
        CompleteIsReference(cfg, chain, first, initial, s, end.trace);
      } else {
        QueryFinds(cfg, chain, first, initial, end, hash, n);
      }
    }
  }

  // ----- for a counting handler, exactly -----

  /** The history's entry for block `b`, if it has one, is wrong if it is stale. */
  ghost predicate WrongAt(statics: seq<Source>, chain: seq<RawLog>, first: nat, st: Stored<int>, b: nat, stale: bool) {
    st.snapshot.Some? ==>
      && st.snapshot.value.sources == []
      && (stale ==> forall x :: x in st.snapshot.value.history && x.to == b ==>
                      At(x) != ReferenceMoment(Counting(statics), chain, first, 0, b))
  }

  lemma CycleWrongAt(statics: seq<Source>, chain: seq<RawLog>, first: nat, st: Stored<int>, args: SyncArgs, fails: bool,
                     hash: nat -> nat, next: Stored<int>, b: nat, was: bool)
    requires Ordered(chain) && Sound(Counting(statics), chain, first, 0, st, hash) && args.historyLimit == 0
    requires !args.reset && Honest(args, hash) && Forward(Counting(statics), 0, chain, st, args, first)
    requires Logbook(Counting(statics), chain, first, 0, st)
    requires next == Cycle(Counting(statics), 0, chain, st, args, fails)
    requires Sound(Counting(statics), chain, first, 0, next, hash) && WrongAt(statics, chain, first, st, b, was)
    ensures WrongAt(statics, chain, first, next, b, StaleNow(Counting(statics), 0, chain, st, args, fails, b, was))
  {
    if !Stores(Counting(statics), 0, chain, st, args, fails) {
      var pa, e, r := CycleStores(Counting(statics), 0, chain, st, args, fails, hash);
    } else {
      var pa, e, r := CycleReady(Counting(statics), chain, first, 0, st, args, fails, hash);
      CountingRun(statics, pa, StartRun(e), PassLogs(chain, pa));
      NewHistory(st, args, pa, r, next.snapshot.value);
      if next.snapshot.value.to == b {
        StampRightExact(statics, chain, first, next.snapshot.value, next.trace, b);
      }
    }
  }

  lemma {:induction false} CyclesWrong(statics: seq<Source>, chain: seq<RawLog>, first: nat, st: Stored<int>,
                                       runs: seq<(SyncArgs, bool)>, hash: nat -> nat, b: nat, was: bool)
    requires Ordered(chain) && Unlimited(runs) && Sound(Counting(statics), chain, first, 0, st, hash)
    requires Steady(Counting(statics), 0, chain, st, runs, first, hash)
    requires Logbook(Counting(statics), chain, first, 0, st) && WrongAt(statics, chain, first, st, b, was)
    ensures WrongAt(statics, chain, first, Cycles(Counting(statics), 0, chain, st, runs), b,
                    Stale(Counting(statics), 0, chain, st, runs, b, was))
    decreases runs
  {
    if runs != [] {
      var cfg, args, fails := Counting(statics), runs[0].0, runs[0].1;
      var next := Cycle(cfg, 0, chain, st, args, fails);
      CountingRegular(statics, chain, first);
      CycleKeepsGood(cfg, chain, first, 0, st, args, fails, hash);
      CycleLogs(cfg, chain, first, 0, st, args, fails, hash, next);
      CycleWrongAt(statics, chain, first, st, args, fails, hash, next, b, was);
      CyclesWrong(statics, chain, first, next, runs[1..], hash, b, StaleNow(cfg, 0, chain, st, args, fails, b, was));
    }
  }

  lemma UncutExact(statics: seq<Source>, chain: seq<RawLog>, first: nat, runs: seq<(SyncArgs, bool)>, hash: nat -> nat,
                   n: nat)
    requires Ordered(chain) && WfSources(statics, []) && Unlimited(runs)
    requires Steady(Counting(statics), 0, chain, Stored(None, []), runs, first, hash)
    requires Completed(Cycles(Counting(statics), 0, chain, Stored(None, []), runs))
    ensures var cfg := Counting(statics);
            var end := Cycles(cfg, 0, chain, Stored(None, []), runs).snapshot;
            end.Some? && n <= end.value.to ==>
              (SelectAt(end.value, 0, n) == Ok(ReferenceMoment(cfg, chain, first, 0, n))
               <==> !ReadsStale(cfg, 0, chain, runs, end.value, n))
  {
    var cfg := Counting(statics);
    var st: Stored<int> := Stored(None, []);
    var end := Cycles(cfg, 0, chain, st, runs);
    CountingRegular(statics, chain, first);
    UncutQuery(cfg, chain, first, 0, runs, hash, n);
    if end.snapshot.Some? && n <= end.snapshot.value.to && ReadsStale(cfg, 0, chain, runs, end.snapshot.value, n) {
      var b := FindAt(end.snapshot.value.history, n).value.to;
      CyclesLog(cfg, chain, first, 0, st, runs, hash, b, false);
      CyclesWrong(statics, chain, first, st, runs, hash, b, false);
      QueryFinds(cfg, chain, first, 0, end, hash, n);
    }
  }

  // ----- a history that is cut -----

  /** The same cycles, without cutting the history. */
  function Uncut(runs: seq<(SyncArgs, bool)>): seq<(SyncArgs, bool)> {
    if runs == [] then [] else [(runs[0].0.(historyLimit := 0), runs[0].1)] + Uncut(runs[1..])
  }

  ghost predicate CutAt(runs: seq<(SyncArgs, bool)>, limit: nat) {
    forall k :: 0 <= k < |runs| ==> runs[k].0.historyLimit == limit
  }

  lemma {:induction false} UncutUnlimited(runs: seq<(SyncArgs, bool)>)
    ensures Unlimited(Uncut(runs))
  {
    if runs != [] { UncutUnlimited(runs[1..]); }
  }

  /** The deployments differ in their histories only, and one is the newest part of the other. */
  ghost predicate CutOf<S>(a: Stored<S>, b: Stored<S>, limit: nat) {
    && a.trace == b.trace && a.snapshot.Some? == b.snapshot.Some?
    && (b.snapshot.Some? ==>
          && Increasing(b.snapshot.value.history)
          && a.snapshot.value == b.snapshot.value.(history := Newest(b.snapshot.value.history, limit)))
  }

  lemma SnapshotCut<S>(a: Stored<S>, b: Stored<S>, args: SyncArgs, pa: PassArgs, r: Run<S>, limit: nat)
    requires CutOf(a, b, limit) && args.historyLimit == limit
    ensures CutOf(Stored(Some(NextSnapshot(a.snapshot, args, pa, RunOf(r))), r.eng.trace),
                  Stored(Some(NextSnapshot(b.snapshot, args.(historyLimit := 0), pa, RunOf(r))), r.eng.trace), limit)
  {
    var next := NextSnapshot(b.snapshot, args.(historyLimit := 0), pa, RunOf(r));
    var es := Pushes(b, r, next);
    assert next.history == PushAll(Prior(b), es, 0);
    assert Newest([], limit) == Prior(a) || a.snapshot.Some?;
    assert NextSnapshot(a.snapshot, args, pa, RunOf(r)).history == PushAll(Prior(a), es, limit);
    PushAllNewest(Prior(b), es, limit);
    PushedIncreasing(Prior(b), es);
  }

  lemma CycleCut<S>(cfg: Config<S>, initial: S, chain: seq<RawLog>, a: Stored<S>, b: Stored<S>, args: SyncArgs,
                    fails: bool, hash: nat -> nat, limit: nat)
    requires CutOf(a, b, limit) && args.historyLimit == limit && !args.reset && Honest(args, hash)
    requires a.snapshot.None? ==> a.trace == []
    requires a.snapshot.Some? ==> KnownHash(a.snapshot.value, hash)
    ensures var less := args.(historyLimit := 0);
            CutOf(Cycle(cfg, initial, chain, a, args, fails), Cycle(cfg, initial, chain, b, less, fails), limit)
  {
    var less := args.(historyLimit := 0);
    assert ApplyReorgPolicy(a.snapshot, args) == Ok(a.snapshot) && ApplyReorgPolicy(b.snapshot, less) == Ok(b.snapshot);
    var pa := PassArgsFor(args, a.snapshot);
    assert pa == PassArgsFor(less, b.snapshot);
    var r := Pass(cfg, chain, pa, StartEngine(initial, a.snapshot, a.trace));
    assert StartEngine(initial, a.snapshot, a.trace) == StartEngine(initial, b.snapshot, b.trace);
    SnapshotCut(a, b, args, pa, r, limit);
  }

  /** What the cycles do does not depend on where the history is cut. */
  lemma {:induction false} CyclesCut<S>(cfg: Config<S>, chain: seq<RawLog>, first: nat, initial: S, a: Stored<S>,
                                        b: Stored<S>, runs: seq<(SyncArgs, bool)>, hash: nat -> nat, limit: nat)
    requires Ordered(chain) && Regular(cfg, initial, chain, a, runs, first) && CutAt(runs, limit)
    requires Sound(cfg, chain, first, initial, a, hash) && Steady(cfg, initial, chain, a, runs, first, hash)
    requires CutOf(a, b, limit)
    ensures CutOf(Cycles(cfg, initial, chain, a, runs), Cycles(cfg, initial, chain, b, Uncut(runs)), limit)
    ensures Steady(cfg, initial, chain, b, Uncut(runs), first, hash)
    ensures Regular(cfg, initial, chain, b, Uncut(runs), first)
    decreases runs
  {
    if runs != [] {
      var args, fails := runs[0].0, runs[0].1;
      var less := args.(historyLimit := 0);
      var c, d := Cycle(cfg, initial, chain, a, args, fails), Cycle(cfg, initial, chain, b, less, fails);
      RegularNext(cfg, initial, chain, a, runs, first, c);
      CycleKeepsGood(cfg, chain, first, initial, a, args, fails, hash);
      CycleCut(cfg, initial, chain, a, b, args, fails, hash, limit);
      CyclesCut(cfg, chain, first, initial, c, d, runs[1..], hash, limit);
      assert Uncut(runs)[0] == (less, fails) && Uncut(runs)[1..] == Uncut(runs[1..]);
      ForwardCut(cfg, initial, chain, a, b, args, first, limit);
    }
  }

  lemma ForwardCut<S>(cfg: Config<S>, initial: S, chain: seq<RawLog>, a: Stored<S>, b: Stored<S>, args: SyncArgs,
                      first: nat, limit: nat)
    requires CutOf(a, b, limit) && Forward(cfg, initial, chain, a, args, first)
    ensures Forward(cfg, initial, chain, b, args.(historyLimit := 0), first)
  {
    assert PassArgsFor(args, a.snapshot) == PassArgsFor(args.(historyLimit := 0), b.snapshot);
    if a.snapshot.Some? {
      assert StartEngine(initial, a.snapshot, []) == StartEngine(initial, b.snapshot, []);
    }
  }

  lemma StaleNowCut<S>(cfg: Config<S>, initial: S, chain: seq<RawLog>, a: Stored<S>, b: Stored<S>, args: SyncArgs,
                       fails: bool, limit: nat, block: nat, was: bool)
    requires CutOf(a, b, limit) && args.historyLimit == limit
    requires CutOf(Cycle(cfg, initial, chain, a, args, fails),
                   Cycle(cfg, initial, chain, b, args.(historyLimit := 0), fails), limit)
    ensures StaleNow(cfg, initial, chain, a, args, fails, block, was)
         == StaleNow(cfg, initial, chain, b, args.(historyLimit := 0), fails, block, was)
  {
    var less := args.(historyLimit := 0);
    assert PassArgsFor(args, a.snapshot) == PassArgsFor(less, b.snapshot);
    assert StartEngine(initial, a.snapshot, a.trace) == StartEngine(initial, b.snapshot, b.trace);
    assert Stores(cfg, initial, chain, a, args, fails) == Stores(cfg, initial, chain, b, less, fails);
    var c, d := Cycle(cfg, initial, chain, a, args, fails), Cycle(cfg, initial, chain, b, less, fails);
    if c.snapshot.Some? {
      LeftCut(cfg, chain, initial, c.snapshot.value, d.snapshot.value, c.trace, block);
    }
  }

  /** What is left does not depend on the history. */
  lemma LeftCut<S>(cfg: Config<S>, chain: seq<RawLog>, initial: S, s: Snapshot<S>, t: Snapshot<S>, trace: seq<Item>,
                   block: nat)
    requires s == t.(history := s.history)
    ensures NothingLeftUpTo(cfg, chain, initial, s, trace, block)
         == NothingLeftUpTo(cfg, chain, initial, t, trace, block)
  {
    assert StartEngine(initial, Some(s), trace) == StartEngine(initial, Some(t), trace) && Origin(s) == Origin(t);
  }

  lemma {:induction false} StaleCut<S>(cfg: Config<S>, chain: seq<RawLog>, first: nat, initial: S, a: Stored<S>,
                                       b: Stored<S>, runs: seq<(SyncArgs, bool)>, hash: nat -> nat, limit: nat,
                                       block: nat, was: bool)
    requires Ordered(chain) && Regular(cfg, initial, chain, a, runs, first) && CutAt(runs, limit)
    requires Sound(cfg, chain, first, initial, a, hash) && Steady(cfg, initial, chain, a, runs, first, hash)
    requires CutOf(a, b, limit)
    ensures Stale(cfg, initial, chain, a, runs, block, was) == Stale(cfg, initial, chain, b, Uncut(runs), block, was)
    decreases runs
  {
    if runs != [] {
      var args, fails := runs[0].0, runs[0].1;
      var less := args.(historyLimit := 0);
      var c, d := Cycle(cfg, initial, chain, a, args, fails), Cycle(cfg, initial, chain, b, less, fails);
      RegularNext(cfg, initial, chain, a, runs, first, c);
      CycleKeepsGood(cfg, chain, first, initial, a, args, fails, hash);
      CycleCut(cfg, initial, chain, a, b, args, fails, hash, limit);
      assert Uncut(runs)[0] == (less, fails) && Uncut(runs)[1..] == Uncut(runs[1..]);
      var now := StaleNow(cfg, initial, chain, a, args, fails, block, was);
      StaleNowCut(cfg, initial, chain, a, b, args, fails, limit, block, was);
      StaleCut(cfg, chain, first, initial, c, d, runs[1..], hash, limit, block, now);
    }
  }

  /** From the first retained entry on, a search finds what it finds in the whole history. */
  lemma {:induction false} FindKept<S>(all: seq<Entry<S>>, kept: seq<Entry<S>>, n: nat)
    requires kept != [] && |kept| <= |all| && kept == all[|all| - |kept|..] && kept[0].to <= n
    ensures FindAt(kept, n) == FindAt(all, n)
    decreases all
  {
    var last := |all| - 1;
    assert kept[|kept| - 1] == all[last];
    if all[last].to > n {
      var some := kept[..|kept| - 1];
      assert |kept| > 1 && some == all[..last][last - |some|..];
      FindKept(all[..last], some, n);
    }
  }

  /** A query from the first retained entry on, or any query when nothing is cut. */
  ghost predicate Retained<S>(s: Snapshot<S>, limit: nat, n: nat) {
    n <= s.to && (limit == 0 || (s.history != [] && s.history[0].to <= n))
  }

  lemma SelectCut<S>(a: Snapshot<S>, b: Snapshot<S>, initial: S, limit: nat, n: nat)
    requires a == b.(history := Newest(b.history, limit)) && Retained(a, limit, n)
    ensures SelectAt(a, initial, n) == SelectAt(b, initial, n) && FindAt(a.history, n) == FindAt(b.history, n)
  {
    NewestShape(b.history, limit);
    if limit > 0 { FindKept(b.history, a.history, n); }
  }

  /** The uncut run, for a run from nothing. */
  lemma FromNothing<S>(cfg: Config<S>, chain: seq<RawLog>, first: nat, initial: S, runs: seq<(SyncArgs, bool)>,
                       hash: nat -> nat, limit: nat, n: nat)
    requires Ordered(chain) && WfSources(cfg.statics, []) && Regular(cfg, initial, chain, Stored(None, []), runs, first)
    requires Steady(cfg, initial, chain, Stored(None, []), runs, first, hash) && CutAt(runs, limit)
    ensures var st: Stored<S> := Stored(None, []);
            var a, b := Cycles(cfg, initial, chain, st, runs), Cycles(cfg, initial, chain, st, Uncut(runs));
            && CutOf(a, b, limit) && Unlimited(Uncut(runs))
            && Steady(cfg, initial, chain, st, Uncut(runs), first, hash)
            && Regular(cfg, initial, chain, st, Uncut(runs), first)
            && (a.snapshot.Some? && Retained(a.snapshot.value, limit, n) ==>
                  && SelectAt(a.snapshot.value, initial, n) == SelectAt(b.snapshot.value, initial, n)
                  && ReadsStale(cfg, initial, chain, runs, a.snapshot.value, n)
                     == ReadsStale(cfg, initial, chain, Uncut(runs), b.snapshot.value, n))
  {
    var st: Stored<S> := Stored(None, []);
    var a, b := Cycles(cfg, initial, chain, st, runs), Cycles(cfg, initial, chain, st, Uncut(runs));
    UncutUnlimited(runs);
    CyclesCut(cfg, chain, first, initial, st, st, runs, hash, limit);
    if a.snapshot.Some? && Retained(a.snapshot.value, limit, n) {
      SelectCut(a.snapshot.value, b.snapshot.value, initial, limit, n);
      var x := FindAt(b.snapshot.value.history, n);
      if x.Some? { StaleCut(cfg, chain, first, initial, st, st, runs, hash, limit, x.value.to, false); }
    }
  }

  // ----- the law of time travel -----

  /** Time travel after any run.  Whatever cycles were stopped on the way: when the last one completed, a query at
      any block from the first retained entry on (at any block when nothing is cut) up to the checkpoint reads
      exactly what the handlers make of the logs up to it, unless it reads an entry that an unfinished pass stamped
      too far. */
  lemma AnyQuery<S(!new)>(cfg: Config<S>, chain: seq<RawLog>, first: nat, initial: S, runs: seq<(SyncArgs, bool)>,
                          hash: nat -> nat, limit: nat, n: nat)
    requires Ordered(chain) && WfSources(cfg.statics, []) && Regular(cfg, initial, chain, Stored(None, []), runs, first)
    requires Steady(cfg, initial, chain, Stored(None, []), runs, first, hash) && CutAt(runs, limit)
    requires Completed(Cycles(cfg, initial, chain, Stored(None, []), runs))
    ensures var end := Cycles(cfg, initial, chain, Stored(None, []), runs).snapshot;
            end.Some? && Retained(end.value, limit, n) && !ReadsStale(cfg, initial, chain, runs, end.value, n) ==>
              SelectAt(end.value, initial, n) == Ok(ReferenceMoment(cfg, chain, first, initial, n))
  {
    FromNothing(cfg, chain, first, initial, runs, hash, limit, n);
    UncutQuery(cfg, chain, first, initial, Uncut(runs), hash, n);
  }

  /** For a counting handler such a query is right exactly when it does not read such an entry. */
  lemma AnyQueryExact(statics: seq<Source>, chain: seq<RawLog>, first: nat, runs: seq<(SyncArgs, bool)>,
                      hash: nat -> nat, limit: nat, n: nat)
    requires Ordered(chain) && WfSources(statics, []) && CutAt(runs, limit)
    requires Steady(Counting(statics), 0, chain, Stored(None, []), runs, first, hash)
    requires Completed(Cycles(Counting(statics), 0, chain, Stored(None, []), runs))
    ensures var cfg := Counting(statics);
            var end := Cycles(cfg, 0, chain, Stored(None, []), runs).snapshot;
            end.Some? && Retained(end.value, limit, n) ==>
              (SelectAt(end.value, 0, n) == Ok(ReferenceMoment(cfg, chain, first, 0, n))
               <==> !ReadsStale(cfg, 0, chain, runs, end.value, n))
  {
    CountingRegular(statics, chain, first);
    FromNothing(Counting(statics), chain, first, 0, runs, hash, limit, n);
    UncutExact(statics, chain, first, Uncut(runs), hash, n);
  }
}
