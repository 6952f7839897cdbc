/** The sync gets somewhere.  A pass goes past its limit only to finish the block it is in; every cycle of a watch loop
    that does not fail executes as much as its limit asks for or completes further blocks; so after enough of them the
    deployment is at the head, with the reference's state. */
module Progress {
  import opened ChainModel
  import opened Streaming
  import opened Replay
  import opened Resume
  import opened Sync
  import opened Runs
  import opened Watch
  import opened Provenance

  // ----- the soft limit -----

  function BlockOf(x: Item): nat {
    x.log.pos.block
  }

  /** Of the items executed after the first `base` ones, the pass counts all, remembers the last one's block, and has
      more than the limit only from one block. */
  ghost predicate Limits<S>(args: PassArgs, r: Run<S>, base: nat) {
    var t := r.eng.trace;
    && |t| >= base && r.executed >= |t| - base
    && (r.halt == Running || r.halt == Limited ==> r.executed == |t| - base)
    && r.last == (if |t| > base then Some(BlockOf(t[|t| - 1])) else None)
    && (args.limit == 0 ==> |t| == base)
    && (args.limit > 0 ==>
          forall i :: base + args.limit <= i < |t| ==> BlockOf(t[i]) == BlockOf(t[base + args.limit - 1]))
  }

  lemma LimitItem<S>(cfg: Config<S>, args: PassArgs, r: Run<S>, x: Item, base: nat)
    requires r.halt == Running && Limits(args, r, base)
    ensures Limits(args, RunItem(cfg, args, r, x), base)
  {
  }

  lemma {:induction false} LimitItems<S>(cfg: Config<S>, args: PassArgs, r: Run<S>, items: seq<Item>, base: nat)
    requires r.halt == Running && Limits(args, r, base)
    ensures Limits(args, RunItems(cfg, args, r, items), base)
    decreases items
  {
    if items != [] {
      var s := RunItem(cfg, args, r, items[0]);
      LimitItem(cfg, args, r, items[0], base);
      if s.halt == Running { LimitItems(cfg, args, s, items[1..], base); }
    }
  }

  lemma {:induction false} LimitLogs<S>(cfg: Config<S>, args: PassArgs, r: Run<S>, logs: seq<RawLog>, base: nat)
    requires r.halt == Running && Limits(args, r, base)
    ensures Limits(args, RunLogs(cfg, args, r, logs), base)
    decreases logs
  {
    if logs != [] {
      var items := FreshAt(cfg, r.eng, logs[0]);
      var s := RunItems(cfg, args, r, items);
      LimitItems(cfg, args, r, items, base);
      if s.halt == Running { LimitLogs(cfg, args, Close(args, s, logs), logs[1..], base); }
    }
  }

  /** The item that the walk executes next, if any, lies in another block than the last one executed. */
  ghost predicate NextElsewhere<S>(r: Run<S>, walk: Engine<S>) {
    var n := |r.eng.trace|;
    r.eng.trace <= walk.trace && (|walk.trace| > n ==> r.last != Some(BlockOf(walk.trace[n])))
  }

  lemma {:induction false} ItemsGrow<S>(cfg: Config<S>, e: Engine<S>, items: seq<Item>)
    ensures e.trace <= WalkItems(cfg, e, items).trace
    decreases items
  {
    if e.ok && items != [] { ItemsGrow(cfg, Step(cfg, e, items[0]), items[1..]); }
  }

  lemma {:induction false} LimitedItems<S>(cfg: Config<S>, args: PassArgs, r: Run<S>, items: seq<Item>)
    requires r.halt == Running && r.eng.ok && args.limit > 0
    ensures var s, walk := RunItems(cfg, args, r, items), WalkItems(cfg, r.eng, items);
            && (s.halt == Limited ==> NextElsewhere(s, walk) && (walk.ok ==> |walk.trace| > |s.eng.trace|))
            && (s.halt == Running ==> s.eng == walk && walk.ok)
    decreases items
  {
    if items != [] {
      var s := RunItem(cfg, args, r, items[0]);
      if s.halt == Running {
        LimitedItems(cfg, args, s, items[1..]);
      } else if s.halt == Limited {
        ItemsGrow(cfg, Step(cfg, r.eng, items[0]), items[1..]);
      }
    }
  }

  lemma {:induction false} LimitedLogs<S>(cfg: Config<S>, args: PassArgs, r: Run<S>, logs: seq<RawLog>)
    requires r.halt == Running && r.eng.ok && args.limit > 0
    ensures var s := RunLogs(cfg, args, r, logs); s.halt == Limited ==> NextElsewhere(s, WalkP(cfg, r.eng, logs))
    decreases logs
  {
    if logs != [] {
      var items := FreshAt(cfg, r.eng, logs[0]);
      var s, f := RunItems(cfg, args, r, items), WalkItems(cfg, r.eng, items);
      LimitedItems(cfg, args, r, items);
      if s.halt == Running {
        LimitedLogs(cfg, args, Close(args, s, logs), logs[1..]);
      } else if s.halt == Limited {
        SourcesGrow(cfg, f, logs[1..]);
        assert !f.ok ==> WalkP(cfg, f, logs[1..]) == f;
      }
    }
  }

  /** The soft limit.  A pass executes nothing when the limit is 0.  It goes past the limit only within the block that
      the limit falls in; and when it stops for the limit, it has executed that many and stops between two blocks: what
      comes next lies in another block than what came last. */
  lemma SoftLimit<S>(cfg: Config<S>, chain: seq<RawLog>, args: PassArgs, e: Engine<S>)
    requires e.ok
    ensures var r := Pass(cfg, chain, args, e);
            var t, n := r.eng.trace, |e.trace|;
            && |t| >= n && (args.limit == 0 ==> |t| == n)
            && (args.limit > 0 ==>
                  forall i :: n + args.limit <= i < |t| ==> BlockOf(t[i]) == BlockOf(t[n + args.limit - 1]))
            && (r.halt == Limited && args.limit > 0 ==>
                  && |t| >= n + args.limit && t <= WalkP(cfg, e, PassLogs(chain, args)).trace
                  && (|WalkP(cfg, e, PassLogs(chain, args)).trace| > |t| ==>
                        BlockOf(WalkP(cfg, e, PassLogs(chain, args)).trace[|t|]) != BlockOf(t[|t| - 1])))
  {
    var logs := PassLogs(chain, args);
    LimitLogs(cfg, args, StartRun(e), logs, |e.trace|);
    StoppedRun(cfg, args, StartRun(e), logs);
    if args.limit > 0 { LimitedLogs(cfg, args, StartRun(e), logs); }
  }

  // ----- one cycle -----

  lemma ReferenceGrows<S>(cfg: Config<S>, chain: seq<RawLog>, first: nat, initial: S, t: nat, head: nat)
    requires Ordered(chain) && WfSources(cfg.statics, []) && t <= head && first <= t + 1
    ensures Reference(cfg, chain, first, initial, t).trace <= Reference(cfg, chain, first, initial, head).trace
    ensures Reference(cfg, chain, first, initial, head).ok ==> Reference(cfg, chain, first, initial, t).ok
  {
    var e := FreshEngine(initial);
    var w, rest := Walk(cfg, e, LogsIn(chain, first, t)), LogsIn(chain, t + 1, head);
    LogsInSplit(chain, first, t, head);
    WalkConcat(cfg, e, LogsIn(chain, first, t), rest);
    WalkGrows(cfg, w, rest);
  }

  /** Where no handler fails on the reference walk, none fails in a pass on the way. */
  lemma PassRuns<S>(cfg: Config<S>, chain: seq<RawLog>, first: nat, initial: S, st: Stored<S>, args: SyncArgs,
                    hash: nat -> nat, head: nat)
    requires Ordered(chain) && Sound(cfg, chain, first, initial, st, hash) && !args.reset
    requires Forward(cfg, initial, chain, st, args, first) && PassArgsFor(args, st.snapshot).to <= head
    requires Reference(cfg, chain, first, initial, head).ok
    ensures var r := Pass(cfg, chain, PassArgsFor(args, st.snapshot), StartEngine(initial, st.snapshot, st.trace));
            r.halt == Running || r.halt == Limited
  {
    var pa, e := PassArgsFor(args, st.snapshot), StartEngine(initial, st.snapshot, st.trace);
    StoppedRun(cfg, pa, StartRun(e), PassLogs(chain, pa));
    if st.snapshot.None? {
      FreshGood(cfg, chain, first, initial);
      assert e == FreshEngine(initial) && pa.from == args.from;
      assert Quiet(cfg.statics + [], chain, pa.to, LowerBound(pa.from));
    } else {
      var s := st.snapshot.value;
      if s.complete && args.explicitTo.None? && pa.to <= s.to {
        BackwardPass(cfg, chain, e, pa);
        return;
      }
      NextGood(cfg, chain, first, initial, s, st.trace, NextStart(s));
      BehindIgnoresTrace(cfg, chain, StartEngine(initial, st.snapshot, []), e, NextStart(s), pa.to);
    }
    ReferenceGrows(cfg, chain, first, initial, pa.to, head);
    assert ViewOf(WalkP(cfg, e, PassLogs(chain, pa))) == Reference(cfg, chain, first, initial, pa.to);
  }

  /** The deployment is complete at this block. */
  predicate At<S>(st: Stored<S>, head: nat) {
    st.snapshot.Some? && st.snapshot.value.complete && st.snapshot.value.to == head
  }

  /** How far a deployment is: the block its next pass starts from, and how much it has executed. */
  function Distance<S>(st: Stored<S>): nat {
    |st.trace| + if st.snapshot.Some? then NextStart(st.snapshot.value) else 0
  }

  /** A cycle that is to get to the head and allowed to execute something. */
  predicate Willing(args: SyncArgs, head: nat) {
    args.limit > 0 && args.head == head && args.explicitTo.None?
  }

  /** Where a bounded pass ends: at its start or later, at most at the head, and there if the bound allows it. */
  lemma PassEnds(args: SyncArgs, from: nat)
    requires args.explicitTo.None? && args.head < U64_MAX
    ensures var to := PassTo(args, Some(from));
            && to <= args.head && (from <= args.head ==> from <= to) && (from > args.head ==> to == args.head)
            && (args.maxBlocks > 0 && from <= to ==> to - from + 1 <= args.maxBlocks)
            && (to < args.head ==> args.maxBlocks > 0 && to - from + 1 == args.maxBlocks)
  {
  }

  /** Every such cycle gets further, unless the deployment is at the head already; then it stays there. */
  lemma CycleAdvances<S>(cfg: Config<S>, chain: seq<RawLog>, first: nat, initial: S, st: Stored<S>,
                         run: (SyncArgs, bool), hash: nat -> nat, head: nat, next: Stored<S>)
    requires Ordered(chain) && Sound(cfg, chain, first, initial, st, hash) && HasStart(st)
    requires st.snapshot.value.to <= head && Forward(cfg, initial, chain, st, run.0, first)
    requires !run.1 && Willing(run.0, head) && head < U64_MAX && !run.0.reset && Honest(run.0, hash)
    requires Reference(cfg, chain, first, initial, head).ok
    requires next == Cycle(cfg, initial, chain, st, run.0, run.1)
    ensures HasStart(next) && next.snapshot.value.to <= head
    ensures if At(st, head) then next == st else At(next, head) || Distance(next) >= Distance(st) + 1
  {
    var s := st.snapshot.value;
    var pa, e, r := CycleStores(cfg, initial, chain, st, run.0, run.1, hash);
    assert pa.from == Some(NextStart(s)) && pa.limit == run.0.limit;
    PassEnds(run.0, NextStart(s));
    SoftLimit(cfg, chain, pa, e);
    PassRuns(cfg, chain, first, initial, st, run.0, hash, head);
    if At(st, head) {
      FallenHead(cfg, initial, chain, st, run.0, pa, r);
    } else {
      NotKept(s, run.0, pa, r);
      AdvancedBy(st, run.0, pa, r, next, head);
    }
  }

  lemma NotKept<S>(s: Snapshot<S>, args: SyncArgs, pa: PassArgs, r: Run<S>)
    requires !(s.complete && s.to == args.head) && s.to <= args.head < U64_MAX && args.explicitTo.None?
    requires pa == PassArgsFor(args, Some(s)) && !args.reset
    ensures !Keeps(Some(s), args, pa, RunOf(r))
  {
    if s.complete { PassEnds(args, NextStart(s)); }
  }

  lemma AdvancedBy<S>(st: Stored<S>, args: SyncArgs, pa: PassArgs, r: Run<S>, next: Stored<S>, head: nat)
    requires HasStart(st) && st.snapshot.value.to <= head < U64_MAX && !At(st, head)
    requires pa.from == Some(NextStart(st.snapshot.value)) && pa.to <= head && pa.limit > 0
    requires pa.from.value <= head ==> pa.from.value <= pa.to
    requires pa.from.value > head ==> pa.to == head
    requires r.halt == Running || (r.halt == Limited && |r.eng.trace| >= |st.trace| + pa.limit)
    requires |r.eng.trace| >= |st.trace|
    requires next == Stored(Some(NextSnapshot(st.snapshot, args, pa, RunOf(r))), r.eng.trace)
    ensures HasStart(next) && next.snapshot.value.to <= head
    ensures At(next, head) || Distance(next) >= Distance(st) + 1
  {
  }

  // ----- the watch loop -----

  /** A deployment that is not at the head is not as far as the head and all that the reference executes up to it. */
  lemma DistanceBounded<S>(cfg: Config<S>, chain: seq<RawLog>, first: nat, initial: S, st: Stored<S>, head: nat)
    requires Ordered(chain) && Good(cfg, chain, first, initial, st) && HasStart(st)
    requires st.snapshot.value.to <= head && first <= st.snapshot.value.to + 1
    ensures st.trace <= Reference(cfg, chain, first, initial, head).trace
    ensures Distance(st) <= head + 1 + |Reference(cfg, chain, first, initial, head).trace|
  {
    TraceIsPrefix(cfg, chain, first, initial, st.snapshot.value, st.trace);
    ReferenceGrows(cfg, chain, first, initial, st.snapshot.value.to, head);
  }

  lemma {:induction false} LoopCatchesUp<S>(cfg: Config<S>, initial: S, chain: seq<RawLog>, st: Stored<S>,
                                            runs: seq<(SyncArgs, bool)>, base: nat, first: nat, maxBlocks: nat,
                                            hash: nat -> nat, head: nat)
    requires Ordered(chain) && InLoop(cfg, initial, chain, st, runs, base, first, None, maxBlocks, hash)
    requires HasStart(st) && st.snapshot.value.to <= head < U64_MAX && first <= st.snapshot.value.to + 1
    requires forall k :: 0 <= k < |runs| ==> !runs[k].1 && Willing(runs[k].0, head)
    requires Reference(cfg, chain, base, initial, head).ok
    requires At(st, head)
             || |runs| + Distance(st) > head + 1 + |Reference(cfg, chain, base, initial, head).trace|
    ensures At(Cycles(cfg, initial, chain, st, runs), head)
    decreases runs
  {
    if runs == [] {
      DistanceBounded(cfg, chain, base, initial, st, head);
    } else {
      var next := Cycle(cfg, initial, chain, st, runs[0].0, runs[0].1);
      WatchForward(cfg, initial, chain, st, runs[0].0, base, first, None, maxBlocks, hash);
      CycleAdvances(cfg, chain, base, initial, st, runs[0], hash, head, next);
      LoopStep(cfg, initial, chain, st, runs, base, first, None, maxBlocks, hash, next);
      LoopCatchesUp(cfg, initial, chain, next, runs[1..], base, first, maxBlocks, hash, head);
    }
  }

  /** A first cycle that does not fail has stored a snapshot from the start block on. */
  lemma FirstDistance<S>(cfg: Config<S>, chain: seq<RawLog>, first: nat, initial: S, args: SyncArgs, next: Stored<S>)
    requires next == Cycle(cfg, initial, chain, Stored(None, []), args, false) && next.snapshot.Some?
    requires args.from == Some(first) && !args.reset && next.snapshot.value.to < U64_MAX
    requires first <= next.snapshot.value.to + 1
    ensures Distance(next) >= first
  {
  }

  // ----- nothing fails -----

  /** With reachable sources and honest hashes, a cycle on the way along a clean reference walk does not fail. */
  lemma CycleRuns<S>(cfg: Config<S>, chain: seq<RawLog>, first: nat, initial: S, st: Stored<S>, args: SyncArgs,
                     answer: Source -> bool, hash: nat -> nat, head: nat)
    requires Ordered(chain) && Sound(cfg, chain, first, initial, st, hash) && !args.reset && Honest(args, hash)
    requires Forward(cfg, initial, chain, st, args, first) && PassArgsFor(args, st.snapshot).to <= head
    requires Reference(cfg, chain, first, initial, head).ok && forall s :: answer(s)
    ensures !Fails(cfg, initial, chain, st.snapshot, args, answer)
  {
    PassRuns(cfg, chain, first, initial, st, args, hash, head);
    SameHalt(cfg, chain, initial, st.snapshot, PassArgsFor(args, st.snapshot), st.trace);
    assert ApplyReorgPolicy(st.snapshot, args) == Ok(st.snapshot);
  }

  lemma SameHalt<S>(cfg: Config<S>, chain: seq<RawLog>, initial: S, snapshot: Option<Snapshot<S>>, pa: PassArgs,
                    trace: seq<Item>)
    ensures Pass(cfg, chain, pa, StartEngine(initial, snapshot, [])).halt
         == Pass(cfg, chain, pa, StartEngine(initial, snapshot, trace)).halt
  {
    var base := StartEngine(initial, snapshot, []);
    PassTrace(cfg, chain, pa, base, trace);
    assert StartEngine(initial, snapshot, trace) == base.(trace := trace);
  }

  lemma FailForRest<S>(cfg: Config<S>, initial: S, chain: seq<RawLog>, st: Stored<S>, runs: seq<(SyncArgs, bool)>,
                       answers: seq<Source -> bool>, next: Stored<S>)
    requires runs != [] && FailFor(cfg, initial, chain, st, runs, answers)
    requires next == Cycle(cfg, initial, chain, st, runs[0].0, runs[0].1)
    ensures FailFor(cfg, initial, chain, next, runs[1..], answers[1..])
    ensures FailsRightly(cfg, initial, chain, st, runs[0], answers[0])
  {
    assert runs[..0] == [];
    forall k | 0 <= k < |runs[1..]|
      ensures FailsRightly(cfg, initial, chain, Cycles(cfg, initial, chain, next, runs[1..][..k]), runs[1..][k],
                           answers[1..][k])
    {
      var j := k + 1;
      assert FailsRightly(cfg, initial, chain, Cycles(cfg, initial, chain, st, runs[..j]), runs[j], answers[j]);
      assert runs[..j][1..] == runs[1..][..k];
    }
  }

  lemma LoopRunsStep<S>(cfg: Config<S>, initial: S, chain: seq<RawLog>, st: Stored<S>, runs: seq<(SyncArgs, bool)>,
                        answer: Source -> bool, base: nat, first: nat, maxBlocks: nat, hash: nat -> nat, head: nat,
                        next: Stored<S>)
    requires Ordered(chain) && runs != []
    requires InLoop(cfg, initial, chain, st, runs, base, first, None, maxBlocks, hash)
    requires HasStart(st) && st.snapshot.value.to <= head < U64_MAX && Willing(runs[0].0, head)
    requires Reference(cfg, chain, base, initial, head).ok
    requires FailsRightly(cfg, initial, chain, st, runs[0], answer) && forall s :: answer(s)
    requires next == Cycle(cfg, initial, chain, st, runs[0].0, runs[0].1)
    ensures !runs[0].1 && HasStart(next) && next.snapshot.value.to <= head
  {
    WatchForward(cfg, initial, chain, st, runs[0].0, base, first, None, maxBlocks, hash);
    PassEnds(runs[0].0, NextStart(st.snapshot.value));
    CycleRuns(cfg, chain, base, initial, st, runs[0].0, answer, hash, head);
    CycleAdvances(cfg, chain, base, initial, st, runs[0], hash, head, next);
  }

  lemma {:induction false} LoopRuns<S>(cfg: Config<S>, initial: S, chain: seq<RawLog>, st: Stored<S>,
                                       runs: seq<(SyncArgs, bool)>, answers: seq<Source -> bool>, base: nat,
                                       first: nat, maxBlocks: nat, hash: nat -> nat, head: nat)
    requires Ordered(chain) && InLoop(cfg, initial, chain, st, runs, base, first, None, maxBlocks, hash)
    requires HasStart(st) && st.snapshot.value.to <= head < U64_MAX
    requires forall k :: 0 <= k < |runs| ==> Willing(runs[k].0, head)
    requires Reference(cfg, chain, base, initial, head).ok
    requires FailFor(cfg, initial, chain, st, runs, answers) && forall k, s :: 0 <= k < |answers| ==> answers[k](s)
    ensures forall k :: 0 <= k < |runs| ==> !runs[k].1
    decreases runs
  {
    if runs != [] {
      var next, rest := Cycle(cfg, initial, chain, st, runs[0].0, runs[0].1), runs[1..];
      FailForRest(cfg, initial, chain, st, runs, answers, next);
      LoopRunsStep(cfg, initial, chain, st, runs, answers[0], base, first, maxBlocks, hash, head, next);
      LoopStep(cfg, initial, chain, st, runs, base, first, None, maxBlocks, hash, next);
      LoopRuns(cfg, initial, chain, next, rest, answers[1..], base, first, maxBlocks, hash, head);
      NoneOfAll(runs, rest);
    }
  }

  lemma NoneOfAll(runs: seq<(SyncArgs, bool)>, rest: seq<(SyncArgs, bool)>)
    requires runs != [] && rest == runs[1..] && !runs[0].1 && forall k :: 0 <= k < |rest| ==> !rest[k].1
    ensures forall k :: 0 <= k < |runs| ==> !runs[k].1
  {
    forall k | 0 <= k < |runs| ensures !runs[k].1 { assert k > 0 ==> runs[k] == rest[k - 1]; }
  }

  /** The first cycle does not fail either. */
  lemma FirstRuns<S>(cfg: Config<S>, chain: seq<RawLog>, first: nat, initial: S, args: SyncArgs, answer: Source -> bool,
                     maxBlocks: nat, hash: nat -> nat, head: nat)
    requires Ordered(chain) && WfSources(cfg.statics, []) && first <= head + 1
    requires args.from == Some(first) && Watches(args, first, None, maxBlocks, hash) && Willing(args, head)
    requires Reference(cfg, chain, first, initial, head).ok && forall s :: answer(s)
    ensures !Fails(cfg, initial, chain, None, args, answer) && !FirstFails(cfg, initial, chain, (args, false))
  {
    var st: Stored<S> := Stored(None, []);
    WatchForward(cfg, initial, chain, st, args, first, first, None, maxBlocks, hash);
    FirstReach(args, first);
    CycleRuns(cfg, chain, first, initial, st, args, answer, hash, head);
    assert StartEngine(initial, None, []) == FreshEngine(initial);
  }

  /** The watch loop with a constant head and positive limits, on which every source can be reached and no handler fails
      on the reference walk: no cycle fails, and after as many cycles as there are blocks and items, and two more, the
      deployment is at the head, and has executed and stored exactly what the reference has. */
  lemma WatchCatchesUp<S>(cfg: Config<S>, chain: seq<RawLog>, first: nat, initial: S, runs: seq<(SyncArgs, bool)>,
                          answers: seq<Source -> bool>, maxBlocks: nat, hash: nat -> nat, head: nat)
    requires Ordered(chain) && WfSources(cfg.statics, []) && WatchLoop(runs, first, None, maxBlocks, hash)
    requires Regular(cfg, initial, chain, Stored(None, []), runs, first)
    requires FailFor(cfg, initial, chain, Stored(None, []), runs, answers)
    requires forall k, s :: 0 <= k < |answers| ==> answers[k](s)
    requires forall k :: 0 <= k < |runs| ==> Willing(runs[k].0, head)
    requires Reference(cfg, chain, first, initial, head).ok && first <= head + 1
    ensures forall k :: 0 <= k < |runs| ==> !runs[k].1
    ensures |runs| > head + 2 - first + |Reference(cfg, chain, first, initial, head).trace| ==>
              var end := Cycles(cfg, initial, chain, Stored(None, []), runs);
              && At(end, head)
              && View(end.snapshot.value.store, end.trace, true, end.snapshot.value.sources)
                 == Reference(cfg, chain, first, initial, head)
  {
    if runs != [] {
      var next := Cycle(cfg, initial, chain, Stored(None, []), runs[0].0, runs[0].1);
      AllRun(cfg, chain, first, initial, runs, answers, maxBlocks, hash, head, next);
      CaughtUp(cfg, chain, first, initial, runs, maxBlocks, hash, head, next);
    }
  }

  lemma AllRun<S>(cfg: Config<S>, chain: seq<RawLog>, first: nat, initial: S, runs: seq<(SyncArgs, bool)>,
                  answers: seq<Source -> bool>, maxBlocks: nat, hash: nat -> nat, head: nat, next: Stored<S>)
    requires Ordered(chain) && WfSources(cfg.statics, []) && WatchLoop(runs, first, None, maxBlocks, hash)
    requires Regular(cfg, initial, chain, Stored(None, []), runs, first) && runs != []
    requires FailFor(cfg, initial, chain, Stored(None, []), runs, answers)
    requires forall k, s :: 0 <= k < |answers| ==> answers[k](s)
    requires forall k :: 0 <= k < |runs| ==> Willing(runs[k].0, head)
    requires Reference(cfg, chain, first, initial, head).ok && first <= head + 1
    requires next == Cycle(cfg, initial, chain, Stored(None, []), runs[0].0, runs[0].1)
    ensures forall k :: 0 <= k < |runs| ==> !runs[k].1
    ensures InLoop(cfg, initial, chain, next, runs[1..], first, first, None, maxBlocks, hash)
    ensures HasStart(next) && first <= next.snapshot.value.to + 1 && next.snapshot.value.to <= head
  {
    FailForRest(cfg, initial, chain, Stored(None, []), runs, answers, next);
    FirstRuns(cfg, chain, first, initial, runs[0].0, answers[0], maxBlocks, hash, head);
    assert runs[0] == (runs[0].0, false);
    LoopFromFirst(cfg, chain, first, initial, runs, None, maxBlocks, hash, next);
    var rest := runs[1..];
    LoopRuns(cfg, initial, chain, next, rest, answers[1..], first, first, maxBlocks, hash, head);
    NoneOfAll(runs, rest);
  }

  lemma CaughtUp<S>(cfg: Config<S>, chain: seq<RawLog>, first: nat, initial: S, runs: seq<(SyncArgs, bool)>,
                    maxBlocks: nat, hash: nat -> nat, head: nat, next: Stored<S>)
    requires Ordered(chain) && WatchLoop(runs, first, None, maxBlocks, hash) && runs != []
    requires forall k :: 0 <= k < |runs| ==> !runs[k].1 && Willing(runs[k].0, head)
    requires next == Cycle(cfg, initial, chain, Stored(None, []), runs[0].0, runs[0].1)
    requires InLoop(cfg, initial, chain, next, runs[1..], first, first, None, maxBlocks, hash)
    requires HasStart(next) && first <= next.snapshot.value.to + 1 && next.snapshot.value.to <= head
    requires Reference(cfg, chain, first, initial, head).ok && first <= head + 1
    ensures |runs| > head + 2 - first + |Reference(cfg, chain, first, initial, head).trace| ==>
              var end := Cycles(cfg, initial, chain, Stored(None, []), runs);
              && At(end, head)
              && View(end.snapshot.value.store, end.trace, true, end.snapshot.value.sources)
                 == Reference(cfg, chain, first, initial, head)
  {
    FirstDistance(cfg, chain, first, initial, runs[0].0, next);
    if |runs| > head + 2 - first + |Reference(cfg, chain, first, initial, head).trace| {
      LoopCatchesUp(cfg, initial, chain, next, runs[1..], first, first, maxBlocks, hash, head);
      LoopKeepsGood(cfg, initial, chain, next, runs[1..], first, first, None, maxBlocks, hash);
      GoodIsFaithful(cfg, chain, first, initial, Cycles(cfg, initial, chain, next, runs[1..]));
    }
  }
}
