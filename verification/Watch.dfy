/** The watch loop: cycles with the same bound and end, the first with the configured start block and the
    others without, because the loop forgets it after the first cycle, failed or not. */
module Watch {
  import opened ChainModel
  import opened Streaming
  import opened Replay
  import opened Resume
  import opened Sync
  import opened Runs
  import opened Counter

  /** One deployment's watch loop: the same per-pass bound and explicit end, honest hashes and a head that
      never falls back; limits may vary. */
  ghost predicate WatchLoop(runs: seq<(SyncArgs, bool)>, first: nat, explicit: Option<nat>, maxBlocks: nat,
                            hash: nat -> nat)
  {
    && (forall k :: 0 <= k < |runs| ==>
          && runs[k].0.from == (if k == 0 then Some(first) else None)
          && Watches(runs[k].0, first, explicit, maxBlocks, hash))
    && (forall j, k :: 0 <= j < k < |runs| ==> runs[j].0.head <= runs[k].0.head)
  }

  /** A later part of such a loop. */
  ghost predicate WatchTail(runs: seq<(SyncArgs, bool)>, first: nat, explicit: Option<nat>, maxBlocks: nat,
                            hash: nat -> nat)
  {
    && (forall k :: 0 <= k < |runs| ==> runs[k].0.from.None? && Watches(runs[k].0, first, explicit, maxBlocks, hash))
    && (forall j, k :: 0 <= j < k < |runs| ==> runs[j].0.head <= runs[k].0.head)
  }

  ghost predicate Watches(a: SyncArgs, first: nat, explicit: Option<nat>, maxBlocks: nat, hash: nat -> nat) {
    && a.explicitTo == explicit && a.maxBlocks == maxBlocks && !a.reset && Honest(a, hash)
    && first <= Goal(a) + 1 && Goal(a) < U64_MAX
  }

  /** The block the loop is to reach. */
  function Goal(a: SyncArgs): nat {
    if a.explicitTo.Some? then a.explicitTo.value else a.head
  }

  /** The stored snapshot ends where the next pass of the loop will at least get. */
  ghost predicate WithinReach<S>(st: Stored<S>, a: SyncArgs, first: nat) {
    st.snapshot.Some? ==>
      var s := st.snapshot.value;
      && first <= s.to + 1 && s.to <= Goal(a) && (a.explicitTo.Some? ==> s.to == Goal(a))
      && (!s.complete ==> s.to <= PassTo(a, Some(NextStart(s))))
  }

  /** The next cycle's options reach no less far. */
  predicate GoesOn(a: SyncArgs, b: SyncArgs) {
    a.explicitTo == b.explicitTo && a.maxBlocks == b.maxBlocks && a.head <= b.head
  }

  lemma ReachGrows<S>(st: Stored<S>, a: SyncArgs, b: SyncArgs, first: nat)
    requires WithinReach(st, a, first) && GoesOn(a, b) && Goal(b) < U64_MAX
    ensures WithinReach(st, b, first)
  {
  }

  /** Good snapshots end at or after everything executed, so a cycle that gets as far is one the split
      theorem speaks of. */
  lemma WatchForward<S>(cfg: Config<S>, initial: S, chain: seq<RawLog>, st: Stored<S>, args: SyncArgs, base: nat,
                        first: nat, explicit: Option<nat>, maxBlocks: nat, hash: nat -> nat)
    requires Sound(cfg, chain, base, initial, st, hash)
    requires Watches(args, first, explicit, maxBlocks, hash) && base <= first
    requires WithinReach(st, args, first) && (args.from.None? || args.from == Some(first))
    requires st.snapshot.None? ==> LowerBound(args.from) == base
    requires st.snapshot.Some? ==> LosesNothing(cfg, chain, initial, st.snapshot.value)
    ensures Forward(cfg, initial, chain, st, args, base)
  {
    var pa := PassArgsFor(args, st.snapshot);
    if st.snapshot.Some? {
      var s := st.snapshot.value;
      assert pa.from == Some(NextStart(s));
      var e := StartEngine(initial, Some(s), st.trace);
      if pa.to >= s.to {
        assert Behind(cfg, chain, e, Origin(s), s.to);
        assert NextStart(s) <= pa.to + 1;
        BehindIgnoresTrace(cfg, chain, e, StartEngine(initial, Some(s), []), NextStart(s), pa.to);
      }
    } else {
      FirstReach(args, first);
    }
  }

  lemma FirstReach(args: SyncArgs, first: nat)
    requires first <= Goal(args) + 1 && Goal(args) < U64_MAX && (args.from.None? || args.from == Some(first))
    ensures var to := PassTo(args, args.from);
            first <= to + 1 && to <= Goal(args) && (args.explicitTo.Some? ==> to == Goal(args))
  {
  }

  lemma LaterReach<S>(s: Snapshot<S>, args: SyncArgs, first: nat)
    requires first <= Goal(args) + 1 && Goal(args) < U64_MAX && WithinReach(Stored(Some(s), []), args, first)
    ensures var to := PassTo(args, Some(NextStart(s)));
            first <= to + 1 && to <= Goal(args) && (args.explicitTo.Some? ==> to == Goal(args))
  {
  }

  lemma WatchReach<S>(cfg: Config<S>, initial: S, chain: seq<RawLog>, st: Stored<S>, args: SyncArgs, fails: bool,
                      first: nat, explicit: Option<nat>, maxBlocks: nat, hash: nat -> nat)
    requires Watches(args, first, explicit, maxBlocks, hash) && WithinReach(st, args, first)
    requires (args.from.None? || args.from == Some(first)) && (st.snapshot.None? ==> st.trace == [])
    requires st.snapshot.Some? ==> KnownHash(st.snapshot.value, hash)
    ensures WithinReach(Cycle(cfg, initial, chain, st, args, fails), args, first)
  {
    var next := Cycle(cfg, initial, chain, st, args, fails);
    var pa, e, r := CycleStores(cfg, initial, chain, st, args, fails, hash);
    if next != st {
      FirstReach(args, first);
      if st.snapshot.Some? { LaterReach(st.snapshot.value, args, first); }
      StoredReach(args, pa, st.snapshot, r, next.snapshot.value, first);
    }
  }

  /** What the cycle stores ends where its pass did. */
  lemma StoredReach<S>(args: SyncArgs, pa: PassArgs, previous: Option<Snapshot<S>>, r: Run<S>, next: Snapshot<S>,
                       first: nat)
    requires next == NextSnapshot(previous, args, pa, RunOf(r)) && !args.reset && pa == PassArgsFor(args, previous)
    requires Goal(args) < U64_MAX && first <= pa.to + 1 && pa.to <= Goal(args)
    requires args.explicitTo.Some? ==> pa.to == Goal(args)
    ensures WithinReach(Stored(Some(next), r.eng.trace), args, first)
  {
    assert NextStart(next)
           == if r.halt == Running then pa.to + 1 else if pa.from.Some? then pa.from.value else pa.to;
  }

  // ----- the cycles after the first -----

  /** No pass without a start block loses logs by stopping early. */
  ghost predicate NeverLoses<S>(cfg: Config<S>, initial: S, chain: seq<RawLog>, st: Stored<S>,
                                runs: seq<(SyncArgs, bool)>)
    decreases runs
  {
    && (st.snapshot.Some? ==> LosesNothing(cfg, chain, initial, st.snapshot.value))
    && (runs == [] || NeverLoses(cfg, initial, chain, Cycle(cfg, initial, chain, st, runs[0].0, runs[0].1), runs[1..]))
  }

  predicate HasStart<S>(st: Stored<S>) {
    st.snapshot.Some? && (st.snapshot.value.complete || st.snapshot.value.from.Some?)
  }

  /** A deployment whose first pass had a start block never loses any. */
  lemma {:induction false} StartKept<S>(cfg: Config<S>, initial: S, chain: seq<RawLog>, st: Stored<S>,
                                        runs: seq<(SyncArgs, bool)>, hash: nat -> nat)
    requires HasStart(st) && KnownHash(st.snapshot.value, hash)
    requires forall k :: 0 <= k < |runs| ==> !runs[k].0.reset && Honest(runs[k].0, hash)
    ensures NeverLoses(cfg, initial, chain, st, runs)
    decreases runs
  {
    if runs != [] {
      var next := Cycle(cfg, initial, chain, st, runs[0].0, runs[0].1);
      var pa, e, r := CycleStores(cfg, initial, chain, st, runs[0].0, runs[0].1, hash);
      StartKept(cfg, initial, chain, next, runs[1..], hash);
    }
  }

  ghost predicate InLoop<S>(cfg: Config<S>, initial: S, chain: seq<RawLog>, st: Stored<S>, runs: seq<(SyncArgs, bool)>,
                            base: nat, first: nat, explicit: Option<nat>, maxBlocks: nat, hash: nat -> nat)
  {
    && WatchTail(runs, first, explicit, maxBlocks, hash) && base <= first
    && Sound(cfg, chain, base, initial, st, hash) && Regular(cfg, initial, chain, st, runs, base)
    && (runs != [] ==> WithinReach(st, runs[0].0, first)) && (st.snapshot.None? ==> base == 0)
    && NeverLoses(cfg, initial, chain, st, runs)
  }

  lemma TailOfTail(runs: seq<(SyncArgs, bool)>, first: nat, explicit: Option<nat>, maxBlocks: nat, hash: nat -> nat)
    requires WatchTail(runs, first, explicit, maxBlocks, hash) && runs != []
    ensures WatchTail(runs[1..], first, explicit, maxBlocks, hash)
    ensures |runs| > 1 ==> GoesOn(runs[0].0, runs[1..][0].0) && Goal(runs[1..][0].0) < U64_MAX
  {
    assert |runs| > 1 ==> runs[0].0.head <= runs[1].0.head;
  }

  /** One cycle of the loop, about the deployment it leaves. */
  lemma CycleOfLoop<S>(cfg: Config<S>, initial: S, chain: seq<RawLog>, st: Stored<S>, args: SyncArgs, fails: bool,
                       base: nat, first: nat, explicit: Option<nat>, maxBlocks: nat, hash: nat -> nat, next: Stored<S>)
    requires Ordered(chain) && Watches(args, first, explicit, maxBlocks, hash)
    requires base <= first && WithinReach(st, args, first)
    requires Sound(cfg, chain, base, initial, st, hash) && ApartChain(cfg, chain, base, initial)
    requires (args.from.None? || args.from == Some(first)) && (st.snapshot.None? ==> LowerBound(args.from) == base)
    requires st.snapshot.Some? ==> LosesNothing(cfg, chain, initial, st.snapshot.value)
    requires next == Cycle(cfg, initial, chain, st, args, fails)
    requires NoneEarlierChain(cfg, chain, base, initial) || Completed(next)
    ensures Sound(cfg, chain, base, initial, next, hash) && WithinReach(next, args, first)
    ensures next.snapshot.Some? ==> first <= next.snapshot.value.to + 1
  {
    WatchForward(cfg, initial, chain, st, args, base, first, explicit, maxBlocks, hash);
    CycleKeepsGood(cfg, chain, base, initial, st, args, fails, hash);
    WatchReach(cfg, initial, chain, st, args, fails, first, explicit, maxBlocks, hash);
  }

  lemma LoopStep<S>(cfg: Config<S>, initial: S, chain: seq<RawLog>, st: Stored<S>, runs: seq<(SyncArgs, bool)>,
                    base: nat, first: nat, explicit: Option<nat>, maxBlocks: nat, hash: nat -> nat, next: Stored<S>)
    requires Ordered(chain) && runs != []
    requires InLoop(cfg, initial, chain, st, runs, base, first, explicit, maxBlocks, hash)
    requires next == Cycle(cfg, initial, chain, st, runs[0].0, runs[0].1)
    ensures InLoop(cfg, initial, chain, next, runs[1..], base, first, explicit, maxBlocks, hash)
    ensures next.snapshot.Some? ==> first <= next.snapshot.value.to + 1
  {
    RegularNext(cfg, initial, chain, st, runs, base, next);
    CycleOfLoop(cfg, initial, chain, st, runs[0].0, runs[0].1, base, first, explicit, maxBlocks, hash, next);
    TailOfTail(runs, first, explicit, maxBlocks, hash);
    if |runs| > 1 { ReachGrows(next, runs[0].0, runs[1..][0].0, first); }
  }

  lemma {:induction false} LoopKeepsGood<S>(cfg: Config<S>, initial: S, chain: seq<RawLog>, st: Stored<S>,
                                            runs: seq<(SyncArgs, bool)>, base: nat, first: nat, explicit: Option<nat>,
                                            maxBlocks: nat, hash: nat -> nat)
    requires Ordered(chain) && InLoop(cfg, initial, chain, st, runs, base, first, explicit, maxBlocks, hash)
    requires st.snapshot.Some? ==> first <= st.snapshot.value.to + 1
    ensures var end := Cycles(cfg, initial, chain, st, runs);
            Sound(cfg, chain, base, initial, end, hash) && (end.snapshot.Some? ==> first <= end.snapshot.value.to + 1)
    decreases runs
  {
    if runs != [] {
      var next := Cycle(cfg, initial, chain, st, runs[0].0, runs[0].1);
      LoopStep(cfg, initial, chain, st, runs, base, first, explicit, maxBlocks, hash, next);
      LoopKeepsGood(cfg, initial, chain, next, runs[1..], base, first, explicit, maxBlocks, hash);
    }
  }

  // ----- when the first cycle succeeds -----

  /** The first cycle fails when something it needs does not answer, or when a handler traps. */
  predicate FirstFails<S>(cfg: Config<S>, initial: S, chain: seq<RawLog>, run: (SyncArgs, bool)) {
    run.1 || Pass(cfg, chain, PassArgsFor<S>(run.0, None), FreshEngine(initial)).halt == Trapped
  }

  lemma FirstCycle<S>(cfg: Config<S>, initial: S, chain: seq<RawLog>, run: (SyncArgs, bool))
    requires !run.0.reset
    ensures var next := Cycle(cfg, initial, chain, Stored(None, []), run.0, run.1);
            && (next.snapshot.None? <==> FirstFails(cfg, initial, chain, run))
            && (next.snapshot.None? ==> next == Stored(None, []))
            && (next.snapshot.Some? && run.0.from.Some? ==> HasStart(next))
  {
    assert StartEngine(initial, None, []) == FreshEngine(initial);
  }

  /** After a first cycle that stored something, the whole loop goes on from the configured start block. */
  lemma LoopFromFirst<S>(cfg: Config<S>, chain: seq<RawLog>, first: nat, initial: S, runs: seq<(SyncArgs, bool)>,
                         explicit: Option<nat>, maxBlocks: nat, hash: nat -> nat, next: Stored<S>)
    requires Ordered(chain) && WfSources(cfg.statics, []) && WatchLoop(runs, first, explicit, maxBlocks, hash)
    requires Regular(cfg, initial, chain, Stored(None, []), runs, first)
    requires runs != [] && !FirstFails(cfg, initial, chain, runs[0])
    requires next == Cycle(cfg, initial, chain, Stored(None, []), runs[0].0, runs[0].1)
    ensures InLoop(cfg, initial, chain, next, runs[1..], first, first, explicit, maxBlocks, hash)
    ensures HasStart(next) && first <= next.snapshot.value.to + 1 && WithinReach(next, runs[0].0, first)
  {
    var st: Stored<S> := Stored(None, []);
    FirstCycle(cfg, initial, chain, runs[0]);
    RegularNext(cfg, initial, chain, st, runs, first, next);
    CycleOfLoop(cfg, initial, chain, st, runs[0].0, runs[0].1, first, first, explicit, maxBlocks, hash, next);
    StartKept(cfg, initial, chain, next, runs[1..], hash);
    RestOfLoop(runs, first, explicit, maxBlocks, hash);
    if |runs| > 1 { ReachGrows(next, runs[0].0, runs[1..][0].0, first); }
  }

  lemma RestOfLoop(runs: seq<(SyncArgs, bool)>, first: nat, explicit: Option<nat>, maxBlocks: nat, hash: nat -> nat)
    requires WatchLoop(runs, first, explicit, maxBlocks, hash) && runs != []
    ensures WatchTail(runs[1..], first, explicit, maxBlocks, hash)
    ensures |runs| > 1 ==> GoesOn(runs[0].0, runs[1..][0].0) && Goal(runs[1..][0].0) < U64_MAX
  {
    assert |runs| > 1 ==> runs[0].0.head <= runs[1].0.head;
  }

  // ----- when it fails -----

  /** After a first cycle that failed, the loop walks from block 0. */
  lemma LoopFromZero<S>(cfg: Config<S>, chain: seq<RawLog>, first: nat, initial: S, runs: seq<(SyncArgs, bool)>,
                        explicit: Option<nat>, maxBlocks: nat, hash: nat -> nat)
    requires Ordered(chain) && WfSources(cfg.statics, []) && WatchLoop(runs, first, explicit, maxBlocks, hash)
    requires Regular(cfg, initial, chain, Stored(None, []), runs, 0)
    requires NeverLoses(cfg, initial, chain, Stored(None, []), runs)
    requires runs != [] && FirstFails(cfg, initial, chain, runs[0])
    ensures var end := Cycles(cfg, initial, chain, Stored(None, []), runs);
            Good(cfg, chain, 0, initial, end) && (end.snapshot.Some? ==> first <= end.snapshot.value.to + 1)
  {
    var st: Stored<S> := Stored(None, []);
    FirstCycle(cfg, initial, chain, runs[0]);
    RegularNext(cfg, initial, chain, st, runs, 0, st);
    RestOfLoop(runs, first, explicit, maxBlocks, hash);
    LoopKeepsGood(cfg, initial, chain, st, runs[1..], 0, first, explicit, maxBlocks, hash);
  }

  /** The static sources have no log below block `first`. */
  ghost predicate NothingBelow(statics: seq<Source>, chain: seq<RawLog>, first: nat) {
    forall s, l :: s in statics && l in chain && l.pos.block < first ==> !Filter(s, l)
  }

  /** Then it does not matter where the walk starts. */
  lemma ReferenceFromZero<S>(cfg: Config<S>, chain: seq<RawLog>, first: nat, initial: S, t: nat)
    requires Ordered(chain) && WfSources(cfg.statics, []) && NothingBelow(cfg.statics, chain, first)
    ensures Reference(cfg, chain, 0, initial, t) == Reference(cfg, chain, first, initial, t)
  {
    var e := FreshEngine(initial);
    LogsInOrdered(chain, 0, t);
    LogsInOrdered(chain, first, t);
    WalkPIsWalk(cfg, e, LogsIn(chain, 0, t));
    WalkPIsWalk(cfg, e, LogsIn(chain, first, t));
    assert cfg.statics + e.dyn == cfg.statics;
    if t < first {
      QuietWalk(cfg, chain, e, 0, t);
      LogsInBackwards(chain, first, t);
    } else if first > 0 {
      var last: nat := first - 1;
      QuietWalk(cfg, chain, e, 0, last);
      SkipIdle(cfg, chain, e, 0, last, first, t);
    }
  }

  // ----- the loop -----

  /** Split invariance for a watch loop, from what its operator configures.  When the first cycle fails, it
      holds for the configured start block if no static source has a log below it and no pass loses logs by
      stopping early; those passes have no start block either. */
  lemma WatchSplitInvariance<S>(cfg: Config<S>, chain: seq<RawLog>, first: nat, initial: S, runs: seq<(SyncArgs, bool)>,
                                explicit: Option<nat>, maxBlocks: nat, hash: nat -> nat)
    requires Ordered(chain) && WfSources(cfg.statics, []) && WatchLoop(runs, first, explicit, maxBlocks, hash)
    requires Regular(cfg, initial, chain, Stored(None, []), runs, first)
    requires runs != [] && FirstFails(cfg, initial, chain, runs[0]) ==>
               NothingBelow(cfg.statics, chain, first) && NeverLoses(cfg, initial, chain, Stored(None, []), runs)
    ensures Faithful(cfg, chain, first, initial, Cycles(cfg, initial, chain, Stored(None, []), runs))
  {
    var end := Cycles(cfg, initial, chain, Stored(None, []), runs);
    if runs != [] {
      if FirstFails(cfg, initial, chain, runs[0]) {
        forall t: nat ensures Reference(cfg, chain, 0, initial, t) == Reference(cfg, chain, first, initial, t) {
          ReferenceFromZero(cfg, chain, first, initial, t);
        }
        LoopFromZero(cfg, chain, first, initial, runs, explicit, maxBlocks, hash);
        GoodIsFaithful(cfg, chain, 0, initial, end);
      } else {
        var next := Cycle(cfg, initial, chain, Stored(None, []), runs[0].0, runs[0].1);
        LoopFromFirst(cfg, chain, first, initial, runs, explicit, maxBlocks, hash, next);
        LoopKeepsGood(cfg, initial, chain, next, runs[1..], first, first, explicit, maxBlocks, hash);
        GoodIsFaithful(cfg, chain, first, initial, end);
      }
    }
  }

  /** For a counting handler that is exact: after a first cycle that failed, a complete end is right for the
      configured start block exactly when no static source has a log below it. */
  lemma FailedFirstExact(statics: seq<Source>, chain: seq<RawLog>, first: nat, runs: seq<(SyncArgs, bool)>,
                         explicit: Option<nat>, maxBlocks: nat, hash: nat -> nat)
    requires Ordered(chain) && WfSources(statics, []) && WatchLoop(runs, first, explicit, maxBlocks, hash)
    requires runs != [] && runs[0].1 && NeverLoses(Counting(statics), 0, chain, Stored(None, []), runs)
    requires Cycles(Counting(statics), 0, chain, Stored(None, []), runs).snapshot.Some?
    requires Cycles(Counting(statics), 0, chain, Stored(None, []), runs).snapshot.value.complete
    ensures var end := Cycles(Counting(statics), 0, chain, Stored(None, []), runs).snapshot.value;
            end.store == Reference(Counting(statics), chain, first, 0, end.to).store
            <==> NothingBelow(statics, chain, first)
  {
    var cfg := Counting(statics);
    var end := Cycles(cfg, 0, chain, Stored(None, []), runs);
    CountingRegular(statics, chain, 0);
    LoopFromZero(cfg, chain, first, 0, runs, explicit, maxBlocks, hash);
    GoodIsFaithful(cfg, chain, 0, 0, end);
    BelowCount(statics, chain, first, end.snapshot.value.to);
  }

  lemma BelowCount(statics: seq<Source>, chain: seq<RawLog>, first: nat, t: nat)
    requires Ordered(chain) && (forall s :: s in statics ==> s.resumed) && first <= t + 1
    ensures Reference(Counting(statics), chain, 0, 0, t).store == Reference(Counting(statics), chain, first, 0, t).store
            <==> NothingBelow(statics, chain, first)
  {
    ReferenceCount(statics, chain, 0, t);
    ReferenceCount(statics, chain, first, t);
    if first > 0 {
      var last: nat := first - 1;
      CountSplit(statics, chain, 0, last, first, t);
      CountZero(statics, LogsIn(chain, 0, last));
      forall l
        ensures l in LogsIn(chain, 0, last) <==> l in chain && l.pos.block < first
      {
        LogsInMember(chain, 0, last, l);
      }
      forall l
        ensures ItemsAt(statics, l) == [] <==> forall s :: s in statics ==> !Filter(s, l)
      {
        NoItems(statics, l);
      }
    }
  }

  // ----- the loop itself -----

  /** The options of the loop's cycle `k`: start block and reset are for the first cycle only. */
  function LoopOptions(a: SyncArgs, k: nat): SyncArgs {
    if k == 0 then a else a.(from := None, reset := false)
  }

  lemma {:induction false} CyclesSnoc<S>(cfg: Config<S>, initial: S, chain: seq<RawLog>, st: Stored<S>,
                                         runs: seq<(SyncArgs, bool)>, run: (SyncArgs, bool))
    ensures Cycles(cfg, initial, chain, st, runs + [run])
         == Cycle(cfg, initial, chain, Cycles(cfg, initial, chain, st, runs), run.0, run.1)
    decreases runs
  {
    if runs == [] {
      assert [run][1..] == [];
      assert runs + [run] == [run];
    } else {
      assert (runs + [run])[1..] == runs[1..] + [run];
      CyclesSnoc(cfg, initial, chain, Cycle(cfg, initial, chain, st, runs[0].0, runs[0].1), runs[1..], run);
    }
  }

  /** The cycle fails exactly when it has a reason to. */
  predicate FailsRightly<S>(cfg: Config<S>, initial: S, chain: seq<RawLog>, st: Stored<S>, run: (SyncArgs, bool),
                            answer: Source -> bool)
  {
    run.1 <==> Fails(cfg, initial, chain, st.snapshot, run.0, answer)
  }

  /** So does each cycle of the run. */
  ghost predicate FailFor<S>(cfg: Config<S>, initial: S, chain: seq<RawLog>, st: Stored<S>, runs: seq<(SyncArgs, bool)>,
                             answers: seq<Source -> bool>)
  {
    |runs| <= |answers| && forall k :: 0 <= k < |runs| ==>
      FailsRightly(cfg, initial, chain, Cycles(cfg, initial, chain, st, runs[..k]), runs[k], answers[k])
  }

  lemma FailForSnoc<S>(cfg: Config<S>, initial: S, chain: seq<RawLog>, st: Stored<S>, runs: seq<(SyncArgs, bool)>,
                       answers: seq<Source -> bool>, run: (SyncArgs, bool))
    requires FailFor(cfg, initial, chain, st, runs, answers) && |runs| < |answers|
    requires FailsRightly(cfg, initial, chain, Cycles(cfg, initial, chain, st, runs), run, answers[|runs|])
    ensures FailFor(cfg, initial, chain, st, runs + [run], answers)
  {
    var more := runs + [run];
    forall k | 0 <= k < |more|
      ensures FailsRightly(cfg, initial, chain, Cycles(cfg, initial, chain, st, more[..k]), more[k], answers[k])
    {
      assert more[..k] == if k < |runs| then runs[..k] else runs;
    }
  }

  lemma {:induction false} NeverTrapsItems<S(!new)>(cfg: Config<S>, args: PassArgs, r: Run<S>, items: seq<Item>)
    requires r.halt != Trapped && forall store, x :: cfg.handler(store, x).Ran?
    ensures RunItems(cfg, args, r, items).halt != Trapped
    decreases items
  {
    if r.halt == Running && items != [] { NeverTrapsItems(cfg, args, RunItem(cfg, args, r, items[0]), items[1..]); }
  }

  lemma {:induction false} NeverTraps<S(!new)>(cfg: Config<S>, args: PassArgs, r: Run<S>, logs: seq<RawLog>)
    requires r.halt != Trapped && forall store, x :: cfg.handler(store, x).Ran?
    ensures RunLogs(cfg, args, r, logs).halt != Trapped
    decreases logs
  {
    if r.halt == Running && logs != [] {
      NeverTrapsItems(cfg, args, r, FreshAt(cfg, r.eng, logs[0]));
      NeverTraps(cfg, args, Close(args, RunItems(cfg, args, r, FreshAt(cfg, r.eng, logs[0])), logs), logs[1..]);
    }
  }

  lemma {:induction false} CyclesKnown<S>(cfg: Config<S>, initial: S, chain: seq<RawLog>, st: Stored<S>,
                                          runs: seq<(SyncArgs, bool)>, hash: nat -> nat)
    requires forall k :: 0 <= k < |runs| ==> !runs[k].0.reset && Honest(runs[k].0, hash)
    requires if st.snapshot.Some? then KnownHash(st.snapshot.value, hash) else st.trace == []
    ensures var end := Cycles(cfg, initial, chain, st, runs).snapshot; end.Some? ==> KnownHash(end.value, hash)
    decreases runs
  {
    if runs != [] {
      var pa, e, r := CycleStores(cfg, initial, chain, st, runs[0].0, runs[0].1, hash);
      CyclesKnown(cfg, initial, chain, Cycle(cfg, initial, chain, st, runs[0].0, runs[0].1), runs[1..], hash);
    }
  }

  lemma CycleSucceeds<S(!new)>(cfg: Config<S>, initial: S, chain: seq<RawLog>, stored: Option<Snapshot<S>>,
                               args: SyncArgs, answer: Source -> bool, hash: nat -> nat)
    requires stored.Some? ==> KnownHash(stored.value, hash)
    requires !args.reset && Honest(args, hash) && forall s :: answer(s)
    requires forall store, x :: cfg.handler(store, x).Ran?
    ensures !Fails(cfg, initial, chain, stored, args, answer)
  {
    assert ApplyReorgPolicy(stored, args) == Ok(stored);
    var pa := PassArgsFor(args, stored);
    NeverTraps(cfg, pa, StartRun(StartEngine(initial, stored, [])), PassLogs(chain, pa));
  }

  /** When the RPC answers for every source and keeps its hashes, and no handler traps, no cycle of a loop fails. */
  lemma LoopSucceeds<S(!new)>(cfg: Config<S>, initial: S, chain: seq<RawLog>, runs: seq<(SyncArgs, bool)>,
                              answers: seq<Source -> bool>, hash: nat -> nat)
    requires FailFor(cfg, initial, chain, Stored(None, []), runs, answers)
    requires forall k :: 0 <= k < |runs| ==> !runs[k].0.reset && Honest(runs[k].0, hash)
    requires forall k, s :: 0 <= k < |runs| ==> answers[k](s)
    requires forall store, x :: cfg.handler(store, x).Ran?
    ensures forall k :: 0 <= k < |runs| ==> !runs[k].1
  {
    forall k | 0 <= k < |runs|
      ensures !runs[k].1
    {
      var st := Cycles(cfg, initial, chain, Stored(None, []), runs[..k]);
      CyclesKnown(cfg, initial, chain, Stored(None, []), runs[..k], hash);
      CycleSucceeds(cfg, initial, chain, st.snapshot, runs[k].0, answers[k], hash);
      assert FailsRightly(cfg, initial, chain, st, runs[k], answers[k]);
    }
  }

  /** The watch loop over one indexer: one cycle after the other, whatever fails.  `options` are the operator's
      options with what the RPC answers in each cycle, `answers` the sources it answers for. */
  method RunLoop<S(!new)>(indexer: Indexer<S>, chain: seq<RawLog>, options: seq<SyncArgs>, answers: seq<Source -> bool>)
    returns (ghost runs: seq<(SyncArgs, bool)>)
    requires Ordered(chain) && WfStored(indexer.cfg, indexer.stored) && |answers| == |options|
    modifies indexer
    ensures WfStored(indexer.cfg, indexer.stored)
    ensures |runs| == |options| && forall k :: 0 <= k < |runs| ==> runs[k].0 == LoopOptions(options[k], k)
    ensures Stored(indexer.stored, indexer.trace)
         == Cycles(indexer.cfg, indexer.initial, chain, old(Stored(indexer.stored, indexer.trace)), runs)
    ensures FailFor(indexer.cfg, indexer.initial, chain, old(Stored(indexer.stored, indexer.trace)), runs, answers)
  {
    runs := [];
    var first := true;
    for i := 0 to |options|
      invariant WfStored(indexer.cfg, indexer.stored) && (first <==> i == 0)
      invariant |runs| == i && forall k :: 0 <= k < i ==> runs[k].0 == LoopOptions(options[k], k)
      invariant Stored(indexer.stored, indexer.trace)
             == Cycles(indexer.cfg, indexer.initial, chain, old(Stored(indexer.stored, indexer.trace)), runs)
      invariant FailFor(indexer.cfg, indexer.initial, chain, old(Stored(indexer.stored, indexer.trace)), runs, answers)
    {
      var args := if first then options[i] else options[i].(from := None, reset := false);
      var out := indexer.SyncOnce(chain, args, answers[i]);
      CyclesSnoc(indexer.cfg, indexer.initial, chain, old(Stored(indexer.stored, indexer.trace)), runs,
                 (args, out.Err?));
      FailForSnoc(indexer.cfg, indexer.initial, chain, old(Stored(indexer.stored, indexer.trace)), runs, answers,
                  (args, out.Err?));
      runs := runs + [(args, out.Err?)];
      first := false;
    }
  }
}
