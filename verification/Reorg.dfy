/** Reorgs: rolling back to a retained entry and syncing the new chain from there. */
module Reorg {
  import opened ChainModel
  import opened Streaming
  import opened Replay
  import opened Resume
  import opened HistoryWindow
  import opened Sync
  import opened Runs

  // ----- complete entries are exact -----

  ghost predicate Exact<S>(cfg: Config<S>, chain: seq<RawLog>, first: nat, initial: S, e: Entry<S>) {
    var reference := Reference(cfg, chain, first, initial, e.to);
    e.to < U64_MAX && first <= e.to + 1 && reference.ok && reference.store == e.store && reference.sources == e.sources
  }

  /** Every retained entry of a complete pass holds the reference's state at its block. */
  ghost predicate HistoryGood<S(!new)>(cfg: Config<S>, chain: seq<RawLog>, first: nat, initial: S, h: seq<Entry<S>>) {
    forall e :: e in h && e.complete ==> Exact(cfg, chain, first, initial, e)
  }

  lemma {:induction false} RunHistoryIncomplete<S>(cfg: Config<S>, args: PassArgs, r: Run<S>, logs: seq<RawLog>,
                                                   x: Entry<S>)
    ensures x in RunLogs(cfg, args, r, logs).history ==> x in r.history || !x.complete
    decreases logs
  {
    if r.halt == Running && logs != [] {
      ItemsKeepHistory(cfg, args, r, FreshAt(cfg, r.eng, logs[0]));
      var s := RunItems(cfg, args, r, FreshAt(cfg, r.eng, logs[0]));
      RunHistoryIncomplete(cfg, args, Close(args, s, logs), logs[1..], x);
    }
  }

  lemma SnapshotExact<S>(cfg: Config<S>, chain: seq<RawLog>, first: nat, initial: S, s: Snapshot<S>, trace: seq<Item>)
    requires Ordered(chain) && GoodSnapshot(cfg, chain, first, initial, s, trace)
    ensures s.complete ==> Exact(cfg, chain, first, initial, EntryOf(s))
  {
    if s.complete { CompleteIsReference(cfg, chain, first, initial, s, trace); }
  }

  /** The retained history of a stored deployment is exact. */
  ghost predicate HistoryExact<S(!new)>(cfg: Config<S>, chain: seq<RawLog>, first: nat, initial: S, st: Stored<S>) {
    st.snapshot.Some? ==> HistoryGood(cfg, chain, first, initial, st.snapshot.value.history)
  }

  /** Merging keeps the history exact. */
  lemma MergedExact<S(!new)>(cfg: Config<S>, chain: seq<RawLog>, first: nat, initial: S, previous: Option<Snapshot<S>>,
                             args: SyncArgs, pa: PassArgs, e: Engine<S>, r: Run<S>, next: Snapshot<S>)
    requires next == NextSnapshot(previous, args, pa, RunOf(r)) && r == Pass(cfg, chain, pa, e)
    requires next.complete ==> Exact(cfg, chain, first, initial, EntryOf(next))
    requires previous.Some? && previous.value.complete ==> Exact(cfg, chain, first, initial, EntryOf(previous.value))
    requires previous.Some? ==> HistoryGood(cfg, chain, first, initial, previous.value.history)
    ensures HistoryGood(cfg, chain, first, initial, next.history)
  {
    var prior := if previous.Some? then previous.value.history else [];
    var incoming := Incoming(if previous.Some? then Some(EntryOf(previous.value)) else None, r.history, EntryOf(next));
    assert next.history == PushAll(prior, incoming, args.historyLimit);
    forall x | x in next.history && x.complete
      ensures Exact(cfg, chain, first, initial, x)
    {
      PushAllSubset(prior, incoming, args.historyLimit, x);
      RunHistoryIncomplete(cfg, pa, StartRun(e), PassLogs(chain, pa), x);
    }
  }

  /** Cycles keep the retained history exact as well. */
  lemma CycleKeepsHistory<S(!new)>(cfg: Config<S>, chain: seq<RawLog>, first: nat, initial: S, st: Stored<S>,
                                   args: SyncArgs, fails: bool, hash: nat -> nat)
    requires Ordered(chain) && ApartChain(cfg, chain, first, initial) && Sound(cfg, chain, first, initial, st, hash)
    requires !args.reset && Honest(args, hash) && Forward(cfg, initial, chain, st, args, first)
    requires NoneEarlierChain(cfg, chain, first, initial) || Completed(Cycle(cfg, initial, chain, st, args, fails))
    requires HistoryExact(cfg, chain, first, initial, st)
    ensures HistoryExact(cfg, chain, first, initial, Cycle(cfg, initial, chain, st, args, fails))
  {
    var next := Cycle(cfg, initial, chain, st, args, fails);
    var pa, e, r := CycleStores(cfg, initial, chain, st, args, fails, hash);
    if next != st {
      CycleKeepsGood(cfg, chain, first, initial, st, args, fails, hash);
      SnapshotExact(cfg, chain, first, initial, next.snapshot.value, next.trace);
      if st.snapshot.Some? { SnapshotExact(cfg, chain, first, initial, st.snapshot.value, st.trace); }
      MergedExact(cfg, chain, first, initial, st.snapshot, args, pa, e, r, next.snapshot.value);
    }
  }

  lemma {:induction false} CyclesKeepHistory<S(!new)>(cfg: Config<S>, chain: seq<RawLog>, first: nat, initial: S,
                                                      st: Stored<S>, runs: seq<(SyncArgs, bool)>, hash: nat -> nat)
    requires Ordered(chain) && Regular(cfg, initial, chain, st, runs, first)
    requires Sound(cfg, chain, first, initial, st, hash)
    requires Steady(cfg, initial, chain, st, runs, first, hash) && HistoryExact(cfg, chain, first, initial, st)
    ensures HistoryExact(cfg, chain, first, initial, Cycles(cfg, initial, chain, st, runs))
    decreases runs
  {
    if runs != [] {
      var next := Cycle(cfg, initial, chain, st, runs[0].0, runs[0].1);
      RegularNext(cfg, initial, chain, st, runs, first, next);
      CycleKeepsGood(cfg, chain, first, initial, st, runs[0].0, runs[0].1, hash);
      CycleKeepsHistory(cfg, chain, first, initial, st, runs[0].0, runs[0].1, hash);
      CyclesKeepHistory(cfg, chain, first, initial, next, runs[1..], hash);
    }
  }

  // ----- chains that agree -----

  /** The chains have the same logs up to block `b`. */
  ghost predicate Agree(was: seq<RawLog>, fork: seq<RawLog>, b: nat) {
    LogsIn(was, 0, b) == LogsIn(fork, 0, b)
  }

  lemma {:induction false} LogsInNested(chain: seq<RawLog>, from: nat, to: nat, b: nat)
    requires to <= b
    ensures LogsIn(LogsIn(chain, 0, b), from, to) == LogsIn(chain, from, to)
  {
    if chain != [] {
      LogsInNested(chain[1..], from, to, b);
      var rest := LogsIn(chain[1..], 0, b);
      if InRange(chain[0], 0, b) {
        assert LogsIn(chain, 0, b) == [chain[0]] + rest;
        assert ([chain[0]] + rest)[1..] == rest;
      } else {
        assert LogsIn(chain, 0, b) == rest;
      }
    }
  }

  lemma AgreeReference<S>(cfg: Config<S>, was: seq<RawLog>, fork: seq<RawLog>, first: nat, initial: S, b: nat, to: nat)
    requires Agree(was, fork, b) && to <= b
    ensures Reference(cfg, was, first, initial, to) == Reference(cfg, fork, first, initial, to)
  {
    LogsInNested(was, first, to, b);
    LogsInNested(fork, first, to, b);
  }

  // ----- rolling back to a complete entry -----

  /** Continuing from a reloaded point of the reference walk follows the reference. */
  lemma ResumeReference<S>(cfg: Config<S>, chain: seq<RawLog>, first: nat, initial: S, b: nat, next: nat, x: Engine<S>,
                           y: Engine<S>, t: nat)
    requires Ordered(chain) && WfSources(cfg.statics, []) && first <= next && next == b + 1 && b <= t
    requires x == Walk(cfg, FreshEngine(initial), LogsIn(chain, first, b)) && x.ok
    requires y == Engine(x.store, Persist(x.dyn), x.trace, {}, true)
    requires Apart(Reference(cfg, chain, first, initial, t).sources)
    ensures ViewOf(WalkP(cfg, y, LogsIn(chain, next, t))) == Reference(cfg, chain, first, initial, t)
  {
    ReferencePoint(cfg, chain, first, initial, b, x);
    var rest := LogsIn(chain, next, t);
    WalkOn(cfg, chain, first, initial, b, next, x, rest, t);
    ForgetAndReload(cfg, chain, x, y, b, next, t);
  }

  /** A point of the reference walk, reloaded; `start` is the block after it, or an earlier one from which no
      source has a log up to it. */
  lemma ResumeConsistent<S>(cfg: Config<S>, chain: seq<RawLog>, first: nat, initial: S, b: nat, next: nat, start: nat,
                            x: Engine<S>, y: Engine<S>, t: nat)
    requires Ordered(chain) && WfSources(cfg.statics, []) && ApartChain(cfg, chain, first, initial)
    requires first <= next && next == b + 1 && start <= next && first <= t + 1
    requires x == Walk(cfg, FreshEngine(initial), LogsIn(chain, first, b)) && x.ok
    requires y == Engine(x.store, Persist(x.dyn), x.trace, {}, true)
    requires forall s, l :: s in cfg.statics + y.dyn && l in chain && start <= l.pos.block <= b ==> !Filter(s, l)
    requires Quiet(cfg.statics + y.dyn, chain, t, start)
    ensures ViewOf(WalkP(cfg, y, LogsIn(chain, start, t))) == Reference(cfg, chain, first, initial, t)
  {
    if b <= t {
      ResumeReference(cfg, chain, first, initial, b, next, x, y, t);
      QuietWalk(cfg, chain, y, start, b);
      SkipIdle(cfg, chain, y, start, b, next, t);
    } else {
      ResumeReference(cfg, chain, first, initial, b, next, x, y, b);
      LogsInBackwards(chain, next, b);
      assert WalkP(cfg, y, []) == y;
      QuietWalk(cfg, chain, y, start, t);
      ReferencePoint(cfg, chain, first, initial, b, x);
      WfSnapshotOf(cfg, x.dyn);
      QuietReference(cfg, chain, first, initial, t, b, t + 1);
    }
  }

  /** The state a rollback leaves is such a point. */
  lemma ResumeGood<S>(cfg: Config<S>, chain: seq<RawLog>, first: nat, initial: S, b: nat, next: nat, start: nat,
                      x: Engine<S>, y: Engine<S>)
    requires Ordered(chain) && WfSources(cfg.statics, []) && ApartChain(cfg, chain, first, initial)
    requires first <= next && next == b + 1 && first <= start <= next
    requires x == Walk(cfg, FreshEngine(initial), LogsIn(chain, first, b)) && x.ok
    requires y == Engine(x.store, Persist(x.dyn), x.trace, {}, true)
    requires forall s, l :: s in cfg.statics + y.dyn && l in chain && start <= l.pos.block <= b ==> !Filter(s, l)
    ensures GoodState(cfg, chain, first, initial, y, start)
  {
    forall t: nat | first <= t + 1 && Behind(cfg, chain, y, start, t)
      ensures ViewOf(WalkP(cfg, y, LogsIn(chain, start, t))) == Reference(cfg, chain, first, initial, t)
    {
      ResumeConsistent(cfg, chain, first, initial, b, next, start, x, y, t);
    }
    ReferencePoint(cfg, chain, first, initial, b, x);
    WfSnapshotOf(cfg, x.dyn);
  }

  lemma RolledBackHistory<S(!new)>(cfg: Config<S>, was: seq<RawLog>, fork: seq<RawLog>, first: nat, initial: S,
                                   h: seq<Entry<S>>, b: nat)
    requires HistoryGood(cfg, was, first, initial, h) && Agree(was, fork, b)
    ensures HistoryGood(cfg, fork, first, initial, UpTo(h, b))
  {
    forall g | g in UpTo(h, b) && g.complete
      ensures Exact(cfg, fork, first, initial, g)
    {
      UpToMember(h, b, g);
      AgreeReference(cfg, was, fork, first, initial, b, g.to);
    }
  }

  /** None of the sources has a log in these blocks. */
  ghost predicate NoneBetween(sources: seq<Source>, chain: seq<RawLog>, from: nat, to: nat) {
    forall s, l :: s in sources && l in chain && from <= l.pos.block <= to ==> !Filter(s, l)
  }

  /** A rollback to an exact entry: of a complete pass, or of one whose sources have no log from its start
      block to the entry. */
  lemma RolledBackSnapshot<S>(cfg: Config<S>, chain: seq<RawLog>, first: nat, initial: S, s: Snapshot<S>, e: Entry<S>)
    requires Ordered(chain) && WfSources(cfg.statics, []) && ApartChain(cfg, chain, first, initial)
    requires Exact(cfg, chain, first, initial, e) && first <= Origin(RolledBack(s, e)) <= e.to + 1
    requires !e.complete ==> NoneBetween(cfg.statics + e.sources, chain, LowerBound(e.from), e.to)
    ensures GoodSnapshot(cfg, chain, first, initial, RolledBack(s, e),
                         Reference(cfg, chain, first, initial, e.to).trace)
  {
    var x := Walk(cfg, FreshEngine(initial), LogsIn(chain, first, e.to));
    var y := StartEngine(initial, Some(RolledBack(s, e)), x.trace);
    assert y == Engine(x.store, Persist(x.dyn), x.trace, {}, true);
    ResumeGood(cfg, chain, first, initial, e.to, e.to + 1, Origin(RolledBack(s, e)), x, y);
  }

  /** A rollback to a complete entry leaves a deployment in good order for any chain that agrees with
      the old one up to the entry's block; its history is exact for the new chain too. */
  lemma RollbackGood<S(!new)>(cfg: Config<S>, was: seq<RawLog>, fork: seq<RawLog>, first: nat, initial: S,
                              s: Snapshot<S>, e: Entry<S>)
    requires Ordered(fork) && WfSources(cfg.statics, []) && ApartChain(cfg, fork, first, initial)
    requires HistoryGood(cfg, was, first, initial, s.history) && e in s.history && e.complete
    requires Agree(was, fork, e.to)
    ensures GoodSnapshot(cfg, fork, first, initial, RolledBack(s, e), Reference(cfg, fork, first, initial, e.to).trace)
    ensures HistoryGood(cfg, fork, first, initial, RolledBack(s, e).history)
  {
    AgreeReference(cfg, was, fork, first, initial, e.to, e.to);
    assert Exact(cfg, was, first, initial, e) && Exact(cfg, fork, first, initial, e);
    RolledBackSnapshot(cfg, fork, first, initial, s, e);
    RolledBackHistory(cfg, was, fork, first, initial, s.history, e.to);
  }

  lemma {:induction false} UpToMember<S>(h: seq<Entry<S>>, block: nat, x: Entry<S>)
    ensures x in UpTo(h, block) <==> x in h && x.to <= block
  {
    if h != [] { UpToMember(h[1..], block, x); }
  }

  /** A rolled-back snapshot is the entry, with nothing processed since, and the history up to it. */
  lemma RolledBackIsEntry<S>(s: Snapshot<S>, e: Entry<S>, x: Entry<S>)
    ensures EntryOf(RolledBack(s, e)) == e && RolledBack(s, e).processed == {}
    ensures x in RolledBack(s, e).history <==> x in s.history && x.to <= e.to
  {
    UpToMember(s.history, e.to, x);
  }

  // ----- the cycle that meets the reorganization -----

  /** The deployment as a rollback to the entry would leave it, had it executed what the chain's reference
      executes up to there. */
  ghost function Rolled<S>(cfg: Config<S>, fork: seq<RawLog>, first: nat, initial: S, s: Snapshot<S>,
                           e: Entry<S>): Stored<S>
  {
    Stored(Some(RolledBack(s, e)), Reference(cfg, fork, first, initial, e.to).trace)
  }

  /** The cycle notices that the checkpoint's hash is gone, and rolls back to the entry. */
  ghost predicate RollsBack<S>(st: Stored<S>, args: SyncArgs, e: Entry<S>) {
    && !args.reset && args.policy == Rollback && st.snapshot.Some?
    && st.snapshot.value.hash.Some? && Mismatch(st.snapshot.value.hash.value, args.hashAt(st.snapshot.value.to))
    && FindSafe(st.snapshot.value.history, args.depth, args.hashAt) == Some(e)
  }

  /** A cycle stores nothing when it fails, when a handler traps, and when it finds no newer block. */
  predicate StoresNothing<S>(cfg: Config<S>, initial: S, chain: seq<RawLog>, previous: Snapshot<S>, args: SyncArgs,
                             fails: bool)
  {
    var pa := PassArgsFor(args, Some(previous));
    var r := Pass(cfg, chain, pa, StartEngine(initial, Some(previous), []));
    fails || r.halt == Trapped || Keeps(Some(previous), args, pa, RunOf(r))
  }

  /** The cycle that meets the reorg stores what a cycle from the rolled-back snapshot stores, if that stores
      anything; otherwise it leaves the old snapshot. */
  lemma ReorgCycle<S>(cfg: Config<S>, fork: seq<RawLog>, initial: S, st: Stored<S>, args: SyncArgs, fails: bool,
                      e: Entry<S>, trace: seq<Item>)
    requires RollsBack(st, args, e)
    ensures var direct := Cycle(cfg, initial, fork, st, args, fails);
            var rolled := Stored(Some(RolledBack(st.snapshot.value, e)), trace);
            var after := Cycle(cfg, initial, fork, rolled, args, fails);
            if StoresNothing(cfg, initial, fork, rolled.snapshot.value, args, fails)
            then direct == st && after == rolled
            else direct.snapshot == after.snapshot
  {
    var s := RolledBack(st.snapshot.value, e);
    assert ApplyReorgPolicy(st.snapshot, args) == Ok(Some(s));
    assert ApplyReorgPolicy(Some(s), args) == Ok(Some(s));
    var pa := PassArgsFor(args, Some(s));
    var base := StartEngine(initial, Some(s), []);
    PassTrace(cfg, fork, pa, base, trace);
    PassTrace(cfg, fork, pa, base, st.trace);
    assert StartEngine(initial, Some(s), trace) == base.(trace := trace);
    assert StartEngine(initial, Some(s), st.trace) == base.(trace := st.trace);
  }

  // ----- the policies -----

  /** The RPC has another hash for the checkpoint's block than the one stored. */
  predicate HashChanged<S>(st: Stored<S>, args: SyncArgs) {
    && st.snapshot.Some? && st.snapshot.value.hash.Some? && args.hashAt(st.snapshot.value.to).Some?
    && args.hashAt(st.snapshot.value.to).value != st.snapshot.value.hash.value
  }

  /** With a changed hash, `Fail` leaves the deployment as it is, and the cycle fails; so does `Rollback` when none of
      the newest entries is safe. */
  lemma PolicyFails<S>(cfg: Config<S>, initial: S, chain: seq<RawLog>, st: Stored<S>, args: SyncArgs, fails: bool,
                       reachable: Source -> bool)
    requires HashChanged(st, args) && !args.reset
    requires args.policy == Fail || (args.policy == Rollback &&
               forall e :: e in st.snapshot.value.history ==>
                 e.hash.None? || (args.hashAt(e.to).Some? && args.hashAt(e.to) != e.hash))
    ensures Cycle(cfg, initial, chain, st, args, fails) == st
    ensures Fails(cfg, initial, chain, st.snapshot, args, reachable)
  {
    if args.policy == Rollback {
      assert FindSafe(st.snapshot.value.history, args.depth, args.hashAt) == None;
    }
  }

  /** With a changed hash and `Reset`, or with the operator's reset, the cycle does what a first cycle does; when that
      stores nothing, the deployment stays as it is. */
  lemma PolicyResets<S>(cfg: Config<S>, initial: S, chain: seq<RawLog>, st: Stored<S>, args: SyncArgs, fails: bool)
    requires args.reset || (HashChanged(st, args) && args.policy == Reset)
    ensures var nothing: Stored<S> := Stored(None, []);
            var first := Cycle(cfg, initial, chain, nothing, args, fails);
            Cycle(cfg, initial, chain, st, args, fails) == if first == nothing then st else first
  {
  }

  /** Without a stored hash, without one from the RPC, or when they are the same, the policy does not matter, and the
      cycle goes on from the stored snapshot. */
  lemma NoReorg<S>(cfg: Config<S>, initial: S, chain: seq<RawLog>, st: Stored<S>, args: SyncArgs, fails: bool,
                   other: ReorgPolicy)
    requires st.snapshot.Some? && !args.reset && !HashChanged(st, args)
    ensures Cycle(cfg, initial, chain, st, args, fails) == Cycle(cfg, initial, chain, st, args.(policy := other), fails)
    ensures ApplyReorgPolicy(st.snapshot, args) == Ok(st.snapshot)
  {
  }

  // ----- what was executed does not matter -----

  /** What a cycle stores depends on the stored snapshot only. */
  lemma CycleIgnoresTrace<S>(cfg: Config<S>, initial: S, chain: seq<RawLog>, a: Stored<S>, b: Stored<S>, args: SyncArgs,
                             fails: bool)
    requires a.snapshot == b.snapshot
    ensures Cycle(cfg, initial, chain, a, args, fails).snapshot == Cycle(cfg, initial, chain, b, args, fails).snapshot
  {
    var previous := ApplyReorgPolicy(if args.reset then None else a.snapshot, args);
    if !fails && previous.Ok? {
      var pa := PassArgsFor(args, previous.value);
      var base := StartEngine(initial, previous.value, []);
      PassTrace(cfg, chain, pa, base, a.trace);
      PassTrace(cfg, chain, pa, base, b.trace);
      if previous.value.Some? {
        assert StartEngine(initial, previous.value, a.trace) == base.(trace := a.trace);
        assert StartEngine(initial, previous.value, b.trace) == base.(trace := b.trace);
      }
    }
  }

  lemma {:induction false} CyclesIgnoreTrace<S>(cfg: Config<S>, initial: S, chain: seq<RawLog>, a: Stored<S>,
                                                b: Stored<S>, runs: seq<(SyncArgs, bool)>, first: nat, hash: nat -> nat)
    requires a.snapshot == b.snapshot
    ensures Cycles(cfg, initial, chain, a, runs).snapshot == Cycles(cfg, initial, chain, b, runs).snapshot
    ensures Steady(cfg, initial, chain, a, runs, first, hash) ==> Steady(cfg, initial, chain, b, runs, first, hash)
    ensures Regular(cfg, initial, chain, a, runs, first) ==> Regular(cfg, initial, chain, b, runs, first)
    decreases runs
  {
    if runs != [] {
      var c := Cycle(cfg, initial, chain, a, runs[0].0, runs[0].1);
      var d := Cycle(cfg, initial, chain, b, runs[0].0, runs[0].1);
      CycleIgnoresTrace(cfg, initial, chain, a, b, runs[0].0, runs[0].1);
      CyclesIgnoreTrace(cfg, initial, chain, c, d, runs[1..], first, hash);
      if Steady(cfg, initial, chain, a, runs, first, hash) { assert Forward(cfg, initial, chain, b, runs[0].0, first); }
    }
  }

  // ----- rollback and resync -----

  /** The deployment holds, at its checkpoint, the reference's entities and sources. */
  ghost predicate HoldsReference<S>(cfg: Config<S>, chain: seq<RawLog>, first: nat, initial: S, st: Stored<S>) {
    st.snapshot.Some? && st.snapshot.value.complete ==>
      var reference := Reference(cfg, chain, first, initial, st.snapshot.value.to);
      reference.ok && st.snapshot.value.store == reference.store && st.snapshot.value.sources == reference.sources
  }

  /** From a rolled-back snapshot, any run of cycles over the new chain that ends complete stores what a sync
      of the new chain from scratch stores. */
  lemma RollbackThenResync<S(!new)>(cfg: Config<S>, was: seq<RawLog>, fork: seq<RawLog>, first: nat, initial: S,
                                    s: Snapshot<S>, e: Entry<S>, runs: seq<(SyncArgs, bool)>, hash: nat -> nat)
    requires Ordered(fork) && WfSources(cfg.statics, [])
    requires Regular(cfg, initial, fork, Rolled(cfg, fork, first, initial, s, e), runs, first)
    requires HistoryGood(cfg, was, first, initial, s.history) && e in s.history && e.complete
    requires Agree(was, fork, e.to) && e.hash == Some(hash(e.to))
    requires Steady(cfg, initial, fork, Rolled(cfg, fork, first, initial, s, e), runs, first, hash)
    ensures var start := Rolled(cfg, fork, first, initial, s, e);
            Faithful(cfg, fork, first, initial, Cycles(cfg, initial, fork, start, runs))
  {
    var start := Rolled(cfg, fork, first, initial, s, e);
    RollbackGood(cfg, was, fork, first, initial, s, e);
    CyclesKeepGood(cfg, fork, first, initial, start, runs, hash);
    GoodIsFaithful(cfg, fork, first, initial, Cycles(cfg, initial, fork, start, runs));
  }

  /** After the reorganization: the cycle that rolls back, and those that follow. */
  lemma ResyncAfter<S(!new)>(cfg: Config<S>, was: seq<RawLog>, fork: seq<RawLog>, first: nat, initial: S, st: Stored<S>,
                             e: Entry<S>, args: SyncArgs, fails: bool, after: seq<(SyncArgs, bool)>, hash: nat -> nat)
    requires Ordered(fork) && WfSources(cfg.statics, []) && RollsBack(st, args, e) && e.complete && Honest(args, hash)
    requires HistoryGood(cfg, was, first, initial, st.snapshot.value.history)
    requires Agree(was, fork, e.to) && e.hash == Some(hash(e.to))
    requires !StoresNothing(cfg, initial, fork, RolledBack(st.snapshot.value, e), args, fails)
    requires Forward(cfg, initial, fork, Rolled(cfg, fork, first, initial, st.snapshot.value, e), args, first)
    requires var mid := Cycle(cfg, initial, fork, st, args, fails);
             Regular(cfg, initial, fork, mid, after, first) && Steady(cfg, initial, fork, mid, after, first, hash)
    ensures var mid := Cycle(cfg, initial, fork, st, args, fails);
            HoldsReference(cfg, fork, first, initial, Cycles(cfg, initial, fork, mid, after))
  {
    assert e in st.snapshot.value.history;
    var rolled := Rolled(cfg, fork, first, initial, st.snapshot.value, e);
    var mid := Cycle(cfg, initial, fork, st, args, fails);
    var same := Cycle(cfg, initial, fork, rolled, args, fails);
    RollbackGood(cfg, was, fork, first, initial, st.snapshot.value, e);
    ReorgCycle(cfg, fork, initial, st, args, fails, e, rolled.trace);
    CyclesIgnoreTrace(cfg, initial, fork, mid, same, after, first, hash);
    assert AlwaysComplete(cfg, initial, fork, mid, after) ==> Completed(mid);
    CycleKeepsGood(cfg, fork, first, initial, rolled, args, fails, hash);
    CyclesKeepGood(cfg, fork, first, initial, same, after, hash);
    GoodIsFaithful(cfg, fork, first, initial, Cycles(cfg, initial, fork, same, after));
  }

  /** Rollback and resync equals fresh sync.  A deployment synced over the old chain meets the new one in a
      cycle that rolls back to a complete entry, up to which the chains agree, and goes on from there; then,
      whenever the cycles that follow end complete, it holds what a sync of the new chain from scratch holds. */
  lemma ReorgThenResync<S(!new)>(cfg: Config<S>, was: seq<RawLog>, fork: seq<RawLog>, first: nat, initial: S,
                                 before: seq<(SyncArgs, bool)>, args: SyncArgs, fails: bool,
                                 after: seq<(SyncArgs, bool)>, e: Entry<S>, wasHash: nat -> nat, hash: nat -> nat)
    requires Ordered(was) && Ordered(fork) && WfSources(cfg.statics, [])
    requires Regular(cfg, initial, was, Stored(None, []), before, first)
    requires Steady(cfg, initial, was, Stored(None, []), before, first, wasHash)
    requires RollsBack(Cycles(cfg, initial, was, Stored(None, []), before), args, e) && e.complete && Honest(args, hash)
    requires Agree(was, fork, e.to) && e.hash == Some(hash(e.to))
    requires var s := Cycles(cfg, initial, was, Stored(None, []), before).snapshot.value;
             && !StoresNothing(cfg, initial, fork, RolledBack(s, e), args, fails)
             && Forward(cfg, initial, fork, Rolled(cfg, fork, first, initial, s, e), args, first)
    requires var mid := Cycle(cfg, initial, fork, Cycles(cfg, initial, was, Stored(None, []), before), args, fails);
             Regular(cfg, initial, fork, mid, after, first) && Steady(cfg, initial, fork, mid, after, first, hash)
    ensures var st := Cycles(cfg, initial, was, Stored(None, []), before);
            var mid := Cycle(cfg, initial, fork, st, args, fails);
            HoldsReference(cfg, fork, first, initial, Cycles(cfg, initial, fork, mid, after))
  {
    CyclesKeepHistory(cfg, was, first, initial, Stored(None, []), before, wasHash);
    ResyncAfter(cfg, was, fork, first, initial, Cycles(cfg, initial, was, Stored(None, []), before), e, args, fails,
                after, hash);
  }
}
