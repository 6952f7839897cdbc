/** `sync_once`: one cycle of the indexer over its stored snapshot.  A cycle applies the reorg policy,
    runs one pass from where the snapshot says, and stores the new snapshot with its merged history. */
module Sync {
  import opened ChainModel
  import opened Streaming
  import opened Replay
  import opened Resume
  import opened HistoryWindow

  function SatSub(a: nat, b: nat): nat {
    if a < b then 0 else a - b
  }

  function Min(a: nat, b: nat): nat {
    if a < b then a else b
  }

  /** What is stored: the checkpoint (`from`, `to`, `hash`, `complete`), the state, the identities
      processed by an incomplete pass, and the retained history. */
  datatype Snapshot<+S> = Snapshot(from: Option<nat>, to: nat, hash: Option<nat>, complete: bool, store: S,
                                   sources: seq<Source>, processed: set<Id>, history: seq<Entry<S>>)

  datatype ReorgPolicy = Fail | Rollback | Reset

  /** One cycle's options and what the RPC answers in it: the head and block hashes. */
  datatype SyncArgs = SyncArgs(from: Option<nat>, explicitTo: Option<nat>, limit: nat, maxBlocks: nat, reset: bool,
                               policy: ReorgPolicy, depth: nat, historyLimit: nat, head: nat,
                               hashAt: nat -> Option<nat>)

  // ----- where a pass starts and ends -----

  function SyncStartBlock<S>(configured: Option<nat>, previous: Option<Snapshot<S>>, reset: bool): Option<nat> {
    if reset || previous.None? then configured
    else if previous.value.complete then Some(SaturatingAdd(previous.value.to, 1))
    else Some(if previous.value.from.Some? then previous.value.from.value else previous.value.to)
  }

  function BoundedToBlockFromHead(from: nat, head: nat, maxBlocks: nat): nat {
    if from > head then head else Min(SaturatingAdd(from, SatSub(maxBlocks, 1)), head)
  }

  /** `None` lets the scan go to the head. */
  function BoundedToBlock(args: SyncArgs, from: Option<nat>): Option<nat> {
    if args.explicitTo.Some? || args.maxBlocks == 0 then args.explicitTo
    else if from.None? then None
    else if from.value > args.head then Some(args.head)
    else Some(BoundedToBlockFromHead(from.value, args.head, args.maxBlocks))
  }

  function PassTo(args: SyncArgs, from: Option<nat>): nat {
    var to := BoundedToBlock(args, from);
    if to.Some? then to.value else args.head
  }

  predicate ShouldKeepPrevious<S>(previous: Snapshot<S>, from: Option<nat>, to: nat, complete: bool, executed: nat,
                                  explicitTo: Option<nat>)
  {
    && explicitTo.None? && previous.complete && complete && executed == 0 && to <= previous.to
    && from.Some? && from.value > to
  }

  // ----- reorgs -----

  /** A missing RPC hash is no mismatch. */
  predicate Mismatch(stored: nat, rpc: Option<nat>) {
    rpc.Some? && rpc.value != stored
  }

  predicate Safe<S>(e: Entry<S>, hashAt: nat -> Option<nat>) {
    e.hash.Some? && !Mismatch(e.hash.value, hashAt(e.to))
  }

  /** Looks back over the newest `depth` entries for one that the RPC does not contradict. */
  function FindSafe<S>(h: seq<Entry<S>>, depth: nat, hashAt: nat -> Option<nat>): (r: Option<Entry<S>>)
    ensures r.Some? ==> exists i :: |h| - depth <= i < |h| && 0 <= i && h[i] == r.value && Safe(h[i], hashAt)
                          && forall j :: i < j < |h| ==> !Safe(h[j], hashAt)
    ensures r.None? ==> forall i :: |h| - depth <= i < |h| && 0 <= i ==> !Safe(h[i], hashAt)
    decreases depth
  {
    if h == [] || depth == 0 then None
    else
      var last := h[|h| - 1];
      if Safe(last, hashAt) then Some(last) else FindSafe(h[..|h| - 1], depth - 1, hashAt)
  }

  function UpTo<S>(h: seq<Entry<S>>, block: nat): seq<Entry<S>> {
    if h == [] then [] else (if h[0].to <= block then [h[0]] else []) + UpTo(h[1..], block)
  }

  function RolledBack<S>(s: Snapshot<S>, e: Entry<S>): Snapshot<S> {
    Snapshot(e.from, e.to, e.hash, e.complete, e.store, e.sources, {}, UpTo(s.history, e.to))
  }

  function ApplyReorgPolicy<S>(loaded: Option<Snapshot<S>>, args: SyncArgs): Result<Option<Snapshot<S>>> {
    if loaded.None? then Ok(None)
    else
      var s := loaded.value;
      if s.hash.None? || !Mismatch(s.hash.value, args.hashAt(s.to)) then Ok(Some(s))
      else match args.policy
        case Fail => Err
        case Reset => Ok(None)
        case Rollback =>
          var safe := FindSafe(s.history, args.depth, args.hashAt);
          if safe.Some? then Ok(Some(RolledBack(s, safe.value))) else Err
  }

  // ----- one cycle -----

  function StartEngine<S>(initial: S, previous: Option<Snapshot<S>>, trace: seq<Item>): Engine<S> {
    if previous.None? then Engine(initial, [], trace, {}, true)
    else Engine(previous.value.store, previous.value.sources, trace,
                if previous.value.complete then {} else previous.value.processed, true)
  }

  function EntryOf<S>(s: Snapshot<S>): Entry<S> {
    Entry(s.from, s.to, s.hash, s.complete, s.store, s.sources)
  }

  function PassArgsFor<S>(args: SyncArgs, previous: Option<Snapshot<S>>): PassArgs {
    var from := SyncStartBlock(args.from, previous, args.reset);
    PassArgs(from, PassTo(args, from), args.limit, args.hashAt)
  }

  /** The snapshot a pass leads to. */
  function NextSnapshot<S>(previous: Option<Snapshot<S>>, args: SyncArgs, pa: PassArgs, r: ReplayRun<S>): Snapshot<S> {
    var current := Entry(pa.from, pa.to, pa.hashAt(pa.to), r.complete, r.eng.store, Persist(r.eng.dyn));
    Snapshot(pa.from, pa.to, pa.hashAt(pa.to), r.complete, r.eng.store, Persist(r.eng.dyn),
             if r.complete then {} else r.eng.processed,
             PushAll(if previous.Some? then previous.value.history else [],
                     Incoming(if previous.Some? then Some(EntryOf(previous.value)) else None, r.history, current),
                     args.historyLimit))
  }

  function RunOf<S>(r: Run<S>): ReplayRun<S> {
    ReplayRun(r.eng, r.executed, r.halt == Running, r.history)
  }

  predicate Keeps<S>(previous: Option<Snapshot<S>>, args: SyncArgs, pa: PassArgs, r: ReplayRun<S>) {
    previous.Some? && ShouldKeepPrevious(previous.value, pa.from, pa.to, r.complete, r.executed, args.explicitTo)
  }

  ghost predicate WfSnapshot<S>(cfg: Config<S>, s: Snapshot<S>) {
    WfSources(cfg.statics, s.sources) && forall d :: d in s.sources ==> d.resumed
  }

  ghost predicate WfStored<S(!new)>(cfg: Config<S>, stored: Option<Snapshot<S>>) {
    && WfSources(cfg.statics, [])
    && (stored.Some? ==> WfSnapshot(cfg, stored.value))
    && (stored.Some? ==> forall e :: e in stored.value.history ==> WfEntry(cfg, e))
  }

  ghost predicate WfEntry<S>(cfg: Config<S>, e: Entry<S>) {
    WfSources(cfg.statics, e.sources) && forall d :: d in e.sources ==> d.resumed
  }

  /** What a deployment has: its snapshot and what it executed towards it. */
  datatype Stored<+S> = Stored(snapshot: Option<Snapshot<S>>, trace: seq<Item>)

  /** The meaning of a cycle; `fails` says that something it needed from outside did not answer. */
  function Cycle<S>(cfg: Config<S>, initial: S, chain: seq<RawLog>, st: Stored<S>, args: SyncArgs,
                    fails: bool): Stored<S>
  {
    var previous := ApplyReorgPolicy(if args.reset then None else st.snapshot, args);
    if fails || previous.Err? then st
    else
      var pa := PassArgsFor(args, previous.value);
      var trace := if previous.value.None? then [] else st.trace;
      var run := Pass(cfg, chain, pa, StartEngine(initial, previous.value, trace));
      if run.halt == Trapped || Keeps(previous.value, args, pa, RunOf(run)) then st
      else Stored(Some(NextSnapshot(previous.value, args, pa, RunOf(run))), run.eng.trace)
  }

  /** When a cycle fails: the reorg policy refuses the stored snapshot, a handler traps, or the RPC does not answer for
      one of the sources that its pass knows or creates. */
  predicate Fails<S>(cfg: Config<S>, initial: S, chain: seq<RawLog>, stored: Option<Snapshot<S>>, args: SyncArgs,
                     reachable: Source -> bool)
  {
    var previous := ApplyReorgPolicy(if args.reset then None else stored, args);
    previous.Err? ||
    var r := Pass(cfg, chain, PassArgsFor(args, previous.value), StartEngine(initial, previous.value, []));
    r.halt == Trapped || !AllReachable(cfg.statics + r.eng.dyn, reachable)
  }

  /** What a cycle that does not fail reports: the checkpoint it keeps, or what it has stored. */
  function Reported<S>(cfg: Config<S>, initial: S, chain: seq<RawLog>, before: Option<Snapshot<S>>, args: SyncArgs,
                       stored: Option<Snapshot<S>>): Option<Snapshot<S>>
  {
    var previous := ApplyReorgPolicy(if args.reset then None else before, args);
    if previous.Err? then None
    else
      var pa := PassArgsFor(args, previous.value);
      var r := Pass(cfg, chain, pa, StartEngine(initial, previous.value, []));
      if Keeps(previous.value, args, pa, RunOf(r)) then previous.value else stored
  }

  /** The indexer of one deployment: the stored snapshot, and what it has executed towards it. */
  class Indexer<S(!new)> {
    const cfg: Config<S>
    const initial: S
    var stored: Option<Snapshot<S>>
    ghost var trace: seq<Item>

    constructor (cfg: Config<S>, initial: S)
      ensures this.cfg == cfg && this.initial == initial && stored == None && trace == []
    {
      this.cfg := cfg;
      this.initial := initial;
      stored := None;
      trace := [];
    }

    /** One cycle.  When it fails, nothing is stored; when it keeps the previous checkpoint, neither.
        Otherwise it stores the snapshot that the streaming pass leads to.  It fails only for a reason. */
    method SyncOnce(chain: seq<RawLog>, args: SyncArgs, reachable: Source -> bool) returns (out: Result<Snapshot<S>>)
      requires Ordered(chain) && WfStored(cfg, stored)
      modifies this
      ensures WfStored(cfg, stored)
      ensures out.Err? ==> stored == old(stored) && trace == old(trace)
      ensures Stored(stored, trace) == Cycle(cfg, initial, chain, old(Stored(stored, trace)), args, out.Err?)
      ensures out.Err? <==> old(Fails(cfg, initial, chain, stored, args, reachable))
      ensures out.Ok? ==> Some(out.value) == Reported(cfg, initial, chain, old(stored), args, stored)
    {
      CycleWf(cfg, initial, chain, Stored(stored, trace), args, false);
      var previous := ApplyReorgPolicy(if args.reset then None else stored, args);
      if previous.Err? { return Err; }
      var pa := PassArgsFor(args, previous.value);
      var start := StartEngine(initial, previous.value, []);
      ReorgWf(cfg, stored, args);
      ghost var before := if previous.value.None? then [] else trace;
      var run := RunReplay(cfg, chain, pa, start, reachable);
      if run.Err? { return Err; }
      PassTrace(cfg, chain, pa, start, before);
      assert StartEngine(initial, previous.value, before) == start.(trace := before);
      var r := run.value;
      if Keeps(previous.value, args, pa, r) {
        return Ok(previous.value.value);
      }
      var history := new History<S>(if previous.value.Some? then previous.value.value.history else []);
      var current := Entry(pa.from, pa.to, pa.hashAt(pa.to), r.complete, r.eng.store, Persist(r.eng.dyn));
      history.Merge(if previous.value.Some? then Some(EntryOf(previous.value.value)) else None, r.history, current,
                    args.historyLimit);
      var snapshot := Snapshot(pa.from, pa.to, pa.hashAt(pa.to), r.complete, r.eng.store, Persist(r.eng.dyn),
                               if r.complete then {} else r.eng.processed, history.entries);
      stored := Some(snapshot);
      trace := before + r.eng.trace;
      out := Ok(snapshot);
    }
  }

  // ----- what is stored stays well-formed -----

  lemma {:induction false} UpToSubset<S>(h: seq<Entry<S>>, block: nat, x: Entry<S>)
    ensures x in UpTo(h, block) ==> x in h
  {
    if h != [] { UpToSubset(h[1..], block, x); }
  }

  lemma ReorgWf<S(!new)>(cfg: Config<S>, stored: Option<Snapshot<S>>, args: SyncArgs)
    requires WfStored(cfg, stored)
    ensures var p := ApplyReorgPolicy(if args.reset then None else stored, args);
            p.Ok? ==> WfStored(cfg, p.value)
  {
    if stored.Some? {
      var h := stored.value.history;
      var safe := FindSafe(h, args.depth, args.hashAt);
      if safe.Some? {
        assert safe.value in h;
        forall e | e in UpTo(h, safe.value.to) ensures e in h { UpToSubset(h, safe.value.to, e); }
      }
    }
  }

  lemma PersistedWf<S>(cfg: Config<S>, dyn: seq<Source>)
    requires WfSources(cfg.statics, dyn)
    ensures WfSources(cfg.statics, Persist(dyn)) && forall d :: d in Persist(dyn) ==> d.resumed
  {
    PersistTwice(dyn);
  }

  ghost predicate WfHistory<S>(cfg: Config<S>, h: seq<Entry<S>>) {
    forall e :: e in h ==> WfEntry(cfg, e)
  }

  lemma {:induction false} RunWf<S>(cfg: Config<S>, args: PassArgs, r: Run<S>, logs: seq<RawLog>)
    requires r.halt == Running && r.eng.ok && Wf(cfg, r.eng) && WfHistory(cfg, r.history)
    ensures Wf(cfg, RunLogs(cfg, args, r, logs).eng) && WfHistory(cfg, RunLogs(cfg, args, r, logs).history)
    decreases logs
  {
    if logs != [] {
      RunOneLog(cfg, args, r, logs[0]);
      var s := RunItems(cfg, args, r, FreshAt(cfg, r.eng, logs[0]));
      if s.halt == Running {
        PersistedWf(cfg, s.eng.dyn);
        RunWf(cfg, args, Close(args, s, logs), logs[1..]);
      }
    }
  }

  lemma NextWf<S(!new)>(cfg: Config<S>, chain: seq<RawLog>, previous: Option<Snapshot<S>>, args: SyncArgs, pa: PassArgs,
                        e: Engine<S>, r: Run<S>)
    requires WfStored(cfg, previous) && Wf(cfg, e) && e.ok && r == Pass(cfg, chain, pa, e)
    ensures WfStored(cfg, Some(NextSnapshot(previous, args, pa, RunOf(r))))
  {
    var next := NextSnapshot(previous, args, pa, RunOf(r));
    RunWf(cfg, pa, StartRun(e), PassLogs(chain, pa));
    PersistedWf(cfg, r.eng.dyn);
    var prior := if previous.Some? then previous.value.history else [];
    var incoming := Incoming(if previous.Some? then Some(EntryOf(previous.value)) else None, r.history, EntryOf(next));
    assert next.history == PushAll(prior, incoming, args.historyLimit);
    forall x | x in next.history ensures WfEntry(cfg, x) { PushAllSubset(prior, incoming, args.historyLimit, x); }
  }

  /** What a cycle stores is well-formed again, so the next cycle may start from it. */
  lemma CycleWf<S(!new)>(cfg: Config<S>, initial: S, chain: seq<RawLog>, st: Stored<S>, args: SyncArgs, fails: bool)
    requires WfStored(cfg, st.snapshot)
    ensures WfStored(cfg, Cycle(cfg, initial, chain, st, args, fails).snapshot)
  {
    ReorgWf(cfg, st.snapshot, args);
    var previous := ApplyReorgPolicy(if args.reset then None else st.snapshot, args);
    if !fails && previous.Ok? {
      var pa := PassArgsFor(args, previous.value);
      var e := StartEngine(initial, previous.value, if previous.value.None? then [] else st.trace);
      NextWf(cfg, chain, previous.value, args, pa, e, Pass(cfg, chain, pa, e));
    }
  }

  // ----- the trace only records -----

  function Traced<S>(e: Engine<S>, before: seq<Item>): Engine<S> {
    e.(trace := before + e.trace)
  }

  lemma {:induction false} ItemsTrace<S>(cfg: Config<S>, args: PassArgs, r: Run<S>, items: seq<Item>, before: seq<Item>)
    ensures var s := RunItems(cfg, args, r, items);
            RunItems(cfg, args, r.(eng := Traced(r.eng, before)), items) == s.(eng := Traced(s.eng, before))
    decreases items
  {
    if r.halt == Running && items != [] {
      assert (before + r.eng.trace) + [items[0]] == before + (r.eng.trace + [items[0]]);
      var s := RunItem(cfg, args, r, items[0]);
      assert RunItem(cfg, args, r.(eng := Traced(r.eng, before)), items[0]) == s.(eng := Traced(s.eng, before));
      ItemsTrace(cfg, args, s, items[1..], before);
    }
  }

  lemma {:induction false} LogsTrace<S>(cfg: Config<S>, args: PassArgs, r: Run<S>, logs: seq<RawLog>, before: seq<Item>)
    ensures var s := RunLogs(cfg, args, r, logs);
            RunLogs(cfg, args, r.(eng := Traced(r.eng, before)), logs) == s.(eng := Traced(s.eng, before))
    decreases logs
  {
    if r.halt == Running && logs != [] {
      var items := FreshAt(cfg, r.eng, logs[0]);
      ItemsTrace(cfg, args, r, items, before);
      var s := RunItems(cfg, args, r, items);
      LogsTrace(cfg, args, Close(args, s, logs), logs[1..], before);
    }
  }

  /** What was executed before does not change what a pass does. */
  lemma PassTrace<S>(cfg: Config<S>, chain: seq<RawLog>, args: PassArgs, e: Engine<S>, before: seq<Item>)
    requires e.trace == []
    ensures var s := Pass(cfg, chain, args, e);
            Pass(cfg, chain, args, e.(trace := before)) == s.(eng := Traced(s.eng, before))
  {
    LogsTrace(cfg, args, StartRun(e), PassLogs(chain, args), before);
    assert Traced(e, before) == e.(trace := before);
  }
}
