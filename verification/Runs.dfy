/** Whole runs of the indexer.  However a sync is cut into cycles, it ends with the state of one ordered
    walk of the chain; and what a rollback leaves behind continues to the state of a fresh sync. */
module Runs {
  import opened ChainModel
  import opened Streaming
  import opened Replay
  import opened Resume
  import opened Sync

  function FreshEngine<S>(initial: S): Engine<S> {
    Engine(initial, [], [], {}, true)
  }

  /** The reference: what a walk of the blocks `first` to `to` leads to. */
  function Reference<S>(cfg: Config<S>, chain: seq<RawLog>, first: nat, initial: S, to: nat): View<S> {
    ViewOf(Walk(cfg, FreshEngine(initial), LogsIn(chain, first, to)))
  }

  /** No two dynamic sources ever created share an address. */
  ghost predicate ApartChain<S>(cfg: Config<S>, chain: seq<RawLog>, first: nat, initial: S) {
    forall t: nat :: Apart(Reference(cfg, chain, first, initial, t).sources)
  }

  /** No dynamic source ever created has a log at or before its creating log in that block. */
  ghost predicate NoneEarlierChain<S>(cfg: Config<S>, chain: seq<RawLog>, first: nat, initial: S) {
    forall t: nat :: NoneEarlier(Reference(cfg, chain, first, initial, t).sources, chain)
  }

  /** None of the sources has a log after block `t` and before block `start`. */
  ghost predicate Quiet(sources: seq<Source>, chain: seq<RawLog>, t: nat, start: nat) {
    forall s, l :: s in sources && l in chain && t < l.pos.block < start ==> !Filter(s, l)
  }

  /** Nothing that the state holds comes from a block after `t`: nothing processed lies there, and no source
      has a log there that was passed before block `start`. */
  ghost predicate Behind<S>(cfg: Config<S>, chain: seq<RawLog>, e: Engine<S>, start: nat, t: nat) {
    && (forall id :: id in e.processed ==> id.pos.block <= t)
    && Quiet(cfg.statics + e.dyn, chain, t, start)
  }

  /** Walking on from `e` at block `start`, skipping what is processed, leads where the reference leads, to
      every block that the state has not gone past. */
  ghost predicate Consistent<S>(cfg: Config<S>, chain: seq<RawLog>, first: nat, initial: S, e: Engine<S>, start: nat) {
    forall t: nat :: first <= t + 1 && Behind(cfg, chain, e, start, t) ==>
      ViewOf(WalkP(cfg, e, LogsIn(chain, start, t))) == Reference(cfg, chain, first, initial, t)
  }

  /** Every processed identity is one of an executed item. */
  ghost predicate Recorded<S>(e: Engine<S>) {
    forall id :: id in e.processed ==> exists x :: x in e.trace && IdOf(x) == id
  }

  ghost predicate Tidy<S>(cfg: Config<S>, e: Engine<S>) {
    && Wf(cfg, e) && e.ok && StrictlySorted(e.dyn) && Recorded(e)
    && forall d :: d in e.dyn ==> d.resumed
  }

  ghost predicate GoodState<S>(cfg: Config<S>, chain: seq<RawLog>, first: nat, initial: S, e: Engine<S>, start: nat) {
    Consistent(cfg, chain, first, initial, e, start) && first <= start && Tidy(cfg, e)
  }

  // ----- points of the reference walk -----

  /** What was processed or created lies at or before block `bound`. */
  ghost predicate Within<S>(e: Engine<S>, bound: nat) {
    && (forall id :: id in e.processed ==> id.pos.block <= bound)
    && (forall d :: d in e.dyn ==> d.resumed || d.born.block <= bound)
  }

  lemma {:induction false} ItemsWithin<S>(cfg: Config<S>, e: Engine<S>, items: seq<Item>, bound: nat)
    requires Within(e, bound) && forall x :: x in items ==> x.log.pos.block <= bound
    ensures Within(WalkItems(cfg, e, items), bound)
    decreases items
  {
    if e.ok && items != [] {
      assert items[0] in items;
      ItemsWithin(cfg, Step(cfg, e, items[0]), items[1..], bound);
    }
  }

  lemma {:induction false} WalkWithin<S>(cfg: Config<S>, e: Engine<S>, logs: seq<RawLog>, bound: nat)
    requires Wf(cfg, e) && Within(e, bound) && forall l :: l in logs ==> l.pos.block <= bound
    ensures Wf(cfg, Walk(cfg, e, logs)) && Within(Walk(cfg, e, logs), bound)
    decreases logs
  {
    if e.ok && logs != [] {
      var items := Active(cfg, e, logs[0]);
      ActiveAtLog(cfg, e, logs[0]);
      assert logs[0] in logs;
      WalkItemsWf(cfg, e, items);
      ItemsWithin(cfg, e, items, bound);
      WalkWithin(cfg, WalkItems(cfg, e, items), logs[1..], bound);
    }
  }

  lemma ReferencePoint<S>(cfg: Config<S>, chain: seq<RawLog>, first: nat, initial: S, b: nat, x: Engine<S>)
    requires WfSources(cfg.statics, [])
    requires x == Walk(cfg, FreshEngine(initial), LogsIn(chain, first, b))
    ensures Wf(cfg, x) && Within(x, b)
  {
    forall l | l in LogsIn(chain, first, b) ensures l.pos.block <= b { LogsInMember(chain, first, b, l); }
    WalkWithin(cfg, FreshEngine(initial), LogsIn(chain, first, b), b);
  }

  /** The reference walk goes on from a point of it. */
  lemma WalkOn<S>(cfg: Config<S>, chain: seq<RawLog>, first: nat, initial: S, b: nat, next: nat, x: Engine<S>,
                  rest: seq<RawLog>, t: nat)
    requires Ordered(chain) && WfSources(cfg.statics, []) && first <= next && next == b + 1 && b <= t
    requires x == Walk(cfg, FreshEngine(initial), LogsIn(chain, first, b)) && rest == LogsIn(chain, next, t)
    ensures ViewOf(WalkP(cfg, x, rest)) == Reference(cfg, chain, first, initial, t)
  {
    ReferencePoint(cfg, chain, first, initial, b, x);
    LogsInOrdered(chain, next, t);
    forall l | l in rest ensures l.pos.block >= next { LogsInMember(chain, next, t, l); }
    WalkPIsWalk(cfg, x, rest);
    LogsInSplit(chain, first, b, t);
    WalkConcat(cfg, FreshEngine(initial), LogsIn(chain, first, b), rest);
  }

  // ----- blocks in which nothing happens -----

  lemma {:induction false} IdleWalk<S>(cfg: Config<S>, e: Engine<S>, logs: seq<RawLog>)
    requires forall l :: l in logs ==> FreshAt(cfg, e, l) == []
    ensures WalkP(cfg, e, logs) == e
    decreases logs
  {
    if e.ok && logs != [] {
      assert logs[0] in logs;
      IdleWalk(cfg, e, logs[1..]);
    }
  }

  lemma QuietWalk<S>(cfg: Config<S>, chain: seq<RawLog>, e: Engine<S>, from: nat, to: nat)
    requires forall s, l :: s in cfg.statics + e.dyn && l in chain && from <= l.pos.block <= to ==> !Filter(s, l)
    ensures WalkP(cfg, e, LogsIn(chain, from, to)) == e
  {
    forall l | l in LogsIn(chain, from, to)
      ensures FreshAt(cfg, e, l) == []
    {
      LogsInMember(chain, from, to, l);
      ItemsAtNone(cfg.statics + e.dyn, l);
    }
    IdleWalk(cfg, e, LogsIn(chain, from, to));
  }

  /** Where no source of the reference has a log, the reference stays as it is. */
  lemma QuietReference<S>(cfg: Config<S>, chain: seq<RawLog>, first: nat, initial: S, t: nat, b: nat, next: nat)
    requires Ordered(chain) && WfSources(cfg.statics, []) && next == t + 1 && first <= next && t <= b
    requires Quiet(cfg.statics + Reference(cfg, chain, first, initial, b).sources, chain, t, b + 1)
    ensures Reference(cfg, chain, first, initial, t) == Reference(cfg, chain, first, initial, b)
  {
    var x := Walk(cfg, FreshEngine(initial), LogsIn(chain, first, t));
    var rest := LogsIn(chain, next, b);
    WalkOn(cfg, chain, first, initial, t, next, x, rest, b);
    SourcesGrow(cfg, x, rest);
    PersistPrefix(WalkP(cfg, x, rest).dyn, x.dyn);
    forall s, l | s in cfg.statics + x.dyn && l in chain && next <= l.pos.block <= b
      ensures !Filter(s, l)
    {
      if s in x.dyn {
        PersistMember(x.dyn, s);
        assert s.(resumed := true) in cfg.statics + Reference(cfg, chain, first, initial, b).sources;
        assert !Filter(s.(resumed := true), l);
      }
    }
    QuietWalk(cfg, chain, x, next, b);
  }

  // ----- one pass -----

  /** The engine the next pass starts from. */
  function Reloaded<S>(r: Run<S>): Engine<S> {
    Engine(r.eng.store, Persist(r.eng.dyn), r.eng.trace, if r.halt == Running then {} else r.eng.processed, true)
  }

  /** What a run leaves: everything recorded, and nothing past block `bound`. */
  ghost predicate Bounded<S>(e: Engine<S>, bound: nat) {
    Within(e, bound) && Recorded(e)
  }

  lemma {:induction false} RunItemsBounded<S>(cfg: Config<S>, args: PassArgs, r: Run<S>, items: seq<Item>, bound: nat)
    requires Bounded(r.eng, bound) && forall x :: x in items ==> x.log.pos.block <= bound
    ensures Bounded(RunItems(cfg, args, r, items).eng, bound)
    ensures r.eng.processed <= RunItems(cfg, args, r, items).eng.processed
    decreases items
  {
    if r.halt == Running && items != [] {
      assert items[0] in items;
      var s := RunItem(cfg, args, r, items[0]);
      RecordedStep(cfg, r.eng, items[0]);
      RunItemsBounded(cfg, args, s, items[1..], bound);
    }
  }

  lemma RecordedStep<S>(cfg: Config<S>, e: Engine<S>, x: Item)
    requires Recorded(e)
    ensures Recorded(Step(cfg, e, x))
  {
    if Clean(cfg, e.store, x) {
      var f := Step(cfg, e, x);
      forall id | id in f.processed
        ensures exists y :: y in f.trace && IdOf(y) == id
      {
        if id in e.processed {
          var y :| y in e.trace && IdOf(y) == id;
          assert y in f.trace;
        } else {
          assert x in f.trace;
        }
      }
    }
  }

  lemma {:induction false} RunBounded<S>(cfg: Config<S>, args: PassArgs, r: Run<S>, logs: seq<RawLog>, bound: nat)
    requires Bounded(r.eng, bound) && forall l :: l in logs ==> l.pos.block <= bound
    ensures Bounded(RunLogs(cfg, args, r, logs).eng, bound)
    ensures r.eng.processed <= RunLogs(cfg, args, r, logs).eng.processed
    decreases logs
  {
    if r.halt == Running && logs != [] {
      ActiveAtLog(cfg, r.eng, logs[0]);
      assert logs[0] in logs;
      RunItemsBounded(cfg, args, r, FreshAt(cfg, r.eng, logs[0]), bound);
      var s := RunItems(cfg, args, r, FreshAt(cfg, r.eng, logs[0]));
      RunBounded(cfg, args, Close(args, s, logs), logs[1..], bound);
    }
  }

  lemma WfSnapshotOf<S>(cfg: Config<S>, dyn: seq<Source>)
    requires WfSources(cfg.statics, dyn)
    ensures WfSources(cfg.statics, Persist(dyn)) && StrictlySorted(Persist(dyn))
    ensures forall d :: d in Persist(dyn) ==> d.resumed
    ensures Persist(Persist(dyn)) == Persist(dyn)
  {
    PersistSorted(dyn);
    PersistTwice(dyn);
  }

  /** Reloading an engine from its snapshot does not change where it leads. */
  lemma ReloadAlike<S>(cfg: Config<S>, chain: seq<RawLog>, e: Engine<S>, from: nat, t: nat)
    requires Wf(cfg, e) && OnlyLater(e.dyn, LogsIn(chain, from, t))
    requires Apart(ViewOf(WalkP(cfg, e, LogsIn(chain, from, t))).sources)
    ensures ViewOf(WalkP(cfg, e.(dyn := Persist(e.dyn)), LogsIn(chain, from, t)))
         == ViewOf(WalkP(cfg, e, LogsIn(chain, from, t)))
  {
    var logs := LogsIn(chain, from, t);
    WfSnapshotOf(cfg, e.dyn);
    forall s, p, l | s in e.dyn && p in Persist(e.dyn) && l in logs
      ensures TwinAt(s, p, l)
    {
      assert p.resumed;
    }
    WalksAlike(cfg, e, e.(dyn := Persist(e.dyn)), logs);
  }

  /** A pass, stopped or not, can be continued beyond its end by walking its range again. */
  lemma ContinueStopped<S>(cfg: Config<S>, chain: seq<RawLog>, e: Engine<S>, args: PassArgs, t: nat)
    requires Ordered(chain) && Wf(cfg, e) && e.ok && t >= args.to && LowerBound(args.from) <= args.to + 1
    ensures var r := Pass(cfg, chain, args, e);
            var logs := LogsIn(chain, LowerBound(args.from), t);
            && Wf(cfg, r.eng) && r.eng.ok
            && WalkP(cfg, r.eng, logs) == WalkP(cfg, e, logs)
            && (r.halt == Running ==> WalkP(cfg, r.eng, LogsIn(chain, args.to + 1, t)) == WalkP(cfg, e, logs))
  {
    var start := LowerBound(args.from);
    var r := Pass(cfg, chain, args, e);
    var a, b := LogsIn(chain, start, args.to), LogsIn(chain, args.to + 1, t);
    LogsInOrdered(chain, start, args.to);
    LogsInSplit(chain, start, args.to, t);
    RunContinues(cfg, args, StartRun(e), a);
    WalkPConcat(cfg, r.eng, a, b);
    WalkPConcat(cfg, e, a, b);
  }

  // ----- a pass that stops early -----

  /** A run over two stretches of blocks is a run over one and then over the other. */
  lemma {:induction false} RunConcat<S>(cfg: Config<S>, args: PassArgs, r: Run<S>, a: seq<RawLog>, b: seq<RawLog>)
    requires forall x, y :: x in a && y in b ==> x.pos.block != y.pos.block
    ensures RunLogs(cfg, args, r, a + b) == RunLogs(cfg, args, RunLogs(cfg, args, r, a), b)
    decreases a
  {
    if a == [] {
      assert a + b == b;
    } else if r.halt == Running {
      assert (a + b)[1..] == a[1..] + b && (a + b)[0] == a[0];
      var s := RunItems(cfg, args, r, FreshAt(cfg, r.eng, a[0]));
      SameClose(args, s, a, b);
      assert forall x :: x in a[1..] ==> x in a;
      RunConcat(cfg, args, Close(args, s, a), a[1..], b);
    }
  }

  lemma SameClose<S>(args: PassArgs, s: Run<S>, a: seq<RawLog>, b: seq<RawLog>)
    requires a != [] && forall x, y :: x in a && y in b ==> x.pos.block != y.pos.block
    ensures Close(args, s, a + b) == Close(args, s, a)
  {
    assert (a + b)[0] == a[0];
    if |a| == 1 && b != [] {
      assert (a + b)[1] == b[0] && a[0] in a && b[0] in b;
    }
  }

  /** A run that processed nothing in its logs changed nothing. */
  lemma {:induction false} NothingRun<S>(cfg: Config<S>, args: PassArgs, r: Run<S>, logs: seq<RawLog>, t: nat)
    requires forall l :: l in logs ==> l.pos.block > t
    requires forall id :: id in RunLogs(cfg, args, r, logs).eng.processed ==> id.pos.block <= t
    ensures RunLogs(cfg, args, r, logs).eng == r.eng
    decreases logs
  {
    if r.halt == Running && logs != [] {
      var items := FreshAt(cfg, r.eng, logs[0]);
      var s := RunItems(cfg, args, r, items);
      assert logs[0] in logs && forall l :: l in logs[1..] ==> l in logs;
      NothingRun(cfg, args, Close(args, s, logs), logs[1..], t);
      ActiveAtLog(cfg, r.eng, logs[0]);
      if items != [] {
        FirstRun(cfg, args, r, items, t);
      }
    }
  }

  lemma FirstRun<S>(cfg: Config<S>, args: PassArgs, r: Run<S>, items: seq<Item>, t: nat)
    requires r.halt == Running && items != [] && items[0].log.pos.block > t
    requires forall id :: id in RunItems(cfg, args, r, items).eng.processed ==> id.pos.block <= t
    ensures RunItems(cfg, args, r, items).eng == r.eng
  {
    var x := items[0];
    var s := RunItem(cfg, args, r, x);
    assert s.halt == Running ==> IdOf(x) in s.eng.processed;
    RunItemsKeep(cfg, args, s, items[1..], IdOf(x));
  }

  lemma {:induction false} RunItemsKeep<S>(cfg: Config<S>, args: PassArgs, r: Run<S>, items: seq<Item>, id: Id)
    ensures id in r.eng.processed ==> id in RunItems(cfg, args, r, items).eng.processed
    decreases items
  {
    if r.halt == Running && items != [] {
      RunItemsKeep(cfg, args, RunItem(cfg, args, r, items[0]), items[1..], id);
    }
  }

  /** A pass that processed nothing after block `t` left the walk to block `t` as it was. */
  lemma StoppedWalk<S>(cfg: Config<S>, chain: seq<RawLog>, e: Engine<S>, args: PassArgs, start: nat, r: Run<S>, t: nat,
                       next: nat)
    requires Ordered(chain) && Wf(cfg, e) && e.ok
    requires start == LowerBound(args.from) <= next && next == t + 1 && t < args.to
    requires r == Pass(cfg, chain, args, e) && forall id :: id in r.eng.processed ==> id.pos.block <= t
    ensures Wf(cfg, r.eng) && r.eng.ok
    ensures WalkP(cfg, r.eng, LogsIn(chain, start, t)) == WalkP(cfg, e, LogsIn(chain, start, t))
  {
    var a, b := LogsIn(chain, start, t), LogsIn(chain, next, args.to);
    LogsInSplit(chain, start, t, args.to);
    forall x | x in a ensures x.pos.block <= t { LogsInMember(chain, start, t, x); }
    forall y | y in b ensures y.pos.block > t { LogsInMember(chain, next, args.to, y); }
    RunConcat(cfg, args, StartRun(e), a, b);
    NothingRun(cfg, args, RunLogs(cfg, args, StartRun(e), a), b, t);
    LogsInOrdered(chain, start, t);
    RunContinues(cfg, args, StartRun(e), a);
  }

  /** A pass with nothing processed at or after its start left everything as it was. */
  lemma IdlePass<S>(cfg: Config<S>, chain: seq<RawLog>, e: Engine<S>, args: PassArgs, r: Run<S>, t: nat)
    requires t < LowerBound(args.from) && r == Pass(cfg, chain, args, e)
    requires forall id :: id in r.eng.processed ==> id.pos.block <= t
    ensures r.eng == e
  {
    forall l | l in PassLogs(chain, args)
      ensures l.pos.block > t
    {
      LogsInMember(chain, LowerBound(args.from), args.to, l);
    }
    NothingRun(cfg, args, StartRun(e), PassLogs(chain, args), t);
  }

  lemma EarlierLogs<S>(cfg: Config<S>, chain: seq<RawLog>, e: Engine<S>, f: Engine<S>, logs: seq<RawLog>)
    requires |e.dyn| <= |f.dyn| && f.dyn[..|e.dyn|] == e.dyn && NoneEarlier(Persist(f.dyn), chain)
    requires forall l :: l in logs ==> l in chain
    ensures OnlyLater(e.dyn, logs)
  {
    forall s, l | s in e.dyn && !s.resumed && l in logs && Filter(s, l)
      ensures Before(s.born, l.pos)
    {
      PersistMember(e.dyn, s);
      PersistPrefix(f.dyn, e.dyn);
      assert Filter(s.(resumed := true), l);
    }
  }

  /** The walk after a snapshot, when the pass stopped early. */
  lemma AfterStop<S>(cfg: Config<S>, chain: seq<RawLog>, first: nat, initial: S, e: Engine<S>, args: PassArgs,
                     start: nat, r: Run<S>, t: nat, next: nat)
    requires Ordered(chain) && start == LowerBound(args.from) <= args.to && first <= next && next == t + 1
    requires ApartChain(cfg, chain, first, initial) && NoneEarlierChain(cfg, chain, first, initial)
    requires GoodState(cfg, chain, first, initial, e, start)
    requires r == Pass(cfg, chain, args, e) && r.halt != Running && e.processed <= r.eng.processed
    requires Behind(cfg, chain, Reloaded(r), start, t)
    ensures ViewOf(WalkP(cfg, Reloaded(r), LogsIn(chain, start, t))) == Reference(cfg, chain, first, initial, t)
  {
    var logs := LogsIn(chain, start, t);
    if start <= next {
      if t < args.to { StoppedWalk(cfg, chain, e, args, start, r, t, next); }
      else { ContinueStopped(cfg, chain, e, args, t); }
      assert Behind(cfg, chain, e, start, t);
      forall l | l in logs ensures l in chain { LogsInMember(chain, start, t, l); }
      SourcesGrow(cfg, r.eng, logs);
      EarlierLogs(cfg, chain, r.eng, WalkP(cfg, r.eng, logs), logs);
      ReloadAlike(cfg, chain, r.eng, start, t);
      assert Reloaded(r) == r.eng.(dyn := Persist(r.eng.dyn));
    } else {
      IdlePass(cfg, chain, e, args, r, t);
      PersistIdem(e.dyn);
      assert Reloaded(r) == e;
    }
  }

  // ----- a pass that completes -----

  /** Forgetting the processed set is harmless once the walk is past it. */
  lemma ForgetProcessed<S>(cfg: Config<S>, chain: seq<RawLog>, e: Engine<S>, next: nat, t: nat)
    requires Ordered(chain) && forall id :: id in e.processed ==> id.pos.block < next
    ensures ViewOf(WalkP(cfg, e.(processed := {}), LogsIn(chain, next, t)))
            == ViewOf(WalkP(cfg, e, LogsIn(chain, next, t)))
  {
    var b := LogsIn(chain, next, t);
    LogsInOrdered(chain, next, t);
    forall l | l in b ensures l.pos.block >= next { LogsInMember(chain, next, t, l); }
    WalkPIsWalk(cfg, e, b);
    WalkProcessed(cfg, e, b, {});
    WalkPIsWalk(cfg, e.(processed := {}), b);
  }

  lemma ForgetAndReload<S>(cfg: Config<S>, chain: seq<RawLog>, e: Engine<S>, y: Engine<S>, b: nat, next: nat, t: nat)
    requires y == Engine(e.store, Persist(e.dyn), e.trace, {}, e.ok)
    requires Ordered(chain) && Wf(cfg, e) && Within(e, b) && next == b + 1
    requires Apart(ViewOf(WalkP(cfg, e, LogsIn(chain, next, t))).sources)
    ensures ViewOf(WalkP(cfg, y, LogsIn(chain, next, t))) == ViewOf(WalkP(cfg, e, LogsIn(chain, next, t)))
  {
    var clean := e.(processed := {});
    ForgetProcessed(cfg, chain, e, next, t);
    forall l | l in LogsIn(chain, next, t) ensures l.pos.block >= next { LogsInMember(chain, next, t, l); }
    ReloadAlike(cfg, chain, clean, next, t);
    assert clean.(dyn := Persist(clean.dyn)) == y;
  }

  /** The walk after a snapshot, when the pass completed. */
  lemma AfterComplete<S>(cfg: Config<S>, chain: seq<RawLog>, e: Engine<S>, r: Run<S>, args: PassArgs, start: nat,
                         next: nat, t: nat)
    requires Ordered(chain) && Wf(cfg, e) && e.ok && start == LowerBound(args.from)
    requires t >= args.to && start <= next && next == args.to + 1
    requires Apart(ViewOf(WalkP(cfg, e, LogsIn(chain, start, t))).sources)
    requires r == Pass(cfg, chain, args, e) && r.halt == Running && Within(r.eng, args.to)
    ensures ViewOf(WalkP(cfg, Reloaded(r), LogsIn(chain, next, t))) == ViewOf(WalkP(cfg, e, LogsIn(chain, start, t)))
  {
    ContinueStopped(cfg, chain, e, args, t);
    ForgetAndReload(cfg, chain, r.eng, Reloaded(r), args.to, next, t);
  }

  /** A pass that ends before its start executes nothing. */
  lemma BackwardPass<S>(cfg: Config<S>, chain: seq<RawLog>, e: Engine<S>, args: PassArgs)
    requires args.to < LowerBound(args.from)
    ensures Pass(cfg, chain, args, e) == StartRun(e)
  {
    LogsInBackwards(chain, LowerBound(args.from), args.to);
  }

  /** Nothing happened between block `b` and `start`, so the walk may go on from `b`. */
  lemma FromEarlier<S>(cfg: Config<S>, chain: seq<RawLog>, e: Engine<S>, y: Engine<S>, start: nat, b: nat, next: nat,
                       t: nat)
    requires Ordered(chain) && Behind(cfg, chain, e, start, b) && next == b + 1 && next <= start && b <= t
    requires y == e.(processed := {})
    ensures ViewOf(WalkP(cfg, y, LogsIn(chain, next, t))) == ViewOf(WalkP(cfg, e, LogsIn(chain, start, t)))
  {
    ForgetProcessed(cfg, chain, e, start, t);
    if t < start {
      QuietWalk(cfg, chain, y, next, t);
      LogsInBackwards(chain, start, t);
      assert WalkP(cfg, e, []) == e;
    } else if start > next {
      var last: nat := start - 1;
      QuietWalk(cfg, chain, y, next, last);
      SkipIdle(cfg, chain, y, next, last, start, t);
    }
  }

  lemma SkipIdle<S>(cfg: Config<S>, chain: seq<RawLog>, e: Engine<S>, from: nat, last: nat, start: nat, t: nat)
    requires Ordered(chain) && start == last + 1 && from <= start && last <= t
    requires WalkP(cfg, e, LogsIn(chain, from, last)) == e
    ensures WalkP(cfg, e, LogsIn(chain, from, t)) == WalkP(cfg, e, LogsIn(chain, start, t))
  {
    LogsInSplit(chain, from, last, t);
    WalkPConcat(cfg, e, LogsIn(chain, from, last), LogsIn(chain, start, t));
  }

  /** Where the state after a complete pass leads, from its end on. */
  lemma CompleteLeads<S>(cfg: Config<S>, chain: seq<RawLog>, first: nat, initial: S, e: Engine<S>, args: PassArgs,
                         start: nat, r: Run<S>, t: nat, next: nat)
    requires Ordered(chain) && ApartChain(cfg, chain, first, initial) && start == LowerBound(args.from)
    requires GoodState(cfg, chain, first, initial, e, start) && Behind(cfg, chain, e, start, args.to)
    requires r == Pass(cfg, chain, args, e) && r.halt == Running && Within(r.eng, args.to)
    requires next == args.to + 1 && first <= next && t >= args.to
    ensures ViewOf(WalkP(cfg, Reloaded(r), LogsIn(chain, next, t))) == Reference(cfg, chain, first, initial, t)
  {
    assert Behind(cfg, chain, e, start, t);
    if start <= next {
      AfterComplete(cfg, chain, e, r, args, start, next, t);
    } else {
      BackwardPass(cfg, chain, e, args);
      PersistIdem(e.dyn);
      assert Reloaded(r) == e.(processed := {});
      FromEarlier(cfg, chain, e, Reloaded(r), start, args.to, next, t);
    }
  }

  /** The same at every block that the state has not gone past. */
  lemma CompleteConsistent<S>(cfg: Config<S>, chain: seq<RawLog>, first: nat, initial: S, e: Engine<S>, args: PassArgs,
                              start: nat, r: Run<S>, t: nat, next: nat)
    requires Ordered(chain) && ApartChain(cfg, chain, first, initial) && start == LowerBound(args.from)
    requires GoodState(cfg, chain, first, initial, e, start) && Behind(cfg, chain, e, start, args.to)
    requires r == Pass(cfg, chain, args, e) && r.halt == Running && Within(r.eng, args.to) && Wf(cfg, r.eng)
    requires next == args.to + 1 && first <= next && first <= t + 1 && Behind(cfg, chain, Reloaded(r), next, t)
    ensures ViewOf(WalkP(cfg, Reloaded(r), LogsIn(chain, next, t))) == Reference(cfg, chain, first, initial, t)
  {
    if t >= args.to {
      CompleteLeads(cfg, chain, first, initial, e, args, start, r, t, next);
    } else {
      CompleteLeads(cfg, chain, first, initial, e, args, start, r, args.to, next);
      LogsInBackwards(chain, next, args.to);
      LogsInBackwards(chain, next, t);
      assert WalkP(cfg, Reloaded(r), []) == Reloaded(r);
      WfSnapshotOf(cfg, r.eng.dyn);
      assert ViewOf(Reloaded(r)).sources == Reloaded(r).dyn;
      QuietReference(cfg, chain, first, initial, t, args.to, t + 1);
    }
  }

  // ----- one pass -----

  lemma PassBounded<S>(cfg: Config<S>, chain: seq<RawLog>, e: Engine<S>, args: PassArgs, bound: nat)
    requires Ordered(chain) && Tidy(cfg, e) && args.to <= bound
             && forall id :: id in e.processed ==> id.pos.block <= bound
    ensures var r := Pass(cfg, chain, args, e);
            && Wf(cfg, r.eng) && r.eng.ok && Bounded(r.eng, bound) && e.processed <= r.eng.processed
            && Tidy(cfg, Reloaded(r))
            && (r.halt != Running ==> LowerBound(args.from) <= args.to)
  {
    var start := LowerBound(args.from);
    var logs := LogsIn(chain, start, args.to);
    LogsInOrdered(chain, start, args.to);
    RunContinues(cfg, args, StartRun(e), logs);
    forall l | l in logs ensures l.pos.block <= bound { LogsInMember(chain, start, args.to, l); }
    RunBounded(cfg, args, StartRun(e), logs, bound);
    WfSnapshotOf(cfg, Pass(cfg, chain, args, e).eng.dyn);
    if args.to < start { BackwardPass(cfg, chain, e, args); }
  }

  /** One pass from a good state leads to a good state; it may end anywhere that the state has not gone past.
      That no source has a log before its creating log is needed only when the pass stops early. */
  lemma PassKeepsGood<S>(cfg: Config<S>, chain: seq<RawLog>, first: nat, initial: S, e: Engine<S>, args: PassArgs)
    requires Ordered(chain) && ApartChain(cfg, chain, first, initial)
    requires first <= args.to + 1
    requires GoodState(cfg, chain, first, initial, e, LowerBound(args.from))
    requires Behind(cfg, chain, e, LowerBound(args.from), args.to)
    requires Pass(cfg, chain, args, e).halt == Running || NoneEarlierChain(cfg, chain, first, initial)
    ensures var r := Pass(cfg, chain, args, e);
            var next := if r.halt == Running then args.to + 1 else LowerBound(args.from);
            && GoodState(cfg, chain, first, initial, Reloaded(r), next)
            && Behind(cfg, chain, Reloaded(r), next, args.to) && next <= args.to + 1
  {
    var start := LowerBound(args.from);
    var r := Pass(cfg, chain, args, e);
    PassBounded(cfg, chain, e, args, args.to);
    var next := if r.halt == Running then args.to + 1 else start;
    forall t: nat | first <= t + 1 && Behind(cfg, chain, Reloaded(r), next, t)
      ensures ViewOf(WalkP(cfg, Reloaded(r), LogsIn(chain, next, t))) == Reference(cfg, chain, first, initial, t)
    {
      if r.halt == Running {
        CompleteConsistent(cfg, chain, first, initial, e, args, start, r, t, next);
      } else {
        AfterStop(cfg, chain, first, initial, e, args, start, r, t, t + 1);
      }
    }
  }

  /** A fresh indexer is in a good state. */
  lemma FreshGood<S>(cfg: Config<S>, chain: seq<RawLog>, first: nat, initial: S)
    requires Ordered(chain) && WfSources(cfg.statics, [])
    ensures GoodState(cfg, chain, first, initial, FreshEngine(initial), first)
  {
    forall t: nat
      ensures ViewOf(WalkP(cfg, FreshEngine(initial), LogsIn(chain, first, t)))
              == Reference(cfg, chain, first, initial, t)
    {
      LogsInOrdered(chain, first, t);
      WalkPIsWalk(cfg, FreshEngine(initial), LogsIn(chain, first, t));
    }
  }

  // ----- snapshots -----

  /** The block from which the snapshot's pass has gone, or the block after a complete one. */
  function Origin<S>(s: Snapshot<S>): nat {
    if s.complete then SaturatingAdd(s.to, 1) else LowerBound(s.from)
  }

  /** The block the next pass starts from. */
  function NextStart<S>(s: Snapshot<S>): nat {
    LowerBound(SyncStartBlock(None, Some(s), false))
  }

  ghost predicate GoodSnapshot<S>(cfg: Config<S>, chain: seq<RawLog>, first: nat, initial: S, s: Snapshot<S>,
                                  trace: seq<Item>)
  {
    var e := StartEngine(initial, Some(s), trace);
    && s.to < U64_MAX && first <= s.to + 1 && Origin(s) <= s.to + 1
    && GoodState(cfg, chain, first, initial, e, Origin(s)) && Behind(cfg, chain, e, Origin(s), s.to)
  }

  /** A good complete snapshot is exactly the reference's state. */
  lemma CompleteIsReference<S>(cfg: Config<S>, chain: seq<RawLog>, first: nat, initial: S, s: Snapshot<S>,
                               trace: seq<Item>)
    requires Ordered(chain) && GoodSnapshot(cfg, chain, first, initial, s, trace) && s.complete
    ensures View(s.store, trace, true, s.sources) == Reference(cfg, chain, first, initial, s.to)
  {
    var e := StartEngine(initial, Some(s), trace);
    LogsInBackwards(chain, Origin(s), s.to);
    assert WalkP(cfg, e, []) == e;
    PersistIdem(e.dyn);
  }

  /** What has been executed is always a prefix of what the reference executes. */
  lemma TraceIsPrefix<S>(cfg: Config<S>, chain: seq<RawLog>, first: nat, initial: S, s: Snapshot<S>, trace: seq<Item>)
    requires GoodSnapshot(cfg, chain, first, initial, s, trace)
    ensures trace <= Reference(cfg, chain, first, initial, s.to).trace
  {
    SourcesGrow(cfg, StartEngine(initial, Some(s), trace), LogsIn(chain, Origin(s), s.to));
  }

  /** The reference executes no identity twice. */
  lemma ReferenceOnce<S>(cfg: Config<S>, chain: seq<RawLog>, first: nat, initial: S, to: nat)
    requires Ordered(chain) && WfSources(cfg.statics, [])
    ensures DistinctIds(Reference(cfg, chain, first, initial, to).trace)
  {
    LogsInOrdered(chain, first, to);
    WalkPIsWalk(cfg, FreshEngine(initial), LogsIn(chain, first, to));
    OnceWalk(cfg, FreshEngine(initial), LogsIn(chain, first, to));
  }

  // ----- a pass without a start block -----

  /** Nothing before the block the pass was to end at is left to execute. */
  ghost predicate NothingLeft<S>(cfg: Config<S>, chain: seq<RawLog>, e: Engine<S>, to: nat) {
    forall l :: l in chain && l.pos.block < to ==> FreshAt(cfg, e, l) == []
  }

  /** What starts at the end of an unfinished pass without a start block loses nothing. */
  ghost predicate LosesNothing<S>(cfg: Config<S>, chain: seq<RawLog>, initial: S, s: Snapshot<S>) {
    !s.complete && s.from.None? ==> NothingLeft(cfg, chain, StartEngine(initial, Some(s), []), s.to)
  }

  /** Where nothing is left before block `to`, a walk may as well start there. */
  lemma LaterStart<S>(cfg: Config<S>, chain: seq<RawLog>, e: Engine<S>, to: nat, t: nat)
    requires Ordered(chain) && NothingLeft(cfg, chain, e, to)
    ensures WalkP(cfg, e, LogsIn(chain, 0, t)) == WalkP(cfg, e, LogsIn(chain, to, t))
  {
    if t < to {
      IdleBefore(cfg, chain, e, to, t);
      LogsInBackwards(chain, to, t);
    } else if to > 0 {
      var last: nat := to - 1;
      IdleBefore(cfg, chain, e, to, last);
      SkipIdle(cfg, chain, e, 0, last, to, t);
    }
  }

  lemma IdleBefore<S>(cfg: Config<S>, chain: seq<RawLog>, e: Engine<S>, to: nat, t: nat)
    requires NothingLeft(cfg, chain, e, to) && t < to
    ensures WalkP(cfg, e, LogsIn(chain, 0, t)) == e
  {
    forall l | l in LogsIn(chain, 0, t) ensures FreshAt(cfg, e, l) == [] { LogsInMember(chain, 0, t, l); }
    IdleWalk(cfg, e, LogsIn(chain, 0, t));
  }

  lemma FreshIgnoresTrace<S>(cfg: Config<S>, e: Engine<S>, f: Engine<S>, chain: seq<RawLog>, to: nat)
    requires e.dyn == f.dyn && e.processed == f.processed && NothingLeft(cfg, chain, e, to)
    ensures NothingLeft(cfg, chain, f, to)
  {
    forall l | l in chain && l.pos.block < to ensures FreshAt(cfg, f, l) == [] { assert FreshAt(cfg, e, l) == []; }
  }

  /** From a good snapshot the next pass starts in a good state. */
  lemma NextGood<S>(cfg: Config<S>, chain: seq<RawLog>, first: nat, initial: S, s: Snapshot<S>, trace: seq<Item>,
                    start: nat)
    requires Ordered(chain) && GoodSnapshot(cfg, chain, first, initial, s, trace)
    requires LosesNothing(cfg, chain, initial, s)
    requires start == NextStart(s)
    ensures GoodState(cfg, chain, first, initial, StartEngine(initial, Some(s), trace), start)
  {
    if !s.complete && s.from.None? {
      var e := StartEngine(initial, Some(s), trace);
      FreshIgnoresTrace(cfg, StartEngine(initial, Some(s), []), e, chain, s.to);
      forall t: nat | first <= t + 1 && Behind(cfg, chain, e, start, t)
        ensures ViewOf(WalkP(cfg, e, LogsIn(chain, start, t))) == Reference(cfg, chain, first, initial, t)
      {
        LaterStart(cfg, chain, e, s.to, t);
        assert Behind(cfg, chain, e, 0, t);
      }
    }
  }

  // ----- cycles -----

  /** The RPC reports the chain's own hashes, or none. */
  ghost predicate Honest(args: SyncArgs, hash: nat -> nat) {
    forall n: nat :: args.hashAt(n).None? || args.hashAt(n) == Some(hash(n))
  }

  ghost predicate KnownHash<S>(s: Snapshot<S>, hash: nat -> nat) {
    s.hash.None? || s.hash == Some(hash(s.to))
  }

  /** A stored deployment in good order. */
  ghost predicate Good<S>(cfg: Config<S>, chain: seq<RawLog>, first: nat, initial: S, st: Stored<S>) {
    && WfSources(cfg.statics, [])
    && (st.snapshot.None? ==> st.trace == [])
    && (st.snapshot.Some? ==> GoodSnapshot(cfg, chain, first, initial, st.snapshot.value, st.trace))
  }

  /** What a caller has to see to for a cycle.  The first pass starts at `first`.  A later one does not end
      before something that was executed: nothing processed, and no log of a source before the pass's start,
      lies past its end; and if the last pass had no start block and stopped early, it left nothing before
      its end.  With a complete checkpoint and no explicit end, a head that fell back does no harm. */
  ghost predicate Forward<S>(cfg: Config<S>, initial: S, chain: seq<RawLog>, st: Stored<S>, args: SyncArgs, first: nat)
  {
    var pa := PassArgsFor(args, st.snapshot);
    if st.snapshot.None? then
      pa.to < U64_MAX && first <= pa.to + 1 && LowerBound(args.from) == first
    else
      var s := st.snapshot.value;
      || (s.complete && args.explicitTo.None? && pa.to <= s.to)
      || (&& pa.to < U64_MAX && first <= pa.to + 1
          && Behind(cfg, chain, StartEngine(initial, Some(s), []), NextStart(s), pa.to)
          && LosesNothing(cfg, chain, initial, s))
  }

  ghost predicate Completed<S>(st: Stored<S>) {
    st.snapshot.Some? ==> st.snapshot.value.complete
  }

  /** What holds of a stored deployment between cycles on a chain with these hashes. */
  ghost predicate Sound<S>(cfg: Config<S>, chain: seq<RawLog>, first: nat, initial: S, st: Stored<S>, hash: nat -> nat)
  {
    Good(cfg, chain, first, initial, st) && (st.snapshot.Some? ==> KnownHash(st.snapshot.value, hash))
  }

  /** A cycle that stores something stores what its pass leads to. */
  lemma CycleStores<S>(cfg: Config<S>, initial: S, chain: seq<RawLog>, st: Stored<S>, args: SyncArgs, fails: bool,
                       hash: nat -> nat)
    returns (pa: PassArgs, e: Engine<S>, r: Run<S>)
    requires !args.reset && Honest(args, hash) && (st.snapshot.None? ==> st.trace == [])
    requires st.snapshot.Some? ==> KnownHash(st.snapshot.value, hash)
    ensures pa == PassArgsFor(args, st.snapshot) && e == StartEngine(initial, st.snapshot, st.trace)
    ensures r == Pass(cfg, chain, pa, e)
    ensures var next := Cycle(cfg, initial, chain, st, args, fails);
            || (next == st && (fails || r.halt == Trapped || Keeps(st.snapshot, args, pa, RunOf(r))))
            || (&& !fails && r.halt != Trapped && !Keeps(st.snapshot, args, pa, RunOf(r))
                && next == Stored(Some(NextSnapshot(st.snapshot, args, pa, RunOf(r))), r.eng.trace))
  {
    assert ApplyReorgPolicy(st.snapshot, args) == Ok(st.snapshot);
    pa := PassArgsFor(args, st.snapshot);
    e := StartEngine(initial, st.snapshot, st.trace);
    r := Pass(cfg, chain, pa, e);
  }

  /** The snapshot of a pass that leads to a good state is good. */
  lemma NextSnapshotGood<S>(cfg: Config<S>, chain: seq<RawLog>, first: nat, initial: S, previous: Option<Snapshot<S>>,
                            args: SyncArgs, pa: PassArgs, r: Run<S>, next: Snapshot<S>)
    requires next == NextSnapshot(previous, args, pa, RunOf(r)) && pa.to < U64_MAX && first <= pa.to + 1
    requires var start := if r.halt == Running then pa.to + 1 else LowerBound(pa.from);
             && GoodState(cfg, chain, first, initial, Reloaded(r), start)
             && Behind(cfg, chain, Reloaded(r), start, pa.to) && start <= pa.to + 1
    ensures GoodSnapshot(cfg, chain, first, initial, next, r.eng.trace)
  {
    assert StartEngine(initial, Some(next), r.eng.trace) == Reloaded(r);
    assert Origin(next) == if r.halt == Running then pa.to + 1 else LowerBound(pa.from);
  }

  /** A head that fell back behind a complete checkpoint changes nothing. */
  lemma FallenHead<S>(cfg: Config<S>, initial: S, chain: seq<RawLog>, st: Stored<S>, args: SyncArgs, pa: PassArgs,
                      r: Run<S>)
    requires st.snapshot.Some? && st.snapshot.value.complete && args.explicitTo.None? && !args.reset
    requires pa == PassArgsFor(args, st.snapshot) && pa.to <= st.snapshot.value.to < U64_MAX
    requires r == Pass(cfg, chain, pa, StartEngine(initial, st.snapshot, st.trace))
    ensures Keeps(st.snapshot, args, pa, RunOf(r))
  {
    BackwardPass(cfg, chain, StartEngine(initial, st.snapshot, st.trace), pa);
  }

  lemma BehindIgnoresTrace<S>(cfg: Config<S>, chain: seq<RawLog>, e: Engine<S>, f: Engine<S>, start: nat, t: nat)
    requires e.dyn == f.dyn && e.processed == f.processed
    ensures Behind(cfg, chain, e, start, t) == Behind(cfg, chain, f, start, t)
  {
  }

  /** The cycle stores what its pass leads to: nothing fails, and it does not keep the previous checkpoint. */
  predicate Stores<S>(cfg: Config<S>, initial: S, chain: seq<RawLog>, st: Stored<S>, args: SyncArgs, fails: bool) {
    var pa := PassArgsFor(args, st.snapshot);
    var r := Pass(cfg, chain, pa, StartEngine(initial, st.snapshot, st.trace));
    !fails && r.halt != Trapped && !Keeps(st.snapshot, args, pa, RunOf(r))
  }

  /** A cycle that stores something makes its pass from a good state that has not gone past its end. */
  lemma CycleReady<S>(cfg: Config<S>, chain: seq<RawLog>, first: nat, initial: S, st: Stored<S>, args: SyncArgs,
                      fails: bool, hash: nat -> nat)
    returns (pa: PassArgs, e: Engine<S>, r: Run<S>)
    requires Ordered(chain) && Sound(cfg, chain, first, initial, st, hash)
    requires !args.reset && Honest(args, hash) && Forward(cfg, initial, chain, st, args, first)
    requires Cycle(cfg, initial, chain, st, args, fails) != st || Stores(cfg, initial, chain, st, args, fails)
    ensures pa == PassArgsFor(args, st.snapshot) && e == StartEngine(initial, st.snapshot, st.trace)
    ensures r == Pass(cfg, chain, pa, e) && r.halt != Trapped && pa.to < U64_MAX && first <= pa.to + 1
    ensures GoodState(cfg, chain, first, initial, e, LowerBound(pa.from))
    ensures Behind(cfg, chain, e, LowerBound(pa.from), pa.to)
    ensures Cycle(cfg, initial, chain, st, args, fails)
         == Stored(Some(NextSnapshot(st.snapshot, args, pa, RunOf(r))), r.eng.trace)
  {
    pa, e, r := CycleStores(cfg, initial, chain, st, args, fails, hash);
    if st.snapshot.None? {
      FreshGood(cfg, chain, first, initial);
      assert e == FreshEngine(initial) && pa.from == args.from;
      assert Quiet(cfg.statics + [], chain, pa.to, LowerBound(pa.from));
    } else {
      if st.snapshot.value.complete && args.explicitTo.None? && pa.to <= st.snapshot.value.to {
        FallenHead(cfg, initial, chain, st, args, pa, r);
      }
      NextGood(cfg, chain, first, initial, st.snapshot.value, st.trace, NextStart(st.snapshot.value));
      BehindIgnoresTrace(cfg, chain, StartEngine(initial, st.snapshot, []), e, NextStart(st.snapshot.value), pa.to);
    }
  }

  /** A cycle without a reorg keeps a deployment in good order. */
  lemma CycleKeepsGood<S>(cfg: Config<S>, chain: seq<RawLog>, first: nat, initial: S, st: Stored<S>, args: SyncArgs,
                          fails: bool, hash: nat -> nat)
    requires Ordered(chain) && ApartChain(cfg, chain, first, initial) && Sound(cfg, chain, first, initial, st, hash)
    requires !args.reset && Honest(args, hash) && Forward(cfg, initial, chain, st, args, first)
    requires NoneEarlierChain(cfg, chain, first, initial) || Completed(Cycle(cfg, initial, chain, st, args, fails))
    ensures Sound(cfg, chain, first, initial, Cycle(cfg, initial, chain, st, args, fails), hash)
  {
    var next := Cycle(cfg, initial, chain, st, args, fails);
    if next != st {
      var pa, e, r := CycleReady(cfg, chain, first, initial, st, args, fails, hash);
      PassKeepsGood(cfg, chain, first, initial, e, pa);
      NextSnapshotGood(cfg, chain, first, initial, st.snapshot, args, pa, r, next.snapshot.value);
    }
  }

  function Cycles<S>(cfg: Config<S>, initial: S, chain: seq<RawLog>, st: Stored<S>,
                     runs: seq<(SyncArgs, bool)>): Stored<S>
    decreases runs
  {
    if runs == [] then st
    else Cycles(cfg, initial, chain, Cycle(cfg, initial, chain, st, runs[0].0, runs[0].1), runs[1..])
  }

  /** Every cycle of a run is one the split theorem speaks of. */
  ghost predicate Steady<S>(cfg: Config<S>, initial: S, chain: seq<RawLog>, st: Stored<S>, runs: seq<(SyncArgs, bool)>,
                            first: nat, hash: nat -> nat)
    decreases runs
  {
    runs == []
    || (&& !runs[0].0.reset && Honest(runs[0].0, hash) && Forward(cfg, initial, chain, st, runs[0].0, first)
        && Steady(cfg, initial, chain, Cycle(cfg, initial, chain, st, runs[0].0, runs[0].1), runs[1..], first, hash))
  }

  /** Every stored snapshot of a run is complete. */
  ghost predicate AlwaysComplete<S>(cfg: Config<S>, initial: S, chain: seq<RawLog>, st: Stored<S>,
                                    runs: seq<(SyncArgs, bool)>)
    decreases runs
  {
    && Completed(st)
    && (runs == [] ||
        AlwaysComplete(cfg, initial, chain, Cycle(cfg, initial, chain, st, runs[0].0, runs[0].1), runs[1..]))
  }

  /** The dynamic sources' addresses are theirs alone, and, unless every pass completes, none of them has a
      log at or before its creating log. */
  ghost predicate Regular<S>(cfg: Config<S>, initial: S, chain: seq<RawLog>, st: Stored<S>, runs: seq<(SyncArgs, bool)>,
                             first: nat)
  {
    && ApartChain(cfg, chain, first, initial)
    && (NoneEarlierChain(cfg, chain, first, initial) || AlwaysComplete(cfg, initial, chain, st, runs))
  }

  lemma RegularNext<S>(cfg: Config<S>, initial: S, chain: seq<RawLog>, st: Stored<S>, runs: seq<(SyncArgs, bool)>,
                       first: nat, next: Stored<S>)
    requires Regular(cfg, initial, chain, st, runs, first) && runs != []
    requires next == Cycle(cfg, initial, chain, st, runs[0].0, runs[0].1)
    ensures Regular(cfg, initial, chain, next, runs[1..], first)
    ensures NoneEarlierChain(cfg, chain, first, initial) || Completed(next)
  {
    assert AlwaysComplete(cfg, initial, chain, st, runs) ==> AlwaysComplete(cfg, initial, chain, next, runs[1..]);
  }

  lemma {:induction false} CyclesKeepGood<S>(cfg: Config<S>, chain: seq<RawLog>, first: nat, initial: S, st: Stored<S>,
                                             runs: seq<(SyncArgs, bool)>, hash: nat -> nat)
    requires Ordered(chain) && Regular(cfg, initial, chain, st, runs, first)
    requires Sound(cfg, chain, first, initial, st, hash)
    requires Steady(cfg, initial, chain, st, runs, first, hash)
    ensures Sound(cfg, chain, first, initial, Cycles(cfg, initial, chain, st, runs), hash)
    decreases runs
  {
    if runs != [] {
      RegularNext(cfg, initial, chain, st, runs, first, Cycle(cfg, initial, chain, st, runs[0].0, runs[0].1));
      CycleKeepsGood(cfg, chain, first, initial, st, runs[0].0, runs[0].1, hash);
      CyclesKeepGood(cfg, chain, first, initial, Cycle(cfg, initial, chain, st, runs[0].0, runs[0].1), runs[1..], hash);
    }
  }

  /** What is promised of a deployment: it has executed a prefix of the reference's items, in its order, each
      identity once; and a complete checkpoint holds the reference's entities and sources. */
  ghost predicate Faithful<S>(cfg: Config<S>, chain: seq<RawLog>, first: nat, initial: S, st: Stored<S>) {
    st.snapshot.Some? ==>
      var s := st.snapshot.value;
      var reference := Reference(cfg, chain, first, initial, s.to);
      && st.trace <= reference.trace && DistinctIds(st.trace)
      && (s.complete ==> View(s.store, st.trace, true, s.sources) == reference)
  }

  lemma GoodIsFaithful<S>(cfg: Config<S>, chain: seq<RawLog>, first: nat, initial: S, st: Stored<S>)
    requires Ordered(chain) && Good(cfg, chain, first, initial, st)
    ensures Faithful(cfg, chain, first, initial, st)
  {
    if st.snapshot.Some? {
      var s := st.snapshot.value;
      TraceIsPrefix(cfg, chain, first, initial, s, st.trace);
      ReferenceOnce(cfg, chain, first, initial, s.to);
      if s.complete {
        CompleteIsReference(cfg, chain, first, initial, s, st.trace);
      }
    }
  }

  /** Split invariance.  However the sync is cut into cycles, by limits, block bounds and failures, a run
      that ends complete has executed the reference's items, in its order, each identity once, and stored
      the reference's entities and sources; at any other moment it has executed a prefix of them. */
  lemma SplitInvariance<S>(cfg: Config<S>, chain: seq<RawLog>, first: nat, initial: S, runs: seq<(SyncArgs, bool)>,
                           hash: nat -> nat)
    requires Ordered(chain) && WfSources(cfg.statics, [])
    requires Regular(cfg, initial, chain, Stored(None, []), runs, first)
    requires Steady(cfg, initial, chain, Stored(None, []), runs, first, hash)
    ensures Faithful(cfg, chain, first, initial, Cycles(cfg, initial, chain, Stored(None, []), runs))
  {
    CyclesKeepGood(cfg, chain, first, initial, Stored(None, []), runs, hash);
    GoodIsFaithful(cfg, chain, first, initial, Cycles(cfg, initial, chain, Stored(None, []), runs));
  }

  // ----- a fresh pass, without any assumption on the sources -----

  /** One pass from nothing is a prefix of the reference walk, and the whole walk when it completes,
      which it does when the limit allows it and no handler on the way fails. */
  lemma FreshPassIsWalk<S>(cfg: Config<S>, chain: seq<RawLog>, initial: S, args: PassArgs)
    requires Ordered(chain) && WfSources(cfg.statics, [])
    ensures var r := Pass(cfg, chain, args, FreshEngine(initial));
            var w := Walk(cfg, FreshEngine(initial), PassLogs(chain, args));
            && r.eng.trace <= w.trace
            && (r.halt == Running ==> r.eng == w)
            && (r.halt == Limited ==> args.limit <= r.executed)
            && (r.halt == Invalid || r.halt == Trapped ==> !w.ok && r.eng.(ok := false) == w)
  {
    var logs := PassLogs(chain, args);
    var e := FreshEngine(initial);
    var r := Pass(cfg, chain, args, e);
    LogsInOrdered(chain, LowerBound(args.from), args.to);
    RunContinues(cfg, args, StartRun(e), logs);
    WalkPIsWalk(cfg, e, logs);
    SourcesGrow(cfg, r.eng, logs);
    StoppedRun(cfg, args, StartRun(e), logs);
  }

  lemma {:induction false} StoppedItems<S>(cfg: Config<S>, args: PassArgs, r: Run<S>, items: seq<Item>)
    requires r.halt == Running && r.eng.ok
    ensures var s := RunItems(cfg, args, r, items);
            && (s.halt == Limited ==> args.limit <= s.executed)
            && (s.halt == Invalid || s.halt == Trapped ==> WalkItems(cfg, r.eng, items) == s.eng.(ok := false))
            && (s.halt == Running ==> s.eng.ok && s.eng == WalkItems(cfg, r.eng, items))
    decreases items
  {
    if items != [] {
      var s := RunItem(cfg, args, r, items[0]);
      if s.halt == Running {
        StoppedItems(cfg, args, s, items[1..]);
      }
    }
  }

  lemma {:induction false} StoppedRun<S>(cfg: Config<S>, args: PassArgs, r: Run<S>, logs: seq<RawLog>)
    requires r.halt == Running && r.eng.ok
    ensures var s := RunLogs(cfg, args, r, logs);
            && (s.halt == Limited ==> args.limit <= s.executed)
            && (s.halt == Invalid || s.halt == Trapped ==> WalkP(cfg, r.eng, logs) == s.eng.(ok := false))
    decreases logs
  {
    if logs != [] {
      StoppedItems(cfg, args, r, FreshAt(cfg, r.eng, logs[0]));
      var s := RunItems(cfg, args, r, FreshAt(cfg, r.eng, logs[0]));
      if s.halt == Running {
        StoppedRun(cfg, args, Close(args, s, logs), logs[1..]);
      }
    }
  }

  // ----- where a validation error stops a pass -----

  /** The handler runs the item, and a store.set of it has a validation error. */
  predicate HasErrors<S>(cfg: Config<S>, store: S, x: Item) {
    cfg.handler(store, x).Ran? && cfg.handler(store, x).errors > 0
  }

  lemma {:induction false} RejectedAtLog<S>(cfg: Config<S>, args: PassArgs, r: Run<S>, l: RawLog)
    requires r.halt == Running && r.eng.ok && Wf(cfg, r.eng)
    ensures var s := RunItems(cfg, args, r, FreshAt(cfg, r.eng, l));
            s.halt == Invalid ==> FreshAt(cfg, s.eng, l) != [] && HasErrors(cfg, s.eng.store, FreshAt(cfg, s.eng, l)[0])
    decreases |FreshAt(cfg, r.eng, l)|
  {
    var items := FreshAt(cfg, r.eng, l);
    if items != [] {
      var s := RunItem(cfg, args, r, items[0]);
      if s.halt == Running {
        FreshAfterStep(cfg, r.eng, l);
        StepWf(cfg, r.eng, items[0]);
        RejectedAtLog(cfg, args, s, l);
      }
    }
  }

  lemma {:induction false} RejectedAt<S>(cfg: Config<S>, args: PassArgs, r: Run<S>, logs: seq<RawLog>) returns (k: nat)
    requires r.halt == Running && r.eng.ok && Wf(cfg, r.eng) && RunLogs(cfg, args, r, logs).halt == Invalid
    ensures var e := RunLogs(cfg, args, r, logs).eng;
            k < |logs| && FreshAt(cfg, e, logs[k]) != [] && HasErrors(cfg, e.store, FreshAt(cfg, e, logs[k])[0])
    decreases logs
  {
    RejectedAtLog(cfg, args, r, logs[0]);
    RunOneLog(cfg, args, r, logs[0]);
    var s := RunItems(cfg, args, r, FreshAt(cfg, r.eng, logs[0]));
    k := 0;
    if s.halt == Running {
      var j := RejectedAt(cfg, args, Close(args, s, logs), logs[1..]);
      k := j + 1;
    }
  }

  /** The pass was stopped by a validation error: its store, sources, trace and processed set are those of the
      walk before the first item that has one, which is still to be executed. */
  ghost predicate StoppedBefore<S>(cfg: Config<S>, chain: seq<RawLog>, args: PassArgs, e: Engine<S>, r: Run<S>) {
    && WalkP(cfg, e, PassLogs(chain, args)) == r.eng.(ok := false)
    && exists l ::
         && l in PassLogs(chain, args) && FreshAt(cfg, r.eng, l) != []
         && HasErrors(cfg, r.eng.store, FreshAt(cfg, r.eng, l)[0])
  }

  lemma InvalidPass<S>(cfg: Config<S>, chain: seq<RawLog>, args: PassArgs, e: Engine<S>)
    requires Wf(cfg, e) && e.ok && Pass(cfg, chain, args, e).halt == Invalid
    ensures StoppedBefore(cfg, chain, args, e, Pass(cfg, chain, args, e))
  {
    StoppedRun(cfg, args, StartRun(e), PassLogs(chain, args));
    var k := RejectedAt(cfg, args, StartRun(e), PassLogs(chain, args));
    assert PassLogs(chain, args)[k] in PassLogs(chain, args);
  }
}
