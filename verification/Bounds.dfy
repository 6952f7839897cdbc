/** Where a pass may end: a cycle whose end lies before something already executed stores a state that is
    not the state at that end. */
module Bounds {
  import opened ChainModel
  import opened Streaming
  import opened Replay
  import opened Resume
  import opened Sync
  import opened Runs
  import opened Counter

  // ----- exactly how far back a pass may end -----

  /** What walking on to block `t` counts too much: the items after `t`, except those still to be done. */
  lemma Overcount(statics: seq<Source>, chain: seq<RawLog>, first: nat, e: Engine<int>, start: nat, t: nat, next: nat,
                  m: nat, top: nat)
    requires Ordered(chain) && e.ok && e.dyn == [] && first <= next && next == t + 1 && t <= top && start <= top
    requires m == if start <= next then next else start
    requires WalkP(Counting(statics), e, LogsIn(chain, start, top)).store == Count(statics, LogsIn(chain, first, top))
    ensures WalkP(Counting(statics), e, LogsIn(chain, start, t)).store
            + Remaining(statics, e.processed, LogsIn(chain, m, top))
         == Count(statics, LogsIn(chain, first, t)) + Count(statics, LogsIn(chain, next, top))
  {
    LogsInOrdered(chain, start, top);
    LogsInOrdered(chain, start, t);
    CountRemaining(statics, e, LogsIn(chain, start, top));
    CountRemaining(statics, e, LogsIn(chain, start, t));
    CountSplit(statics, chain, first, t, next, top);
    if start <= next {
      RemainingSplit(statics, e.processed, chain, start, t, next, top);
    } else {
      LogsInBackwards(chain, start, t);
    }
  }

  /** It counts nothing too much exactly when nothing was executed after `t`. */
  lemma NothingOver(statics: seq<Source>, chain: seq<RawLog>, processed: set<Id>, start: nat, t: nat, next: nat, m: nat,
                    top: nat)
    requires Ordered(chain) && (forall s :: s in statics ==> s.resumed) && next == t + 1 && t <= top && start <= top
    requires m == if start <= next then next else start
    ensures Remaining(statics, processed, LogsIn(chain, m, top)) == Count(statics, LogsIn(chain, next, top))
            <==> Quiet(statics, chain, t, start) && !SomeProcessed(statics, processed, LogsIn(chain, m, top))
  {
    RemainingLess(statics, processed, LogsIn(chain, m, top));
    if start > next {
      var last: nat := start - 1;
      CountSplit(statics, chain, next, last, start, top);
      QuietCount(statics, chain, t, next, last, start);
    }
  }

  /** Every processed identity belongs to an item of a log before the top. */
  lemma ProcessedItem(statics: seq<Source>, chain: seq<RawLog>, first: nat, e: Engine<int>, start: nat, top: nat,
                      id: Id)
    returns (l: RawLog, x: Item)
    requires Recorded(e) && id in e.processed
    requires ViewOf(WalkP(Counting(statics), e, LogsIn(chain, start, top)))
             == Reference(Counting(statics), chain, first, 0, top)
    ensures l in LogsIn(chain, first, top) && x in ItemsAt(statics, l) && IdOf(x) == id && l.pos == id.pos
  {
    x :| x in e.trace && IdOf(x) == id;
    TraceKept(Counting(statics), e, LogsIn(chain, start, top), x);
    l := TraceItem(statics, chain, first, top, x);
  }

  lemma TraceKept<S>(cfg: Config<S>, e: Engine<S>, logs: seq<RawLog>, x: Item)
    requires x in e.trace
    ensures x in ViewOf(WalkP(cfg, e, logs)).trace
  {
    SourcesGrow(cfg, e, logs);
    assert x in WalkP(cfg, e, logs).trace[..|e.trace|];
  }

  lemma TraceItem(statics: seq<Source>, chain: seq<RawLog>, first: nat, top: nat, x: Item) returns (l: RawLog)
    requires x in Reference(Counting(statics), chain, first, 0, top).trace
    ensures l in LogsIn(chain, first, top) && x in ItemsAt(statics, l) && IdOf(x).pos == l.pos
  {
    ReferenceCount(statics, chain, first, top);
    l :| l in LogsIn(chain, first, top) && x in ItemsAt(statics, l);
    ItemsAtMember(statics, l, x);
  }

  /** For a counting handler, walking on from a good state to block `t` is right exactly when the state has
      not gone past `t`. */
  lemma EndExact(statics: seq<Source>, chain: seq<RawLog>, first: nat, e: Engine<int>, start: nat, t: nat)
    requires Ordered(chain) && GoodState(Counting(statics), chain, first, 0, e, start) && e.dyn == [] && first <= t + 1
    ensures WalkP(Counting(statics), e, LogsIn(chain, start, t)).store
            == Reference(Counting(statics), chain, first, 0, t).store
            <==> Behind(Counting(statics), chain, e, start, t)
  {
    var cfg := Counting(statics);
    assert statics + [] == statics;
    var bound := TopExists(e.processed);
    var top := if bound <= t && start <= t then t else if bound <= start then start else bound;
    assert Behind(cfg, chain, e, start, top);
    ReferenceCount(statics, chain, first, top);
    ReferenceCount(statics, chain, first, t);
    var next := t + 1;
    var m := if start <= next then next else start;
    Overcount(statics, chain, first, e, start, t, next, m, top);
    NothingOver(statics, chain, e.processed, start, t, next, m, top);
    forall id | id in e.processed && id.pos.block > t && Quiet(statics, chain, t, start)
      ensures SomeProcessed(statics, e.processed, LogsIn(chain, m, top))
    {
      var l, x := ProcessedItem(statics, chain, first, e, start, top, id);
      LogsInMember(chain, first, top, l);
      NoItems(statics, l);
      LogsInMember(chain, m, top, l);
    }
    if l, x :| l in LogsIn(chain, m, top) && x in ItemsAt(statics, l) && IdOf(x) in e.processed {
      LogsInMember(chain, m, top, l);
      ItemsAtMember(statics, l, x);
    }
  }

  // ----- the next cycle -----

  lemma {:induction false} CountingItems(statics: seq<Source>, args: PassArgs, r: Run<int>, items: seq<Item>)
    requires r.halt == Running && r.eng.dyn == []
    ensures var s := RunItems(Counting(statics), args, r, items);
            (s.halt == Running || s.halt == Limited) && s.eng.dyn == []
    decreases items
  {
    if items != [] {
      var s := RunItem(Counting(statics), args, r, items[0]);
      if s.halt == Running { CountingItems(statics, args, s, items[1..]); }
    }
  }

  /** A counting pass can only be stopped by its limit. */
  lemma {:induction false} CountingRun(statics: seq<Source>, args: PassArgs, r: Run<int>, logs: seq<RawLog>)
    requires r.halt == Running && r.eng.dyn == []
    ensures var s := RunLogs(Counting(statics), args, r, logs);
            (s.halt == Running || s.halt == Limited) && s.eng.dyn == []
    decreases logs
  {
    if logs != [] {
      var items := FreshAt(Counting(statics), r.eng, logs[0]);
      CountingItems(statics, args, r, items);
      var s := RunItems(Counting(statics), args, r, items);
      if s.halt == Running { CountingRun(statics, args, Close(args, s, logs), logs[1..]); }
    }
  }

  lemma PassTraceGrows<S>(cfg: Config<S>, chain: seq<RawLog>, e: Engine<S>, args: PassArgs, x: Item)
    requires Ordered(chain) && e.ok && Wf(cfg, e) && x in e.trace
    ensures x in Pass(cfg, chain, args, e).eng.trace
  {
    var logs := PassLogs(chain, args);
    LogsInOrdered(chain, LowerBound(args.from), args.to);
    RunContinues(cfg, args, StartRun(e), logs);
    if logs != [] {
      assert x in Pass(cfg, chain, args, e).eng.trace[..|e.trace|];
    }
  }

  /** A pass that stops early before something processed has executed more than the reference has by its end. */
  lemma StoppedEnd(statics: seq<Source>, chain: seq<RawLog>, first: nat, e: Engine<int>, pa: PassArgs, r: Run<int>)
    requires Ordered(chain) && Tidy(Counting(statics), e) && e.dyn == []
    requires r == Pass(Counting(statics), chain, pa, e) && r.halt != Running
    requires r.eng.trace <= Reference(Counting(statics), chain, first, 0, pa.to).trace
    ensures Behind(Counting(statics), chain, e, LowerBound(pa.from), pa.to)
  {
    if pa.to < LowerBound(pa.from) { BackwardPass(Counting(statics), chain, e, pa); }
    forall id | id in e.processed
      ensures id.pos.block <= pa.to
    {
      var x :| x in e.trace && IdOf(x) == id;
      PassTraceGrows(Counting(statics), chain, e, pa, x);
      var l := TraceItem(statics, chain, first, pa.to, x);
      LogsInMember(chain, first, pa.to, l);
    }
  }

  /** A complete pass is right at its end exactly when the state had not gone past it. */
  lemma CompleteEnd(statics: seq<Source>, chain: seq<RawLog>, first: nat, e: Engine<int>, pa: PassArgs, r: Run<int>)
    requires Ordered(chain) && GoodState(Counting(statics), chain, first, 0, e, LowerBound(pa.from)) && e.dyn == []
    requires first <= pa.to + 1 && r == Pass(Counting(statics), chain, pa, e) && r.halt == Running
    ensures r.eng.store == Reference(Counting(statics), chain, first, 0, pa.to).store
            <==> Behind(Counting(statics), chain, e, LowerBound(pa.from), pa.to)
  {
    var start := LowerBound(pa.from);
    LogsInOrdered(chain, start, pa.to);
    RunContinues(Counting(statics), pa, StartRun(e), LogsIn(chain, start, pa.to));
    EndExact(statics, chain, first, e, start, pa.to);
  }

  /** For a counting handler, a cycle keeps what is promised exactly when its pass does not end before
      something that was executed.  (A cycle that finds the head behind a complete checkpoint, and has no
      explicit end, stores nothing.) */
  lemma CycleEndExact(statics: seq<Source>, chain: seq<RawLog>, first: nat, st: Stored<int>, args: SyncArgs,
                      hash: nat -> nat)
    requires Ordered(chain) && Sound(Counting(statics), chain, first, 0, st, hash) && !args.reset && Honest(args, hash)
    requires st.snapshot.Some? && st.snapshot.value.sources == []
    requires LosesNothing(Counting(statics), chain, 0, st.snapshot.value)
    requires first <= PassArgsFor(args, st.snapshot).to + 1 && PassArgsFor(args, st.snapshot).to < U64_MAX
    requires args.explicitTo.Some? || !st.snapshot.value.complete
             || PassArgsFor(args, st.snapshot).to > st.snapshot.value.to
    ensures var s := st.snapshot.value;
            Faithful(Counting(statics), chain, first, 0, Cycle(Counting(statics), 0, chain, st, args, false))
            <==> Behind(Counting(statics), chain, StartEngine(0, Some(s), []), NextStart(s),
                        PassArgsFor(args, st.snapshot).to)
  {
    var cfg, s := Counting(statics), st.snapshot.value;
    var next := Cycle(cfg, 0, chain, st, args, false);
    var pa, e, r := CycleStores(cfg, 0, chain, st, args, false, hash);
    CountingRun(statics, pa, StartRun(e), PassLogs(chain, pa));
    CountingRegular(statics, chain, first);
    NextGood(cfg, chain, first, 0, s, st.trace, NextStart(s));
    BehindIgnoresTrace(cfg, chain, StartEngine(0, Some(s), []), e, NextStart(s), pa.to);
    if Faithful(cfg, chain, first, 0, next) {
      if r.halt == Running {
        CompleteEnd(statics, chain, first, e, pa, r);
      } else {
        StoppedEnd(statics, chain, first, e, pa, r);
      }
    }
    if Behind(cfg, chain, StartEngine(0, Some(s), []), NextStart(s), pa.to) {
      CycleKeepsGood(cfg, chain, first, 0, st, args, false, hash);
      GoodIsFaithful(cfg, chain, first, 0, next);
    }
  }
}
