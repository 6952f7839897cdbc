/** An unfinished pass without a start block: the next pass starts at the block the unfinished one was to
    end at, and what lies before it is not looked at again. */
module NoStart {
  import opened ChainModel
  import opened Streaming
  import opened Replay
  import opened Resume
  import opened Sync
  import opened Runs
  import opened Counter

  /** Going on from block `from` leads to the reference at block `t`. */
  ghost predicate RightFrom(statics: seq<Source>, chain: seq<RawLog>, s: Snapshot<int>, trace: seq<Item>, from: nat,
                            t: nat)
  {
    WalkP(Counting(statics), StartEngine(0, Some(s), trace), LogsIn(chain, from, t)).store
    == Reference(Counting(statics), chain, 0, 0, t).store
  }

  /** A pass that was given no start block and stopped early: for a counting handler the next pass brings
      the state to the reference exactly when nothing before the block the pass was to end at is left
      unprocessed. */
  lemma NoStartSkips(statics: seq<Source>, chain: seq<RawLog>, s: Snapshot<int>, trace: seq<Item>)
    requires Ordered(chain) && !s.complete && s.from.None? && s.sources == []
    requires forall t: nat :: s.to <= t ==> RightFrom(statics, chain, s, trace, 0, t)
    ensures NextStart(s) == s.to
    ensures (forall t: nat :: s.to <= t ==> RightFrom(statics, chain, s, trace, NextStart(s), t))
            <==> NothingLeft(Counting(statics), chain, StartEngine(0, Some(s), trace), s.to)
  {
    var e := StartEngine(0, Some(s), trace);
    var skipped := Remaining(statics, s.processed, Earlier(chain, s.to));
    SkippedNone(statics, chain, e, s.to);
    forall t: nat | s.to <= t
      ensures Reference(Counting(statics), chain, 0, 0, t).store
           == WalkP(Counting(statics), e, LogsIn(chain, s.to, t)).store + skipped
    {
      assert RightFrom(statics, chain, s, trace, 0, t);
      SkippedCount(statics, chain, e, s.to, t);
    }
    if skipped != 0 {
      assert !RightFrom(statics, chain, s, trace, s.to, s.to);
    }
  }

  /** The logs before block `b`. */
  function Earlier(chain: seq<RawLog>, b: nat): seq<RawLog> {
    if b == 0 then [] else LogsIn(chain, 0, b - 1)
  }

  lemma EarlierMember(chain: seq<RawLog>, b: nat, l: RawLog)
    ensures l in Earlier(chain, b) <==> l in chain && l.pos.block < b
  {
    if b > 0 { LogsInMember(chain, 0, b - 1, l); }
  }

  lemma SkippedNone(statics: seq<Source>, chain: seq<RawLog>, e: Engine<int>, b: nat)
    requires e.dyn == []
    ensures Remaining(statics, e.processed, Earlier(chain, b)) == 0 <==> NothingLeft(Counting(statics), chain, e, b)
  {
    assert statics + [] == statics;
    RemainingZero(statics, e.processed, Earlier(chain, b));
    forall l ensures l in Earlier(chain, b) <==> l in chain && l.pos.block < b { EarlierMember(chain, b, l); }
    forall l ensures FreshAt(Counting(statics), e, l) == Fresh(ItemsAt(statics, l), e.processed) { }
  }

  lemma EarlierSplit(chain: seq<RawLog>, b: nat, t: nat)
    requires Ordered(chain) && b <= t
    ensures LogsIn(chain, 0, t) == Earlier(chain, b) + LogsIn(chain, b, t)
  {
    if b > 0 { LogsInSplit(chain, 0, b - 1, t); } else { assert [] + LogsIn(chain, 0, t) == LogsIn(chain, 0, t); }
  }

  lemma SkippedCount(statics: seq<Source>, chain: seq<RawLog>, e: Engine<int>, b: nat, t: nat)
    requires Ordered(chain) && e.ok && e.dyn == [] && b <= t
    ensures WalkP(Counting(statics), e, LogsIn(chain, 0, t)).store
         == WalkP(Counting(statics), e, LogsIn(chain, b, t)).store + Remaining(statics, e.processed, Earlier(chain, b))
  {
    LogsInOrdered(chain, 0, t);
    LogsInOrdered(chain, b, t);
    EarlierSplit(chain, b, t);
    SkippedLogs(statics, e, Earlier(chain, b), LogsIn(chain, b, t), LogsIn(chain, 0, t));
  }

  lemma SkippedLogs(statics: seq<Source>, e: Engine<int>, skipped: seq<RawLog>, rest: seq<RawLog>, all: seq<RawLog>)
    requires e.ok && e.dyn == [] && Ordered(all) && Ordered(rest) && all == skipped + rest
    ensures WalkP(Counting(statics), e, all).store
         == WalkP(Counting(statics), e, rest).store + Remaining(statics, e.processed, skipped)
  {
    CountRemaining(statics, e, all);
    CountRemaining(statics, e, rest);
    RemainingConcat(statics, e.processed, skipped, rest);
  }

  /** In a deployment: when the next pass completes, it holds what is promised exactly when the unfinished
      pass had left nothing before the block it was to end at.  (That this suffices, for every handler, is
      part of what keeps a deployment in good order.) */
  lemma NoStartExact(statics: seq<Source>, chain: seq<RawLog>, st: Stored<int>, args: SyncArgs, hash: nat -> nat)
    requires Ordered(chain) && Sound(Counting(statics), chain, 0, 0, st, hash) && !args.reset && Honest(args, hash)
    requires st.snapshot.Some? && !st.snapshot.value.complete
    requires st.snapshot.value.from.None? && st.snapshot.value.sources == []
    requires st.snapshot.value.to <= PassArgsFor(args, st.snapshot).to < U64_MAX
    requires Completed(Cycle(Counting(statics), 0, chain, st, args, false))
    ensures Faithful(Counting(statics), chain, 0, 0, Cycle(Counting(statics), 0, chain, st, args, false))
            <==> NothingLeft(Counting(statics), chain, StartEngine(0, st.snapshot, []), st.snapshot.value.to)
  {
    var cfg, s := Counting(statics), st.snapshot.value;
    var next := Cycle(cfg, 0, chain, st, args, false);
    var pa, e, r := CycleStores(cfg, 0, chain, st, args, false, hash);
    CountingRegular(statics, chain, 0);
    assert statics + [] == statics;
    if NothingLeft(cfg, chain, StartEngine(0, st.snapshot, []), s.to) {
      BehindIgnoresTrace(cfg, chain, e, StartEngine(0, Some(s), []), NextStart(s), pa.to);
      CycleKeepsGood(cfg, chain, 0, 0, st, args, false, hash);
      GoodIsFaithful(cfg, chain, 0, 0, next);
    }
    assert Behind(cfg, chain, e, 0, pa.to);
    LogsInOrdered(chain, s.to, pa.to);
    RunContinues(cfg, pa, StartRun(e), LogsIn(chain, s.to, pa.to));
    SkippedCount(statics, chain, e, s.to, pa.to);
    SkippedNone(statics, chain, StartEngine(0, st.snapshot, []), s.to);
  }
}
