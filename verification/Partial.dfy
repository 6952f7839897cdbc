/** Rolling back to an entry that a pass recorded on its way: the entry keeps the pass's start block but not
    what the pass had processed. */
module Partial {
  import opened ChainModel
  import opened Streaming
  import opened Replay
  import opened Resume
  import opened Sync
  import opened Runs
  import opened Counter
  import opened Bounds
  import opened TimeTravel

  // ----- the entries of a pass -----

  /** Every entry that a pass records, stopped later or not, holds the state of the walk up to its block. */
  lemma {:induction false} EntryIsPoint<S>(cfg: Config<S>, args: PassArgs, r: Run<S>, logs: seq<RawLog>, x: Entry<S>)
    requires r.halt == Running && r.eng.ok && Wf(cfg, r.eng) && Ordered(logs) && x in Pushed(cfg, args, r, logs)
    ensures At(x) == MomentOf(WalkP(cfg, r.eng, UpToLogs(logs, x.to)))
    ensures HasBlock(logs, x.to) && x.from == args.from && !x.complete
    decreases logs
  {
    var rest := logs[1..];
    RunOneLog(cfg, args, r, logs[0]);
    var s := RunItems(cfg, args, r, FreshAt(cfg, r.eng, logs[0]));
    CloseChanges(args, s, logs);
    var c := Close(args, s, logs);
    if c != s && x == BlockEntry(args, s.eng, logs[0].pos.block) {
      EntryHere(cfg, r.eng, s.eng, logs, x.to);
    } else {
      EntryIsPoint(cfg, args, c, rest, x);
      EntryLater(cfg, r.eng, c.eng, logs, x.to);
    }
  }

  lemma EntryHere<S>(cfg: Config<S>, e: Engine<S>, f: Engine<S>, logs: seq<RawLog>, block: nat)
    requires logs != [] && Ordered(logs) && EndsBlock(logs) && block == logs[0].pos.block
    requires e.ok && f == WalkItems(cfg, e, FreshAt(cfg, e, logs[0]))
    ensures WalkP(cfg, e, UpToLogs(logs, block)) == f && HasBlock(logs, block)
  {
    UpToStep(cfg, e, logs, block, f);
    if |logs| > 1 { assert Before(logs[0].pos, logs[1].pos); }
    UpToNone(cfg, f, logs[1..], block);
    assert logs[0] in logs;
  }

  lemma EntryLater<S>(cfg: Config<S>, e: Engine<S>, f: Engine<S>, logs: seq<RawLog>, block: nat)
    requires logs != [] && Ordered(logs) && HasBlock(logs[1..], block)
    requires e.ok && f == WalkItems(cfg, e, FreshAt(cfg, e, logs[0]))
    ensures WalkP(cfg, e, UpToLogs(logs, block)) == WalkP(cfg, f, UpToLogs(logs[1..], block)) && HasBlock(logs, block)
  {
    var m :| m in logs[1..] && m.pos.block == block;
    var k :| 0 <= k < |logs[1..]| && logs[1..][k] == m;
    assert Before(logs[0].pos, logs[k + 1].pos) && m in logs;
    UpToStep(cfg, e, logs, block, f);
  }

  /** The run's last block is one in which it executed an item, after the first `base`. */
  ghost predicate Logged<S>(r: Run<S>, base: nat) {
    base <= |r.eng.trace| && (r.last.Some? ==> ExecutedIn(r.eng.trace, base, r.last.value))
  }

  ghost predicate ExecutedIn(trace: seq<Item>, base: nat, block: nat) {
    exists k :: base <= k < |trace| && trace[k].log.pos.block == block
  }

  lemma ExecutedGrows(a: seq<Item>, b: seq<Item>, base: nat, block: nat)
    requires ExecutedIn(a, base, block) && a <= b
    ensures ExecutedIn(b, base, block)
  {
    var k :| base <= k < |a| && a[k].log.pos.block == block;
    assert b[k] == a[k];
  }

  lemma {:induction false} ItemsLogged<S>(cfg: Config<S>, args: PassArgs, r: Run<S>, items: seq<Item>, base: nat)
    requires Logged(r, base)
    ensures Logged(RunItems(cfg, args, r, items), base) && r.eng.trace <= RunItems(cfg, args, r, items).eng.trace
    decreases items
  {
    if r.halt == Running && items != [] {
      var s := RunItem(cfg, args, r, items[0]);
      if s.halt == Running {
        assert s.eng.trace[|r.eng.trace|] == items[0];
        assert ExecutedIn(s.eng.trace, base, items[0].log.pos.block);
      }
      ItemsLogged(cfg, args, s, items[1..], base);
    }
  }

  /** An entry is only recorded for a block in which the pass executed something. */
  lemma {:induction false} EntryExecuted<S>(cfg: Config<S>, args: PassArgs, r: Run<S>, logs: seq<RawLog>, base: nat,
                                            x: Entry<S>)
    requires Logged(r, base)
    ensures r.eng.trace <= RunLogs(cfg, args, r, logs).eng.trace
    ensures x in Pushed(cfg, args, r, logs) ==> ExecutedIn(RunLogs(cfg, args, r, logs).eng.trace, base, x.to)
    decreases logs
  {
    if r.halt == Running && logs != [] {
      ItemsLogged(cfg, args, r, FreshAt(cfg, r.eng, logs[0]), base);
      var s := RunItems(cfg, args, r, FreshAt(cfg, r.eng, logs[0]));
      CloseChanges(args, s, logs);
      var c := Close(args, s, logs);
      EntryExecuted(cfg, args, c, logs[1..], base, x);
      if c != s && x == BlockEntry(args, s.eng, logs[0].pos.block) {
        ExecutedGrows(s.eng.trace, RunLogs(cfg, args, r, logs).eng.trace, base, x.to);
      }
    }
  }

  // ----- what a resync from such an entry does -----

  /** What a counting resync from this snapshot has counted at block `t`. */
  function Resynced(statics: seq<Source>, chain: seq<RawLog>, rolled: Snapshot<int>, t: nat): int {
    WalkP(Counting(statics), StartEngine(0, Some(rolled), []), LogsIn(chain, NextStart(rolled), t)).store
  }

  /** The resync is right at every block from `from` on. */
  ghost predicate ResyncsRight(statics: seq<Source>, chain: seq<RawLog>, first: nat, rolled: Snapshot<int>, from: nat) {
    forall t: nat :: from <= t ==>
      Resynced(statics, chain, rolled, t) == Reference(Counting(statics), chain, first, 0, t).store
  }

  /** Rolling back to an entry that holds the state at its block forgets what its pass had processed.  For a
      counting handler the resync is right exactly when nothing is to be executed from the block it starts at
      up to the entry. */
  lemma PartialEntryRedoes(statics: seq<Source>, chain: seq<RawLog>, first: nat, s: Snapshot<int>, e: Entry<int>)
    requires Ordered(chain) && WfSources(statics, []) && first <= NextStart(RolledBack(s, e)) <= e.to + 1
    requires e.sources == [] && e.store == Reference(Counting(statics), chain, first, 0, e.to).store
    ensures ResyncsRight(statics, chain, first, RolledBack(s, e), e.to)
       <==> forall l :: l in LogsIn(chain, NextStart(RolledBack(s, e)), e.to) ==> ItemsAt(statics, l) == []
  {
    var rolled := RolledBack(s, e);
    var again := LogsIn(chain, NextStart(rolled), e.to);
    CountZero(statics, again);
    forall t: nat | e.to <= t
      ensures Resynced(statics, chain, rolled, t)
           == Reference(Counting(statics), chain, first, 0, t).store + Count(statics, again)
    {
      RedoneCount(statics, chain, first, StartEngine(0, Some(rolled), []), NextStart(rolled), e.to, t, e.to + 1);
    }
    if Count(statics, again) != 0 {
      assert Resynced(statics, chain, rolled, e.to) != Reference(Counting(statics), chain, first, 0, e.to).store;
    }
  }

  lemma ReloadedCount(statics: seq<Source>, chain: seq<RawLog>, y: Engine<int>, start: nat, t: nat)
    requires Ordered(chain) && y.ok && y.dyn == [] && y.processed == {}
    ensures WalkP(Counting(statics), y, LogsIn(chain, start, t)).store
            == y.store + Count(statics, LogsIn(chain, start, t))
  {
    LogsInOrdered(chain, start, t);
    WalkPIsWalk(Counting(statics), y, LogsIn(chain, start, t));
    CountWalk(statics, y, LogsIn(chain, start, t));
  }

  /** A state at block `b` walked again from block `from` counts the logs in between twice. */
  lemma RedoneCount(statics: seq<Source>, chain: seq<RawLog>, first: nat, y: Engine<int>, from: nat, b: nat, t: nat,
                    next: nat)
    requires Ordered(chain) && b <= t && first <= from <= next && next == b + 1
    requires y.ok && y.dyn == [] && y.processed == {}
    requires y.store == Reference(Counting(statics), chain, first, 0, b).store
    ensures WalkP(Counting(statics), y, LogsIn(chain, from, t)).store
         == Reference(Counting(statics), chain, first, 0, t).store + Count(statics, LogsIn(chain, from, b))
  {
    ReferenceCount(statics, chain, first, b);
    ReferenceCount(statics, chain, first, t);
    ReloadedCount(statics, chain, y, from, t);
    CountSplit(statics, chain, from, b, next, t);
    CountSplit(statics, chain, first, b, next, t);
  }

  // ----- the entries of a pass of the program -----

  /** What a fresh pass of a counting handler records: exact, and after executing something. */
  lemma RecordedEntry(statics: seq<Source>, chain: seq<RawLog>, first: nat, e: Engine<int>, pa: PassArgs, r: Run<int>,
                      x: Entry<int>)
    returns (l: RawLog)
    requires Ordered(chain) && GoodState(Counting(statics), chain, first, 0, e, LowerBound(pa.from)) && e.dyn == []
    requires e.processed == {} && r == Pass(Counting(statics), chain, pa, e) && x in r.history
    ensures !x.complete && x.from == pa.from && x.sources == [] && LowerBound(pa.from) <= x.to <= pa.to
    ensures x.store == Reference(Counting(statics), chain, first, 0, x.to).store
    ensures l in chain && l.pos.block == x.to && ItemsAt(statics, l) != []
  {
    var cfg, start := Counting(statics), LowerBound(pa.from);
    var logs := LogsIn(chain, start, pa.to);
    LogsInOrdered(chain, start, pa.to);
    HistoryPushed(cfg, pa, StartRun(e), logs);
    assert x in Pushed(cfg, pa, StartRun(e), logs);
    EntryIsPoint(cfg, pa, StartRun(e), logs, x);
    var m :| m in logs && m.pos.block == x.to;
    LogsInMember(chain, start, pa.to, m);
    UpToRange(chain, start, x.to, pa.to);
    assert Behind(cfg, chain, e, start, x.to) && Behind(cfg, chain, e, start, pa.to);
    assert ViewOf(WalkP(cfg, e, LogsIn(chain, start, x.to))) == Reference(cfg, chain, first, 0, x.to);
    ReferenceCount(statics, chain, first, x.to);
    EntryExecuted(cfg, pa, StartRun(e), logs, |e.trace|, x);
    l := ExecutedLog(statics, chain, first, e, pa, r, x.to);
  }

  /** What a pass executed in a block is an item of a log in that block. */
  lemma ExecutedLog(statics: seq<Source>, chain: seq<RawLog>, first: nat, e: Engine<int>, pa: PassArgs, r: Run<int>,
                    block: nat)
    returns (l: RawLog)
    requires Ordered(chain) && GoodState(Counting(statics), chain, first, 0, e, LowerBound(pa.from)) && e.dyn == []
    requires e.processed == {} && LowerBound(pa.from) <= pa.to && r == Pass(Counting(statics), chain, pa, e)
    requires ExecutedIn(r.eng.trace, |e.trace|, block)
    ensures l in chain && l.pos.block == block && ItemsAt(statics, l) != []
  {
    var cfg, start := Counting(statics), LowerBound(pa.from);
    var logs := LogsIn(chain, start, pa.to);
    LogsInOrdered(chain, start, pa.to);
    RunContinues(cfg, pa, StartRun(e), logs);
    assert Behind(cfg, chain, e, start, pa.to);
    var k :| |e.trace| <= k < |r.eng.trace| && r.eng.trace[k].log.pos.block == block;
    var y := r.eng.trace[k];
    TraceKept(cfg, r.eng, logs, y);
    l := TraceItem(statics, chain, first, pa.to, y);
    LogsInMember(chain, first, pa.to, l);
    ItemsAtMember(statics, l, y);
  }

  /** So for a counting handler a rollback to any entry that a fresh pass recorded on its way is wrong. */
  lemma PartialEntryNeverRight(statics: seq<Source>, chain: seq<RawLog>, first: nat, e: Engine<int>, pa: PassArgs,
                               s: Snapshot<int>, x: Entry<int>)
    requires Ordered(chain) && GoodState(Counting(statics), chain, first, 0, e, LowerBound(pa.from)) && e.dyn == []
    requires e.processed == {} && x in Pass(Counting(statics), chain, pa, e).history
    ensures !ResyncsRight(statics, chain, first, RolledBack(s, x), x.to)
  {
    var l := RecordedEntry(statics, chain, first, e, pa, Pass(Counting(statics), chain, pa, e), x);
    LogsInMember(chain, NextStart(RolledBack(s, x)), x.to, l);
    PartialEntryRedoes(statics, chain, first, s, x);
  }
}
