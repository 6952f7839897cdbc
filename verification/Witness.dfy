/** Small syncs, computed step by step: the inputs on which the program's cycles go wrong. */
module Witness {
  import opened ChainModel
  import opened Streaming
  import opened Replay
  import opened HistoryWindow
  import opened Sync
  import opened Runs
  import opened Counter
  import opened TimeTravel

  /** One static source, and a log of it in a block of its own. */
  const ONLY := Source(0, false, 7, 0, {1}, 0, Pos(0, 0, 0), true)

  function LogAt(block: nat): RawLog {
    RawLog(Pos(block, 0, 0), 7, 1, 0)
  }

  function ItemIn(block: nat): Item {
    ItemOf(ONLY, LogAt(block))
  }

  /** The counting handler over that source. */
  function Tally(): Config<int> {
    Counting([ONLY])
  }

  /** A cycle's options, without a reorg and with hashes that are not known. */
  function Options(from: Option<nat>, explicitTo: Option<nat>, limit: nat, maxBlocks: nat, head: nat): SyncArgs {
    SyncArgs(from, explicitTo, limit, maxBlocks, false, Fail, 0, 0, head, (n: nat) => None)
  }

  // ----- one log -----

  /** What a running pass makes of one log. */
  function AfterLog(args: PassArgs, r: Run<int>, block: nat): Run<int> {
    var x := ItemIn(block);
    if IdOf(x) in r.eng.processed then r
    else if args.limit == 0 || (r.executed >= args.limit && r.last != Some(block)) then r.(halt := Limited)
    else
      Run(Engine(r.eng.store + 1, r.eng.dyn, r.eng.trace + [x], r.eng.processed + {IdOf(x)}, r.eng.ok), r.executed + 1,
          Some(block), r.history, r.halt)
  }

  lemma OneLog(args: PassArgs, r: Run<int>, block: nat, logs: seq<RawLog>, rest: seq<RawLog>, next: Run<int>)
    requires r.halt == Running && r.eng.dyn == [] && logs == [LogAt(block)] + rest
    requires next == Close(args, AfterLog(args, r, block), logs)
    ensures RunLogs(Tally(), args, r, logs) == RunLogs(Tally(), args, next, rest)
  {
    var l, x := LogAt(block), ItemIn(block);
    assert logs[0] == l && logs[1..] == rest;
    OneActive(r.eng, block);
    FreshOne(x, r.eng.processed);
    if IdOf(x) !in r.eng.processed {
      OneItem(args, r, x);
    }
  }

  lemma FreshOne(x: Item, processed: set<Id>)
    ensures Fresh([x], processed) == if IdOf(x) in processed then [] else [x]
  {
    assert [x][1..] == [];
  }

  lemma OneActive(e: Engine<int>, block: nat)
    requires e.dyn == []
    ensures Active(Tally(), e, LogAt(block)) == [ItemIn(block)]
  {
    var l, only := LogAt(block), [ONLY];
    assert Tally().statics == only;
    assert Tally().statics + e.dyn == only;
    assert Filter(ONLY, l);
    assert Matches(ONLY, l);
    assert only[1..] == [];
    assert ItemsAt(only, l) == [ItemOf(ONLY, l)];
  }

  lemma OneItem(args: PassArgs, r: Run<int>, x: Item)
    requires r.halt == Running
    ensures RunItems(Tally(), args, r, [x]) == RunItem(Tally(), args, r, x)
  {
    assert [x][1..] == [];
  }

  // ----- the chain -----

  /** Logs in blocks 1, 5 and 8. */
  function Chain3(): seq<RawLog> {
    [LogAt(1), LogAt(5), LogAt(8)]
  }

  lemma {:induction false} LogsOfOne(block: nat, rest: seq<RawLog>, from: nat, to: nat)
    ensures LogsIn([LogAt(block)] + rest, from, to)
         == (if from <= block <= to then [LogAt(block)] else []) + LogsIn(rest, from, to)
  {
    assert ([LogAt(block)] + rest)[1..] == rest;
  }

  lemma ChainParts(from: nat, to: nat)
    ensures LogsIn(Chain3(), from, to)
         == (if from <= 1 <= to then [LogAt(1)] else []) + (if from <= 5 <= to then [LogAt(5)] else [])
            + (if from <= 8 <= to then [LogAt(8)] else [])
  {
    assert Chain3() == [LogAt(1)] + [LogAt(5), LogAt(8)];
    assert [LogAt(5), LogAt(8)] == [LogAt(5)] + [LogAt(8)];
    assert [LogAt(8)] == [LogAt(8)] + [];
    LogsOfOne(1, [LogAt(5), LogAt(8)], from, to);
    LogsOfOne(5, [LogAt(8)], from, to);
    LogsOfOne(8, [], from, to);
  }

  lemma WholeChain(to: nat)
    requires to >= 8
    ensures LogsIn(Chain3(), 0, to) == [LogAt(1), LogAt(5), LogAt(8)]
  {
    ChainParts(0, to);
  }

  lemma CountOf(from: nat, to: nat)
    ensures Reference(Tally(), Chain3(), from, 0, to).store
         == (if from <= 1 <= to then 1 else 0) + (if from <= 5 <= to then 1 else 0) + (if from <= 8 <= to then 1 else 0)
  {
    ReferenceCount([ONLY], Chain3(), from, to);
    ChainParts(from, to);
    forall block: nat ensures Count([ONLY], [LogAt(block)]) == 1 { CountOne(block); }
    CountConcat([ONLY], if from <= 1 <= to then [LogAt(1)] else [], if from <= 5 <= to then [LogAt(5)] else []);
    CountConcat([ONLY], (if from <= 1 <= to then [LogAt(1)] else []) + (if from <= 5 <= to then [LogAt(5)] else []),
                if from <= 8 <= to then [LogAt(8)] else []);
  }

  lemma CountOne(block: nat)
    ensures Count([ONLY], [LogAt(block)]) == 1
  {
    OneActive(FreshEngine(0), block);
    assert [ONLY] + [] == [ONLY] && [LogAt(block)][1..] == [];
  }

  // ----- a first pass -----

  function AfterOne(): Engine<int> {
    Engine(1, [], [ItemIn(1)], {IdOf(ItemIn(1))}, true)
  }

  /** The run after the log of block 1, and after that of block 5. */
  function RunOne(pa: PassArgs): Run<int> {
    Run(AfterOne(), 1, Some(1), [BlockEntry(pa, AfterOne(), 1)], Running)
  }

  function RunTwo(pa: PassArgs): Run<int> {
    Run(AfterTwo(), 2, Some(5), [BlockEntry(pa, AfterOne(), 1), BlockEntry(pa, AfterTwo(), 5)], Running)
  }

  lemma NextOne(pa: PassArgs, logs: seq<RawLog>)
    requires pa.limit > 0 && logs != [] && logs[0] == LogAt(1) && EndsBlock(logs)
    ensures Close(pa, AfterLog(pa, StartRun(FreshEngine(0)), 1), logs) == RunOne(pa)
  {
    assert AfterLog(pa, StartRun(FreshEngine(0)), 1).eng == AfterOne();
  }

  lemma NextTwo(pa: PassArgs, logs: seq<RawLog>)
    requires pa.limit > 1 && logs != [] && logs[0] == LogAt(5) && EndsBlock(logs)
    ensures Close(pa, AfterLog(pa, RunOne(pa), 5), logs) == RunTwo(pa)
  {
    assert AfterLog(pa, RunOne(pa), 5).eng == AfterTwo();
  }

  lemma NextThree(pa: PassArgs)
    requires pa.limit > 2
    ensures Close(pa, AfterLog(pa, RunTwo(pa), 8), [LogAt(8)]) == RunThree(pa)
  {
    assert AfterLog(pa, RunTwo(pa), 8).eng == AfterThree();
  }

  /** How a pass with this limit ends: after one log, after two, or with all three. */
  function Ended(pa: PassArgs): Run<int> {
    if pa.limit == 1 then RunOne(pa).(halt := Limited)
    else if pa.limit == 2 then RunTwo(pa).(halt := Limited) else RunThree(pa)
  }

  lemma FromTwo(pa: PassArgs)
    requires pa.limit > 1
    ensures RunLogs(Tally(), pa, RunTwo(pa), [LogAt(8)]) == Ended(pa)
  {
    if pa.limit == 2 {
      OneLog(pa, RunTwo(pa), 8, [LogAt(8)], [], RunTwo(pa).(halt := Limited));
    } else {
      NextThree(pa);
      OneLog(pa, RunTwo(pa), 8, [LogAt(8)], [], RunThree(pa));
    }
  }

  lemma FromOne(pa: PassArgs)
    requires pa.limit > 0
    ensures RunLogs(Tally(), pa, RunOne(pa), [LogAt(5), LogAt(8)]) == Ended(pa)
  {
    if pa.limit == 1 {
      OneLog(pa, RunOne(pa), 5, [LogAt(5), LogAt(8)], [LogAt(8)], RunOne(pa).(halt := Limited));
    } else {
      NextTwo(pa, [LogAt(5), LogAt(8)]);
      OneLog(pa, RunOne(pa), 5, [LogAt(5), LogAt(8)], [LogAt(8)], RunTwo(pa));
      FromTwo(pa);
    }
  }

  /** A first pass over the three logs. */
  lemma FirstPass(pa: PassArgs)
    requires LowerBound(pa.from) == 0 && pa.to >= 8 && pa.limit > 0
    ensures Pass(Tally(), Chain3(), pa, FreshEngine(0)) == Ended(pa)
  {
    var logs, more := [LogAt(1), LogAt(5), LogAt(8)], [LogAt(5), LogAt(8)];
    WholeChain(pa.to);
    assert PassLogs(Chain3(), pa) == logs;
    NextOne(pa, logs);
    OneLog(pa, StartRun(FreshEngine(0)), 1, logs, more, RunOne(pa));
    FromOne(pa);
  }

  function AfterThree(): Engine<int> {
    Engine(3, [], [ItemIn(1), ItemIn(5), ItemIn(8)], {IdOf(ItemIn(1)), IdOf(ItemIn(5)), IdOf(ItemIn(8))}, true)
  }

  function RunThree(pa: PassArgs): Run<int> {
    Run(AfterThree(), 3, Some(8),
        [BlockEntry(pa, AfterOne(), 1), BlockEntry(pa, AfterTwo(), 5), BlockEntry(pa, AfterThree(), 8)], Running)
  }

  function AfterTwo(): Engine<int> {
    Engine(2, [], [ItemIn(1), ItemIn(5)], {IdOf(ItemIn(1)), IdOf(ItemIn(5))}, true)
  }

  // ----- cycles -----

  lemma FirstCycle(args: SyncArgs, pa: PassArgs)
    requires !args.reset && pa == PassArgsFor<int>(args, None)
    ensures var r := Pass(Tally(), Chain3(), pa, FreshEngine(0));
            var next := Cycle(Tally(), 0, Chain3(), Stored(None, []), args, false);
            r.halt != Trapped ==> next == Stored(Some(NextSnapshot(None, args, pa, RunOf(r))), r.eng.trace)
  {
    assert StartEngine(0, None, []) == FreshEngine(0);
  }

  lemma LaterCycle(chain: seq<RawLog>, args: SyncArgs, pa: PassArgs, st: Stored<int>, e: Engine<int>, r: Run<int>)
    requires !args.reset && st.snapshot.Some? && pa == PassArgsFor(args, st.snapshot)
    requires st.snapshot.value.hash.None? || st.snapshot.value.hash == args.hashAt(st.snapshot.value.to)
    requires e == StartEngine(0, st.snapshot, st.trace) && r == Pass(Tally(), chain, pa, e) && r.halt != Trapped
    requires args.explicitTo.Some? || !st.snapshot.value.complete || pa.to > st.snapshot.value.to
    ensures Cycle(Tally(), 0, chain, st, args, false)
         == Stored(Some(NextSnapshot(st.snapshot, args, pa, RunOf(r))), r.eng.trace)
  {
    assert ApplyReorgPolicy(st.snapshot, args) == Ok(st.snapshot);
  }

  // ----- a smaller bound after an unfinished pass -----

  /** A pass to block 9 stops after two logs; the next one may only go to block 2.  It finds nothing left
      there and is complete, with the log of block 5 counted at block 2. */
  lemma SmallerBound()
    ensures var one := Cycle(Tally(), 0, Chain3(), Stored(None, []), Options(Some(0), None, 2, 10, 9), false);
            var two := Cycle(Tally(), 0, Chain3(), one, Options(None, None, 2, 3, 9), false);
            && one.snapshot.Some? && !one.snapshot.value.complete && one.snapshot.value.to == 9
            && two.snapshot.Some? && two.snapshot.value.complete && two.snapshot.value.to == 2
            && two.snapshot.value.store == 2
            && Reference(Tally(), Chain3(), 0, 0, 2).store == 1
  {
    var args := Options(Some(0), None, 2, 10, 9);
    var one := Cycle(Tally(), 0, Chain3(), Stored(None, []), args, false);
    FirstPass(PassArgs(Some(0), 9, 2, args.hashAt));
    FirstCycle(args, PassArgs(Some(0), 9, 2, args.hashAt));
    var less := Options(None, None, 2, 3, 9);
    NothingNew(less, PassArgs(Some(0), 2, 2, less.hashAt), one);
    CountOf(0, 2);
  }

  /** A pass from block 0 to block 2 after the two logs. */
  lemma NothingNew(args: SyncArgs, pa: PassArgs, st: Stored<int>)
    requires !args.reset && args.explicitTo.None? && st.snapshot.Some? && !st.snapshot.value.complete
    requires st.snapshot.value.hash.None? && pa == PassArgsFor(args, st.snapshot)
    requires StartEngine(0, st.snapshot, st.trace) == AfterTwo() && LowerBound(pa.from) == 0 && pa.to == 2
    ensures var next := Cycle(Tally(), 0, Chain3(), st, args, false);
            next.snapshot.Some? && next.snapshot.value.complete
            && next.snapshot.value.to == 2 && next.snapshot.value.store == 2
            && next.trace == [ItemIn(1), ItemIn(5)]
  {
    ChainParts(0, 2);
    var r0 := StartRun(AfterTwo());
    OneLog(pa, r0, 1, [LogAt(1)], [], r0);
    LaterCycle(Chain3(), args, pa, st, AfterTwo(), r0);
  }

  // ----- an explicit end before a complete checkpoint -----

  /** After a complete sync to block 9, a cycle told to end at block 2 stores the state of block 9 there. */
  lemma EarlierEnd()
    ensures var one := Cycle(Tally(), 0, Chain3(), Stored(None, []), Options(Some(0), None, 10, 0, 9), false);
            var two := Cycle(Tally(), 0, Chain3(), one, Options(None, Some(2), 10, 0, 9), false);
            && one.snapshot.Some? && one.snapshot.value.complete && one.snapshot.value.to == 9
            && two.snapshot.Some? && two.snapshot.value.complete && two.snapshot.value.to == 2
            && two.snapshot.value.store == 3
            && Reference(Tally(), Chain3(), 0, 0, 2).store == 1
  {
    var args, less := Options(Some(0), None, 10, 0, 9), Options(None, Some(2), 10, 0, 9);
    var one := Cycle(Tally(), 0, Chain3(), Stored(None, []), args, false);
    FirstPass(PassArgs(Some(0), 9, 10, args.hashAt));
    FirstCycle(args, PassArgs(Some(0), 9, 10, args.hashAt));
    var pa := PassArgs(Some(10), 2, 10, less.hashAt);
    var e := Engine(3, [], one.trace, {}, true);
    assert StartEngine(0, one.snapshot, one.trace) == e;
    BackwardPass(Tally(), Chain3(), e, pa);
    LaterCycle(Chain3(), less, pa, one, e, StartRun(e));
    CountOf(0, 2);
  }

  // ----- a first cycle that fails -----

  /** The loop is to start at block 3.  Its first cycle fails; the second one starts at block 0. */
  lemma ForgottenStart()
    ensures var one := Cycle(Tally(), 0, Chain3(), Stored(None, []), Options(Some(3), None, 10, 0, 9), true);
            var two := Cycle(Tally(), 0, Chain3(), one, Options(None, None, 10, 0, 9), false);
            && one == Stored(None, [])
            && two.snapshot.Some? && two.snapshot.value.complete && two.snapshot.value.to == 9
            && two.snapshot.value.store == 3
            && Reference(Tally(), Chain3(), 3, 0, 9).store == 2
  {
    var args := Options(None, None, 10, 0, 9);
    FirstPass(PassArgs(None, 9, 10, args.hashAt));
    FirstCycle(args, PassArgs(None, 9, 10, args.hashAt));
    CountOf(3, 9);
  }

  // ----- a first pass without a start block -----

  /** A pass without a start block stops after one log; the next one starts at block 9 and is complete. */
  lemma SkippedLogs()
    ensures var one := Cycle(Tally(), 0, Chain3(), Stored(None, []), Options(None, None, 1, 0, 9), false);
            var two := Cycle(Tally(), 0, Chain3(), one, Options(None, None, 10, 0, 9), false);
            && one.snapshot.Some? && !one.snapshot.value.complete && one.snapshot.value.from.None?
            && two.snapshot.Some? && two.snapshot.value.complete && two.snapshot.value.to == 9
            && two.snapshot.value.store == 1
            && Reference(Tally(), Chain3(), 0, 0, 9).store == 3
  {
    var args, more := Options(None, None, 1, 0, 9), Options(None, None, 10, 0, 9);
    var one := Cycle(Tally(), 0, Chain3(), Stored(None, []), args, false);
    FirstPass(PassArgs(None, 9, 1, args.hashAt));
    FirstCycle(args, PassArgs(None, 9, 1, args.hashAt));
    var pa := PassArgs(Some(9), 9, 10, more.hashAt);
    assert StartEngine(0, one.snapshot, one.trace) == AfterOne();
    ChainParts(9, 9);
    LaterCycle(Chain3(), more, pa, one, AfterOne(), StartRun(AfterOne()));
    CountOf(0, 9);
  }

  // ----- a rollback to an entry of a pass -----

  /** The chain after a reorganization: the log of block 8 is gone. */
  function Fork(): seq<RawLog> {
    [LogAt(1), LogAt(5)]
  }

  /** A cycle with the rollback policy, on a chain with these hashes. */
  function HashedOptions(from: Option<nat>, limit: nat, head: nat, hashAt: nat -> Option<nat>): SyncArgs {
    SyncArgs(from, None, limit, 0, false, Rollback, 10, 0, head, hashAt)
  }

  function OldHashes(): nat -> Option<nat> {
    (n: nat) => Some(n)
  }

  /** Blocks after block 5 are new. */
  function NewHashes(): nat -> Option<nat> {
    (n: nat) => if n <= 5 then Some(n) else Some(n + 100)
  }

  lemma SafeEntry(a: Entry<int>, b: Entry<int>, c: Entry<int>, d: Entry<int>)
    requires b.hash == Some(5) && b.to == 5 && c.hash == Some(8) && c.to == 8 && d.hash == Some(9) && d.to == 9
    ensures FindSafe([a, b, c, d], 10, NewHashes()) == Some(b)
  {
    var h3, h2 := [a, b, c], [a, b];
    assert [a, b, c, d][..3] == h3 && h3[..2] == h2;
    assert FindSafe(h2, 8, NewHashes()) == Some(b);
    assert FindSafe(h3, 9, NewHashes()) == FindSafe(h2, 8, NewHashes());
  }

  /** The history of a first snapshot: what the pass recorded, and its end. */
  lemma FirstHistory(args: SyncArgs, pa: PassArgs, r: Run<int>, next: Snapshot<int>)
    requires next == NextSnapshot(None, args, pa, RunOf(r)) && args.historyLimit == 0
    requires Increasing(r.history + [EntryOf(next)])
    ensures next.history == r.history + [EntryOf(next)]
  {
    var all := r.history + [EntryOf(next)];
    assert Incoming(None, r.history, EntryOf(next)) == all;
    assert [] + all == all;
    PushAllAppends([], all);
  }

  lemma FirstEntries(args: SyncArgs, pa: PassArgs, next: Snapshot<int>)
    requires next == NextSnapshot(None, args, pa, RunOf(RunThree(pa))) && args.historyLimit == 0 && pa.to == 9
    ensures next.history == [BlockEntry(pa, AfterOne(), 1), BlockEntry(pa, AfterTwo(), 5),
                             BlockEntry(pa, AfterThree(), 8), EntryOf(next)]
  {
    FirstHistory(args, pa, RunThree(pa), next);
  }

  /** The first sync: complete, with an entry at every block in which something ran. */
  lemma SyncedOnce(st: Stored<int>)
    requires st == Cycle(Tally(), 0, Chain3(), Stored(None, []), HashedOptions(Some(0), 10, 9, OldHashes()), false)
    ensures st.snapshot.Some? && st.snapshot.value.to == 9
    ensures st.snapshot.value.hash == Some(9) && st.snapshot.value.complete
    ensures var h := st.snapshot.value.history;
            |h| == 4 && h[1] == Entry(Some(0), 5, Some(5), false, 2, []) && h == [h[0], h[1], h[2], h[3]]
            && h[2].hash == Some(8) && h[2].to == 8 && h[3].hash == Some(9) && h[3].to == 9
  {
    var args := HashedOptions(Some(0), 10, 9, OldHashes());
    var pa := PassArgs(Some(0), 9, 10, args.hashAt);
    FirstPass(pa);
    FirstCycle(args, pa);
    FirstEntries(args, pa, st.snapshot.value);
  }

  lemma ForkLogs()
    ensures LogsIn(Fork(), 0, 9) == Fork() && Reference(Tally(), Fork(), 0, 0, 9).store == 2
  {
    assert Fork() == [LogAt(1)] + [LogAt(5)] && [LogAt(5)] == [LogAt(5)] + [];
    LogsOfOne(1, [LogAt(5)], 0, 9);
    LogsOfOne(5, [], 0, 9);
    ReferenceCount([ONLY], Fork(), 0, 9);
    CountOne(1);
    CountOne(5);
    CountConcat([ONLY], [LogAt(1)], [LogAt(5)]);
  }

  /** From the rolled-back entry both logs run again. */
  lemma ForkPass(pa: PassArgs, trace: seq<Item>)
    requires LowerBound(pa.from) == 0 && pa.to == 9 && pa.limit == 10
    ensures var r := Pass(Tally(), Fork(), pa, Engine(2, [], trace, {}, true));
            r.halt == Running && r.eng.store == 4
  {
    ForkLogs();
    var r0 := StartRun(Engine(2, [], trace, {}, true));
    var r1 := Close(pa, AfterLog(pa, r0, 1), Fork());
    OneLog(pa, r0, 1, Fork(), [LogAt(5)], r1);
    OneLog(pa, r1, 5, [LogAt(5)], [], Close(pa, AfterLog(pa, r1, 5), [LogAt(5)]));
  }

  /** A reorganization after block 5: the newest entry that the new chain does not contradict was recorded on
      the way of the first pass, at block 5.  The resync starts at block 0 again, and counts both logs twice. */
  lemma RedoneLogs()
    ensures var one := Cycle(Tally(), 0, Chain3(), Stored(None, []), HashedOptions(Some(0), 10, 9, OldHashes()), false);
            var two := Cycle(Tally(), 0, Fork(), one, HashedOptions(None, 10, 9, NewHashes()), false);
            && one.snapshot.Some? && one.snapshot.value.complete
            && two.snapshot.Some? && two.snapshot.value.complete && two.snapshot.value.to == 9
            && two.snapshot.value.store == 4
            && Reference(Tally(), Fork(), 0, 0, 9).store == 2
  {
    var one := Cycle(Tally(), 0, Chain3(), Stored(None, []), HashedOptions(Some(0), 10, 9, OldHashes()), false);
    SyncedOnce(one);
    RolledBackCycle(HashedOptions(None, 10, 9, NewHashes()), one);
    ForkLogs();
  }

  lemma RolledBackCycle(args: SyncArgs, st: Stored<int>)
    requires args == HashedOptions(None, 10, 9, NewHashes()) && st.snapshot.Some? && st.snapshot.value.to == 9
    requires st.snapshot.value.hash == Some(9)
    requires var h := st.snapshot.value.history;
             |h| == 4 && h[1] == Entry(Some(0), 5, Some(5), false, 2, []) && h == [h[0], h[1], h[2], h[3]]
             && h[2].hash == Some(8) && h[2].to == 8 && h[3].hash == Some(9) && h[3].to == 9
    ensures var two := Cycle(Tally(), 0, Fork(), st, args, false).snapshot;
            two.Some? && two.value.complete && two.value.to == 9 && two.value.store == 4
  {
    var s := st.snapshot.value;
    SafeEntry(s.history[0], s.history[1], s.history[2], s.history[3]);
    var rolled := RolledBack(s, s.history[1]);
    assert ApplyReorgPolicy(st.snapshot, args) == Ok(Some(rolled));
    var pa := PassArgs(Some(0), 9, 10, args.hashAt);
    assert PassArgsFor(args, Some(rolled)) == pa;
    assert StartEngine(0, Some(rolled), st.trace) == Engine(2, [], st.trace, {}, true);
    ForkPass(pa, st.trace);
  }

  // ----- an entry that claims a block too far -----

  /** An unfinished pass keeps its state for block 9; when the sync has gone on to block 20, complete, a query
      at block 9 still reads it. */
  lemma StampedEntry()
    ensures var one := Cycle(Tally(), 0, Chain3(), Stored(None, []), Options(Some(0), None, 2, 0, 9), false);
            var two := Cycle(Tally(), 0, Chain3(), one, Options(None, None, 10, 0, 20), false);
            && one.snapshot.Some? && !one.snapshot.value.complete
               && SelectAt(one.snapshot.value, 0, 9) == Ok(Moment(2, []))
            && two.snapshot.Some? && two.snapshot.value.complete && two.snapshot.value.to == 20
            && SelectAt(two.snapshot.value, 0, 9) == Ok(Moment(2, []))
            && Reference(Tally(), Chain3(), 0, 0, 9).store == 3
  {
    var args, more := Options(Some(0), None, 2, 0, 9), Options(None, None, 10, 0, 20);
    var pa := PassArgs(Some(0), 9, 2, args.hashAt);
    var one := Cycle(Tally(), 0, Chain3(), Stored(None, []), args, false);
    FirstPass(pa);
    FirstCycle(args, pa);
    FirstTwo(args, pa, one.snapshot.value);
    GoneOn(more, PassArgs(Some(0), 20, 10, more.hashAt), one);
    CountOf(0, 9);
  }

  lemma FirstTwo(args: SyncArgs, pa: PassArgs, next: Snapshot<int>)
    requires next == NextSnapshot(None, args, pa, RunOf(RunTwo(pa).(halt := Limited)))
    requires args.historyLimit == 0 && pa.to == 9
    ensures next.history == [BlockEntry(pa, AfterOne(), 1), BlockEntry(pa, AfterTwo(), 5), EntryOf(next)]
  {
    FirstHistory(args, pa, RunTwo(pa).(halt := Limited), next);
  }

  lemma GoneOn(args: SyncArgs, pa: PassArgs, st: Stored<int>)
    requires !args.reset && args.historyLimit == 0 && st.snapshot.Some? && !st.snapshot.value.complete
    requires st.snapshot.value.hash.None? || st.snapshot.value.hash == args.hashAt(9)
    requires pa == PassArgsFor(args, st.snapshot) && StartEngine(0, st.snapshot, st.trace) == AfterTwo()
    requires LowerBound(pa.from) == 0 && pa.to == 20 && pa.limit == 10
    requires var s := st.snapshot.value;
             s.to == 9 && s.store == 2 && s.sources == [] && |s.history| == 3
             && s.history[0].to == 1 && s.history[1].to == 5
             && s.history[2] == EntryOf(s)
    ensures var two := Cycle(Tally(), 0, Chain3(), st, args, false);
            && two.snapshot.Some? && two.snapshot.value.complete && two.snapshot.value.to == 20
            && two.snapshot.value.hash == pa.hashAt(20)
            && SelectAt(two.snapshot.value, 0, 9) == Ok(Moment(2, []))
            && two.snapshot.value.history
               == [st.snapshot.value.history[0], st.snapshot.value.history[1], BlockEntry(pa, AfterThree(), 8),
                   EntryOf(st.snapshot.value), EntryOf(two.snapshot.value)]
  {
    RestOfPass(pa);
    LaterCycle(Chain3(), args, pa, st, AfterTwo(), RestRun(pa));
    var s := st.snapshot.value;
    var two := NextSnapshot(st.snapshot, args, pa, RunOf(RestRun(pa)));
    Overtaken(s.history, EntryOf(s), BlockEntry(pa, AfterThree(), 8), EntryOf(two));
    assert Incoming(Some(EntryOf(s)), RestRun(pa).history, EntryOf(two))
        == [EntryOf(s), BlockEntry(pa, AfterThree(), 8), EntryOf(two)];
  }

  function RestRun(pa: PassArgs): Run<int> {
    Run(AfterThree(), 1, Some(8), [BlockEntry(pa, AfterThree(), 8)], Running)
  }

  lemma RestOfPass(pa: PassArgs)
    requires LowerBound(pa.from) == 0 && pa.to == 20 && pa.limit == 10
    ensures Pass(Tally(), Chain3(), pa, AfterTwo()) == RestRun(pa)
  {
    var logs, more, last := [LogAt(1), LogAt(5), LogAt(8)], [LogAt(5), LogAt(8)], [LogAt(8)];
    WholeChain(pa.to);
    var r := StartRun(AfterTwo());
    OneLog(pa, r, 1, logs, more, r);
    OneLog(pa, r, 5, more, last, r);
    LastLeft(pa, r);
    OneLog(pa, r, 8, last, [], RestRun(pa));
  }

  lemma LastLeft(pa: PassArgs, r: Run<int>)
    requires pa.limit == 10 && r == StartRun(AfterTwo())
    ensures Close(pa, AfterLog(pa, r, 8), [LogAt(8)]) == RestRun(pa)
  {
    assert AfterLog(pa, r, 8).eng == AfterThree();
  }

  /** The old entry of block 9 outlives the entry of block 8 pushed after it. */
  lemma Overtaken(h: seq<Entry<int>>, nine: Entry<int>, eight: Entry<int>, twenty: Entry<int>)
    requires |h| == 3 && h[0].to == 1 && h[1].to == 5 && h[2] == nine
    requires nine.to == 9 && eight.to == 8 && twenty.to == 20
    ensures PushAll(h, [nine, eight, twenty], 0) == [h[0], h[1], eight, nine, twenty]
    ensures FindAt([h[0], h[1], eight, nine, twenty], 9) == Some(nine)
  {
    var g, all := [h[0], h[1], eight, nine], [h[0], h[1], eight, nine, twenty];
    PushNine(h, nine, eight);
    PushStep(g, twenty, 0);
    PlaceLast(g, twenty);
    ThreePushes(h, nine, eight, twenty, h, g, all);
    assert all[..4] == g;
  }

  lemma PushNine(h: seq<Entry<int>>, nine: Entry<int>, eight: Entry<int>)
    requires |h| == 3 && h[0].to == 1 && h[1].to == 5 && h[2] == nine && nine.to == 9 && eight.to == 8
    ensures Push(h, nine, 0) == h && Push(h, eight, 0) == [h[0], h[1], eight, nine]
  {
    PushStep(h, nine, 0);
    PlaceThird(h, nine, [nine]);
    PushStep(h, eight, 0);
    PlaceThird(h, eight, [eight, nine]);
  }

  lemma ThreePushes(h: seq<Entry<int>>, a: Entry<int>, b: Entry<int>, c: Entry<int>, f: seq<Entry<int>>,
                    g: seq<Entry<int>>, r: seq<Entry<int>>)
    requires f == Push(h, a, 0) && g == Push(f, b, 0) && r == Push(g, c, 0)
    ensures PushAll(h, [a, b, c], 0) == r
  {
    assert [a, b, c][1..] == [b, c] && [b, c][1..] == [c] && [c][1..] == [];
    assert PushAll(r, [], 0) == r;
    assert PushAll(g, [c], 0) == r;
    assert PushAll(f, [b, c], 0) == r;
  }

  lemma PlaceThird(h: seq<Entry<int>>, e: Entry<int>, tail: seq<Entry<int>>)
    requires |h| == 3 && h[0].to < e.to && h[1].to < e.to <= h[2].to
    requires tail == if e.to < h[2].to then [e, h[2]] else [e]
    ensures Place(h, e) == [h[0], h[1]] + tail
  {
    var h1, h2 := h[1..], h[2..];
    assert h1[1..] == h2 && h2 == [h[2]] && h2[1..] == [];
    assert Place(h2, e) == tail;
    assert Place(h1, e) == [h[1]] + tail;
  }

  // ----- a rollback to such an entry -----

  /** Blocks after block 9 are new; they hold no log, before and after the reorganization. */
  function HashesAfter9(): nat -> Option<nat> {
    (n: nat) => if n <= 9 then Some(n) else Some(n + 100)
  }

  lemma SafeStamp(a: Entry<int>, b: Entry<int>, c: Entry<int>, d: Entry<int>, x: Entry<int>)
    requires d.hash == Some(9) && d.to == 9 && x.hash == Some(20) && x.to == 20
    ensures FindSafe([a, b, c, d, x], 10, HashesAfter9()) == Some(d)
  {
    var h := [a, b, c, d];
    assert [a, b, c, d, x][..4] == h;
    assert FindSafe(h, 9, HashesAfter9()) == Some(d);
  }

  /** An unfinished pass keeps its state, two logs, for block 9; the sync goes on to block 20, complete; then the
      blocks after block 9 are replaced.  The rollback goes to the entry of the unfinished pass, and the resync
      counts its two logs again. */
  lemma RestampedLogs()
    ensures var one := Cycle(Tally(), 0, Chain3(), Stored(None, []), HashedOptions(Some(0), 2, 9, OldHashes()), false);
            var two := Cycle(Tally(), 0, Chain3(), one, HashedOptions(None, 10, 20, OldHashes()), false);
            var three := Cycle(Tally(), 0, Chain3(), two, HashedOptions(None, 10, 20, HashesAfter9()), false);
            && one.snapshot.Some? && !one.snapshot.value.complete && two.snapshot.Some?
            && two.snapshot.value.complete
            && FindSafe(two.snapshot.value.history, 10, HashesAfter9()) == Some(EntryOf(one.snapshot.value))
            && three.snapshot.Some? && three.snapshot.value.complete && three.snapshot.value.to == 20
            && three.snapshot.value.store == 5
            && Reference(Tally(), Chain3(), 0, 0, 20).store == 3
  {
    var args, more := HashedOptions(Some(0), 2, 9, OldHashes()), HashedOptions(None, 10, 20, OldHashes());
    var pa := PassArgs(Some(0), 9, 2, args.hashAt);
    var one := Cycle(Tally(), 0, Chain3(), Stored(None, []), args, false);
    FirstPass(pa);
    FirstCycle(args, pa);
    FirstTwo(args, pa, one.snapshot.value);
    GoneOn(more, PassArgs(Some(0), 20, 10, more.hashAt), one);
    var two := Cycle(Tally(), 0, Chain3(), one, more, false);
    RestampedCycle(HashedOptions(None, 10, 20, HashesAfter9()), two, EntryOf(one.snapshot.value));
    CountOf(0, 20);
  }

  lemma RestampedCycle(args: SyncArgs, st: Stored<int>, nine: Entry<int>)
    requires args == HashedOptions(None, 10, 20, HashesAfter9()) && st.snapshot.Some? && st.snapshot.value.to == 20
    requires st.snapshot.value.hash == Some(20) && nine == Entry(Some(0), 9, Some(9), false, 2, [])
    requires var h := st.snapshot.value.history;
             |h| == 5 && h == [h[0], h[1], h[2], nine, h[4]] && h[4] == EntryOf(st.snapshot.value)
    ensures FindSafe(st.snapshot.value.history, 10, HashesAfter9()) == Some(nine)
    ensures var three := Cycle(Tally(), 0, Chain3(), st, args, false).snapshot;
            three.Some? && three.value.complete && three.value.to == 20 && three.value.store == 5
  {
    var s := st.snapshot.value;
    SafeStamp(s.history[0], s.history[1], s.history[2], nine, s.history[4]);
    var rolled := RolledBack(s, nine);
    assert ApplyReorgPolicy(st.snapshot, args) == Ok(Some(rolled));
    var pa := PassArgs(Some(0), 20, 10, args.hashAt);
    assert PassArgsFor(args, Some(rolled)) == pa;
    assert StartEngine(0, Some(rolled), st.trace) == Engine(2, [], st.trace, {}, true);
    AllAgain(pa, st.trace);
  }

  /** From the entry all three logs run again. */
  lemma AllAgain(pa: PassArgs, trace: seq<Item>)
    requires LowerBound(pa.from) == 0 && pa.to == 20 && pa.limit == 10
    ensures var r := Pass(Tally(), Chain3(), pa, Engine(2, [], trace, {}, true));
            r.halt == Running && r.eng.store == 5
  {
    WholeChain(pa.to);
    var logs, more, last := [LogAt(1), LogAt(5), LogAt(8)], [LogAt(5), LogAt(8)], [LogAt(8)];
    var r0 := StartRun(Engine(2, [], trace, {}, true));
    var r1 := Close(pa, AfterLog(pa, r0, 1), logs);
    OneLog(pa, r0, 1, logs, more, r1);
    var r2 := Close(pa, AfterLog(pa, r1, 5), more);
    OneLog(pa, r1, 5, more, last, r2);
    OneLog(pa, r2, 8, last, [], Close(pa, AfterLog(pa, r2, 8), last));
  }
}
