/** The audit trail over the indexer's cycles: a small run after whose reorganization a row stays that nothing
    accounts for. */
module AuditRuns {
  import opened ChainModel
  import opened Streaming
  import opened Replay
  import opened HistoryWindow
  import opened Sync
  import opened Runs
  import A = Audit
  import D = DeltaHistory

  type State = D.Entities

  // ----- what a cycle writes -----

  function StepOf(e: Entry<State>): D.Snapshot {
    D.Snapshot(e.to, 0, e.store)
  }

  function StepsOf(h: seq<Entry<State>>): seq<D.Snapshot> {
    seq(|h|, i requires 0 <= i < |h| => StepOf(h[i]))
  }

  /** A pass's activity: what it recorded on its way, and its end. */
  function Activity(r: Run<State>, next: Snapshot<State>): seq<D.Snapshot> {
    StepsOf(r.history + [EntryOf(next)])
  }

  /** What a cycle that went on from the entities `base` writes to the trail. */
  function Written(trail: A.Trail, base: State, activity: seq<D.Snapshot>, steps: seq<D.Snapshot>): A.Trail {
    A.Kept(trail, A.CutAt(activity, false)) + A.TrailOf(base, steps)
  }

  /** An activity in block order is its own list of steps. */
  lemma {:induction false} InOrderSelf(activity: seq<D.Snapshot>)
    requires D.Increasing(activity)
    ensures A.InOrder(activity, A.ByBlock(activity))
  {
    if activity != [] {
      var n := |activity| - 1;
      InOrderSelf(activity[..n]);
      assert activity == activity[..n] + [activity[n]];
    }
  }

  lemma {:induction false} StepsUnique(a: seq<D.Snapshot>, b: seq<D.Snapshot>, m: map<nat, D.Snapshot>)
    requires A.InOrder(a, m) && A.InOrder(b, m)
    ensures a == b
  {
    if a != [] && b != [] {
      var x, y := D.Latest(a), D.Latest(b);
      assert D.BlocksOf(a) == D.BlocksOf(D.Earlier(a)) + {x.block};
      assert D.BlocksOf(b) == D.BlocksOf(D.Earlier(b)) + {y.block};
      assert x == a[|a| - 1] && y == b[|b| - 1];
      assert x.block == y.block;
      var rest := map k | k in m && k != x.block :: m[k];
      OneLess(a, m, rest);
      OneLess(b, m, rest);
      StepsUnique(D.Earlier(a), D.Earlier(b), rest);
      assert a == D.Earlier(a) + [x] && b == D.Earlier(b) + [y];
    }
  }

  lemma OneLess(a: seq<D.Snapshot>, m: map<nat, D.Snapshot>, rest: map<nat, D.Snapshot>)
    requires A.InOrder(a, m) && a != [] && rest == map k | k in m && k != D.Latest(a).block :: m[k]
    ensures A.InOrder(D.Earlier(a), rest)
  {
    var less := D.Earlier(a);
    assert D.BlocksOf(a) == D.BlocksOf(less) + {D.Latest(a).block};
    forall i | 0 <= i < |less|
      ensures less[i].block in rest && rest[less[i].block] == less[i]
    {
      assert less[i] == a[i];
      StepBlock(less, i);
    }
  }

  lemma {:induction false} StepBlock(steps: seq<D.Snapshot>, i: nat)
    requires i < |steps|
    ensures steps[i].block in D.BlocksOf(steps)
  {
    if i < |steps| - 1 {
      StepBlock(D.Earlier(steps), i);
    }
  }

  // ----- a small program -----

  const ONLY := Source(0, false, 7, 0, {1}, 0, Pos(0, 0, 0), true)

  function LogAt(block: nat): RawLog {
    RawLog(Pos(block, 0, 0), 7, 1, 0)
  }

  /** The entity that a log of this block creates. */
  function Born(block: nat): D.Key {
    D.Key(0, block)
  }

  /** On a log the handler creates the entity of its block, with these fields. */
  function Keeping(f: D.Fields): Config<State> {
    Config([ONLY], map[], (n: State, x: Item) => Ran(n[Born(x.log.pos.block) := f], [], 0))
  }

  function Options(from: Option<nat>, head: nat, hashAt: nat -> Option<nat>): SyncArgs {
    SyncArgs(from, None, 10, 0, false, Rollback, 10, 0, head, hashAt)
  }

  function OldHashes(): nat -> Option<nat> {
    (n: nat) => Some(n)
  }

  /** Blocks after block 3 are new. */
  function NewHashes(): nat -> Option<nat> {
    (n: nat) => if n <= 3 then Some(n) else Some(n + 100)
  }

  /** What a pass over one log gives, from the store `n`. */
  function OneRun(f: D.Fields, n: State, pa: PassArgs, trace: seq<Item>, block: nat): Run<State> {
    var x := ItemOf(ONLY, LogAt(block));
    var e := Engine(n[Born(block) := f], [], trace + [x], {IdOf(x)}, true);
    Run(e, 1, Some(block), [BlockEntry(pa, e, block)], Running)
  }

  lemma OneLog(block: nat, from: nat, to: nat)
    ensures LogsIn([LogAt(block)], from, to) == if from <= block <= to then [LogAt(block)] else []
  {
    assert [LogAt(block)][1..] == [];
  }

  lemma OneActive(f: D.Fields, e: Engine<State>, block: nat)
    requires e.dyn == [] && e.processed == {}
    ensures FreshAt(Keeping(f), e, LogAt(block)) == [ItemOf(ONLY, LogAt(block))]
  {
    var l, only, x := LogAt(block), [ONLY], ItemOf(ONLY, LogAt(block));
    assert Keeping(f).statics == only && Keeping(f).statics + e.dyn == only;
    assert Filter(ONLY, l) && Matches(ONLY, l) && only[1..] == [];
    assert ItemsAt(only, l) == [x];
    assert Active(Keeping(f), e, l) == [x];
    OneFresh(x, e.processed);
  }

  lemma OneFresh(x: Item, processed: set<Id>)
    requires IdOf(x) !in processed
    ensures Fresh([x], processed) == [x]
  {
    assert [x][1..] == [];
  }

  lemma OnePass(f: D.Fields, n: State, pa: PassArgs, trace: seq<Item>, block: nat)
    requires pa.limit == 10 && LowerBound(pa.from) <= block <= pa.to
    ensures Pass(Keeping(f), [LogAt(block)], pa, Engine(n, [], trace, {}, true)) == OneRun(f, n, pa, trace, block)
  {
    var r, x, logs := StartRun(Engine(n, [], trace, {}, true)), ItemOf(ONLY, LogAt(block)), [LogAt(block)];
    var done := OneRun(f, n, pa, trace, block);
    OneLog(block, LowerBound(pa.from), pa.to);
    assert PassLogs(logs, pa) == logs && logs[1..] == [] && [x][1..] == [];
    OneActive(f, r.eng, block);
    var s := RunItem(Keeping(f), pa, r, x);
    OneStep(f, n, r.eng, x, block);
    assert RunItems(Keeping(f), pa, r, [x]) == s;
    assert Close(pa, s, logs) == done;
    assert RunLogs(Keeping(f), pa, done, []) == done;
  }

  lemma OneStep(f: D.Fields, n: State, e: Engine<State>, x: Item, block: nat)
    requires e == Engine(n, [], e.trace, {}, true) && x == ItemOf(ONLY, LogAt(block))
    ensures Clean(Keeping(f), e.store, x)
    ensures Step(Keeping(f), e, x) == Engine(n[Born(block) := f], [], e.trace + [x], {IdOf(x)}, true)
  {
    assert {} + {IdOf(x)} == {IdOf(x)};
  }

  // ----- three cycles -----

  /** The passes of the three cycles: to block 3, to block 9, and to block 9 after the reorganization. */
  function PassA(): PassArgs { PassArgs(Some(0), 3, 10, OldHashes()) }

  function PassB(): PassArgs { PassArgs(Some(4), 9, 10, OldHashes()) }

  function PassC(): PassArgs { PassArgs(Some(4), 9, 10, NewHashes()) }

  /** The entry of the first cycle, which executes nothing. */
  function Third(n: State): Entry<State> {
    Entry(Some(0), 3, Some(3), true, n, [])
  }

  function First(n: State): Stored<State> {
    Stored(Some(Snapshot(Some(0), 3, Some(3), true, n, [], {}, [Third(n)])), [])
  }

  lemma CycleA(f: D.Fields, n: State)
    ensures Cycle(Keeping(f), n, [LogAt(5)], Stored(None, []), Options(Some(0), 3, OldHashes()), false) == First(n)
  {
    var args := Options(Some(0), 3, OldHashes());
    var e := FreshEngine<State>(n);
    assert StartEngine<State>(n, None, []) == e;
    OneLog(5, 0, 3);
    assert Pass(Keeping(f), [LogAt(5)], PassA(), e) == StartRun(e);
    var all := Incoming(None, [], Third(n));
    assert all == [Third(n)] && [] + all == all;
    PushAllAppends([], all);
  }

  /** A history of these three entries. */
  ghost predicate ThreeEntries(n: State, h: seq<Entry<State>>) {
    && |h| == 3 && h == [h[0], h[1], h[2]] && h[0] == Third(n) && h[1].to == 5 && h[1].hash == Some(5)
    && h[2].to == 9 && h[2].hash == Some(9)
  }

  lemma CycleB(f: D.Fields, n: State, next: Stored<State>)
    requires next == Cycle(Keeping(f), n, [LogAt(5)], First(n), Options(None, 9, OldHashes()), false)
    ensures next.snapshot.Some? && next.snapshot.value.to == 9 && next.snapshot.value.hash == Some(9)
    ensures next.snapshot.value.store == n[Born(5) := f] && ThreeEntries(n, next.snapshot.value.history)
  {
    var args, st := Options(None, 9, OldHashes()), First(n);
    assert ApplyReorgPolicy(st.snapshot, args) == Ok(st.snapshot);
    assert StartEngine(n, st.snapshot, st.trace) == Engine(n, [], [], {}, true);
    assert PassArgsFor(args, st.snapshot) == PassB();
    OnePass(f, n, PassB(), [], 5);
    var r := OneRun(f, n, PassB(), [], 5);
    HistoryB(n, args, r, r.history[0], NextSnapshot(st.snapshot, args, PassB(), RunOf(r)));
  }

  lemma HistoryB(n: State, args: SyncArgs, r: Run<State>, five: Entry<State>, made: Snapshot<State>)
    requires args.historyLimit == 0 && r.history == [five] && five.to == 5
    requires made == NextSnapshot(First(n).snapshot, args, PassB(), RunOf(r))
    ensures made.history == [Third(n), five, EntryOf(made)]
  {
    MergedB(n, five, EntryOf(made));
    assert Incoming(Some(Third(n)), r.history, EntryOf(made)) == [Third(n), five, EntryOf(made)];
  }

  lemma MergedB(n: State, five: Entry<State>, nine: Entry<State>)
    requires five.to == 5 && nine.to == 9
    ensures PushAll([Third(n)], [Third(n), five, nine], 0) == [Third(n), five, nine]
  {
    var h, rest := [Third(n)], [five, nine];
    assert [Third(n), five, nine][1..] == rest;
    PushStep(h, Third(n), 0);
    assert h[1..] == [];
    assert Place(h, Third(n)) == h;
    assert h + rest == [Third(n), five, nine];
    PushAllAppends(h, rest);
  }

  lemma SafeThird(n: State, h: seq<Entry<State>>)
    requires ThreeEntries(n, h)
    ensures FindSafe(h, 10, NewHashes()) == Some(Third(n))
  {
    var h2, h1 := [h[0], h[1]], [h[0]];
    assert h[..2] == h2 && h2[..1] == h1;
    assert FindSafe(h1, 8, NewHashes()) == Some(Third(n));
    assert FindSafe(h2, 9, NewHashes()) == Some(Third(n));
  }

  lemma CycleC(f: D.Fields, n: State, st: Stored<State>, next: Stored<State>)
    requires st.snapshot.Some? && st.snapshot.value.to == 9 && st.snapshot.value.hash == Some(9)
    requires ThreeEntries(n, st.snapshot.value.history)
    requires next == Cycle(Keeping(f), n, [LogAt(8)], st, Options(None, 9, NewHashes()), false)
    ensures FindSafe(st.snapshot.value.history, 10, NewHashes()) == Some(Third(n))
    ensures next.snapshot.Some? && next.snapshot.value.to == 9 && next.snapshot.value.store == n[Born(8) := f]
  {
    var args, s := Options(None, 9, NewHashes()), st.snapshot.value;
    SafeThird(n, s.history);
    var rolled := RolledBack(s, Third(n));
    assert ApplyReorgPolicy(st.snapshot, args) == Ok(Some(rolled));
    assert StartEngine(n, Some(rolled), st.trace) == Engine(n, [], st.trace, {}, true);
    assert PassArgsFor(args, Some(rolled)) == PassC();
    OnePass(f, n, PassC(), st.trace, 8);
  }

  // ----- the trail -----

  function At(block: nat, state: State): D.Snapshot {
    D.Snapshot(block, 0, state)
  }

  /** Two steps: the first creates the entity, the second changes nothing. */
  function Pair(f: D.Fields, n: State, block: nat, to: nat): seq<D.Snapshot> {
    [At(block, n[Born(block) := f]), At(to, n[Born(block) := f])]
  }

  lemma ActivityOfRun(f: D.Fields, n: State, pa: PassArgs, trace: seq<Item>, block: nat, next: Snapshot<State>)
    requires next.to == pa.to && next.store == n[Born(block) := f]
    ensures Activity(OneRun(f, n, pa, trace, block), next) == Pair(f, n, block, pa.to)
  {
    var h := OneRun(f, n, pa, trace, block).history;
    assert h + [EntryOf(next)] == [h[0], EntryOf(next)];
  }

  lemma PairShape(f: D.Fields, n: State, block: nat, to: nat, one: seq<D.Snapshot>)
    requires block < to && one == [At(block, n[Born(block) := f])]
    ensures var two := Pair(f, n, block, to);
            && D.Earlier(two) == one && D.Latest(two) == At(to, n[Born(block) := f])
            && D.Increasing(two) && D.BlocksOf(two) == {block, to} && A.CutAt(two, false) == Some(block)
    ensures D.Earlier(one) == [] && D.Latest(one) == At(block, n[Born(block) := f])
    ensures D.Increasing(one) && D.BlocksOf(one) == {block}
  {
    assert D.Earlier(Pair(f, n, block, to)) == one && D.Earlier(one) == [];
    assert D.BlocksOf([]) == {};
    assert D.BlocksOf(one) == {block};
    assert A.FirstBlock(one) == block;
  }

  /** Cutting between two steps keeps the rows of the first. */
  lemma KeptBelow(first: A.Trail, base: State, one: seq<D.Snapshot>, two: seq<D.Snapshot>, cut: nat, trail: A.Trail)
    requires two != [] && D.Earlier(two) == one && D.Latest(two).block >= cut
    requires (forall b :: b in D.BlocksOf(one) ==> b < cut) && forall b :: b in first ==> b < cut
    requires trail == first + A.TrailOf(base, two)
    ensures A.Kept(trail, Some(cut)) == first + A.TrailOf(base, one)
  {
    A.TrailKeys(base, one);
    var b, rows := D.Latest(two).block, A.TrailOf(base, one);
    var row := A.Mark(A.StateAfter(base, one), D.Delta(A.StateAfter(base, one), D.Latest(two).entities));
    assert A.TrailOf(base, two) == rows[b := row];
    KeptRows(first, rows, b, row, cut);
  }

  lemma KeptRows(first: A.Trail, rows: A.Trail, b: nat, row: A.Rows, cut: nat)
    requires b >= cut && (forall x :: x in first ==> x < cut) && forall x :: x in rows ==> x < cut
    ensures A.Kept(first + rows[b := row], Some(cut)) == first + rows
  {
  }

  lemma Untouched(f: D.Fields, n: State, block: nat, cut: nat, to: nat)
    requires block < cut < to
    ensures !A.Touched(n, Pair(f, n, cut, to), Born(block))
  {
    var one := [At(cut, n[Born(cut) := f])];
    PairShape(f, n, cut, to, one);
    assert !A.Touched(n, [], Born(block));
    assert !A.Touched(n, one, Born(block));
  }

  /** A pass that creates an entity in one block, a rollback to before it, and a pass that creates another one
      later: the row of the first entity stays, and with it the entity in the fold. */
  lemma StaleFold(f: D.Fields, n: State, first: A.Trail, block: nat, cut: nat, to: nat, past: nat, trail: A.Trail)
    requires block < cut < to && past == to + 1
    requires (forall b :: b in first ==> b < block) && A.FoldBelow(first, block) == n
    requires Born(block) !in n && trail == first + A.TrailOf(n, Pair(f, n, block, to))
    ensures Born(block) in A.FoldBelow(A.Kept(trail, Some(cut)) + A.TrailOf(n, Pair(f, n, cut, to)), past)
  {
    var one := [At(block, n[Born(block) := f])];
    PairShape(f, n, block, to, one);
    KeptBelow(first, n, one, Pair(f, n, block, to), cut, trail);
    var kept := A.Kept(trail, Some(cut));
    A.TrailKeys(n, one);
    A.FoldRight(first, n, one, block, cut);
    A.StepsAllBelow(one, cut);
    StaleAfter(f, n, kept, block, cut, to, past);
  }

  lemma StaleAfter(f: D.Fields, n: State, kept: A.Trail, block: nat, cut: nat, to: nat, past: nat)
    requires block < cut < to && past == to + 1 && (forall b :: b in kept ==> b < cut)
    requires Born(block) !in n && Born(block) in A.FoldBelow(kept, cut)
    ensures Born(block) in A.FoldBelow(kept + A.TrailOf(n, Pair(f, n, cut, to)), past)
  {
    var steps := Pair(f, n, cut, to);
    PairShape(f, n, cut, to, [At(cut, n[Born(cut) := f])]);
    A.LatestTop(steps, past);
    Untouched(f, n, block, cut, to);
    A.StaleRowStays(kept, n, steps, cut, past, Born(block));
  }

  /** The first cycle's only step folds to its entities. */
  lemma FirstStep(n: State, block: nat, next: nat, first: A.Trail, one: seq<D.Snapshot>)
    requires block < next && one == [At(block, n)] && first == Written(map[], map[], one, one)
    ensures first.Keys == {block} && A.FoldBelow(first, next) == n && D.Increasing(one)
  {
    assert D.Earlier(one) == [] && D.Latest(one) == At(block, n);
    assert D.BlocksOf([]) == {};
    assert D.BlocksOf(one) == {block};
    var none: A.Trail := map[];
    assert A.Kept(none, A.CutAt(one, false)) == none;
    A.TrailKeys(map[], one);
    A.FoldPast(none, 0, block);
    A.StepsAllBelow(one, next);
    A.FoldRight(none, map[], one, block, next);
  }

  /** The entity of block 5 belongs to the chain before the reorganization only.  After the third cycle it is
      not among the entities, but still in the fold of the trail. */
  lemma StaleRowRun(f: D.Fields, n: State)
    requires Born(5) !in n
    ensures var one := Cycle(Keeping(f), n, [LogAt(5)], Stored(None, []), Options(Some(0), 3, OldHashes()), false);
            var two := Cycle(Keeping(f), n, [LogAt(5)], one, Options(None, 9, OldHashes()), false);
            var three := Cycle(Keeping(f), n, [LogAt(8)], two, Options(None, 9, NewHashes()), false);
            && one == First(n) && two.snapshot.Some? && three.snapshot.Some?
               && three.snapshot.value.store == n[Born(8) := f]
            && FindSafe(two.snapshot.value.history, 10, NewHashes()) == Some(Third(n))
            && Activity(OneRun(f, n, PassB(), [], 5), two.snapshot.value) == Pair(f, n, 5, 9)
            && Activity(OneRun(f, n, PassC(), two.trace, 8), three.snapshot.value) == Pair(f, n, 8, 9)
    ensures var first := [At(3, n)];
            var trail := Written(Written(map[], map[], first, first), n, Pair(f, n, 5, 9), Pair(f, n, 5, 9));
            Born(5) in A.FoldBelow(Written(trail, n, Pair(f, n, 8, 9), Pair(f, n, 8, 9)), 10)
  {
    var two := Cycle(Keeping(f), n, [LogAt(5)], First(n), Options(None, 9, OldHashes()), false);
    var three := Cycle(Keeping(f), n, [LogAt(8)], two, Options(None, 9, NewHashes()), false);
    CycleA(f, n);
    CycleB(f, n, two);
    CycleC(f, n, two, three);
    ActivityOfRun(f, n, PassB(), [], 5, two.snapshot.value);
    ActivityOfRun(f, n, PassC(), two.trace, 8, three.snapshot.value);
    StaleTrail(f, n);
  }

  lemma StaleTrail(f: D.Fields, n: State)
    requires Born(5) !in n
    ensures var first := [At(3, n)];
            var trail := Written(Written(map[], map[], first, first), n, Pair(f, n, 5, 9), Pair(f, n, 5, 9));
            Born(5) in A.FoldBelow(Written(trail, n, Pair(f, n, 8, 9), Pair(f, n, 8, 9)), 10)
  {
    var first := Written(map[], map[], [At(3, n)], [At(3, n)]);
    FirstStep(n, 3, 5, first, [At(3, n)]);
    PairShape(f, n, 5, 9, [At(5, n[Born(5) := f])]);
    PairShape(f, n, 8, 9, [At(8, n[Born(8) := f])]);
    assert A.Kept(first, Some(5)) == first;
    StaleFold(f, n, first, 5, 8, 9, 10, first + A.TrailOf(n, Pair(f, n, 5, 9)));
  }

  /** The same trail, written by the transactions of the three cycles, unless one of them fails. */
  method WriteStaleTrail(f: D.Fields, n: State) returns (store: A.AuditStore, ok: bool)
    requires Born(5) !in n
    ensures ok ==> store.current == n[Born(8) := f] && Born(5) !in store.current
    ensures ok ==> Born(5) in A.FoldBelow(store.trail, 10)
  {
    store := new A.AuditStore(map[], map[], map[]);
    ghost var base, steps;
    ok, base, steps := store.WriteActivity([At(3, n)], None, false, n);
    if !ok { return; }
    OnlySteps(steps, [At(3, n)]);
    ok, base, steps := store.WriteActivity(Pair(f, n, 5, 9), Some(n), false, n[Born(5) := f]);
    if !ok { return; }
    PairShape(f, n, 5, 9, [At(5, n[Born(5) := f])]);
    OnlySteps(steps, Pair(f, n, 5, 9));
    ok, base, steps := store.WriteActivity(Pair(f, n, 8, 9), Some(n), false, n[Born(8) := f]);
    if !ok { return; }
    PairShape(f, n, 8, 9, [At(8, n[Born(8) := f])]);
    OnlySteps(steps, Pair(f, n, 8, 9));
    StaleTrail(f, n);
  }

  lemma OnlySteps(steps: seq<D.Snapshot>, activity: seq<D.Snapshot>)
    requires D.Increasing(activity) && A.InOrder(steps, A.ByBlock(activity))
    ensures steps == activity
  {
    InOrderSelf(activity);
    StepsUnique(steps, activity, A.ByBlock(activity));
  }
}
