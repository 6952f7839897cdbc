/** Why the split theorem asks something of dynamic sources: two small syncs, computed step by step, whose
    result depends on where a pass stopped. */
module SourceOrder {
  import opened ChainModel
  import opened Streaming
  import opened Replay
  import opened Sync
  import opened Runs

  const FACTORY := Source(0, false, 7, 0, {1}, 0, Pos(0, 0, 0), true)

  /** On a factory log the handler asks for children; on a child's log it writes the child's name, in decimal,
      behind what is stored. */
  function Breeding(creates: seq<Create>): Config<int> {
    Config([FACTORY], map[10 := {2}, 20 := {2}],
           (n: int, x: Item) => if x.source == 0 then Ran(n, creates, 0) else Ran(100 * n + x.source, [], 0))
  }

  function FactoryLog(at: Pos): RawLog {
    RawLog(at, 7, 1, 0)
  }

  function ChildLog(at: Pos): RawLog {
    RawLog(at, 9, 2, 0)
  }

  function Child(name: nat, born: Pos, resumed: bool): Source {
    Source(name, true, 9, born.block, {2}, 0, born, resumed)
  }

  function Birth(name: nat): Create {
    Create(Some(name), [9], 0)
  }

  function FactoryItem(at: Pos): Item {
    ItemOf(FACTORY, FactoryLog(at))
  }

  function ChildItem(name: nat, at: Pos): Item {
    Item(name, true, 0, ChildLog(at))
  }

  function Options(from: Option<nat>, limit: nat): SyncArgs {
    SyncArgs(from, None, limit, 0, false, Fail, 0, 0, 9, (n: nat) => None)
  }

  // ----- evaluation -----

  lemma LogRun<S>(cfg: Config<S>, args: PassArgs, r: Run<S>, logs: seq<RawLog>, rest: seq<RawLog>, items: seq<Item>,
                  next: Run<S>)
    requires logs != [] && rest == logs[1..] && r.halt == Running && items == FreshAt(cfg, r.eng, logs[0])
    requires next == Close(args, RunItems(cfg, args, r, items), logs)
    ensures RunLogs(cfg, args, r, logs) == RunLogs(cfg, args, next, rest)
  {
  }

  lemma LogWalked<S>(cfg: Config<S>, e: Engine<S>, logs: seq<RawLog>, rest: seq<RawLog>, next: Engine<S>)
    requires logs != [] && rest == logs[1..] && e.ok && next == WalkItems(cfg, e, Active(cfg, e, logs[0]))
    ensures Walk(cfg, e, logs) == Walk(cfg, next, rest)
  {
  }

  lemma OneItem<S>(cfg: Config<S>, args: PassArgs, r: Run<S>, x: Item)
    requires r.halt == Running
    ensures RunItems(cfg, args, r, [x]) == RunItem(cfg, args, r, x)
  {
    assert [x][1..] == [];
  }

  lemma TwoItems<S>(cfg: Config<S>, args: PassArgs, r: Run<S>, x: Item, y: Item, s: Run<S>)
    requires r.halt == Running && s == RunItem(cfg, args, r, x)
    ensures RunItems(cfg, args, r, [x, y]) == if s.halt == Running then RunItem(cfg, args, s, y) else s
  {
    assert [x, y][1..] == [y];
    if s.halt == Running { OneItem(cfg, args, s, y); }
  }

  lemma FreshOne(x: Item, processed: set<Id>)
    ensures Fresh([x], processed) == if IdOf(x) in processed then [] else [x]
  {
    assert [x][1..] == [];
  }

  lemma FreshTwo(x: Item, y: Item, processed: set<Id>)
    requires IdOf(x) !in processed && IdOf(y) !in processed
    ensures Fresh([x, y], processed) == [x, y]
  {
    assert [x, y][1..] == [y];
    FreshOne(y, processed);
  }

  /** A factory log concerns the factory only. */
  lemma FactoryActive(e: Engine<int>, creates: seq<Create>, at: Pos)
    requires forall d :: d in e.dyn ==> d.address == 9
    ensures Active(Breeding(creates), e, FactoryLog(at)) == [FactoryItem(at)]
  {
    var l, only := FactoryLog(at), [FACTORY];
    assert Breeding(creates).statics == only;
    ItemsAtConcat(only, e.dyn, l);
    ItemsAtNone(e.dyn, l);
    assert Matches(FACTORY, l) && only[1..] == [];
    assert ItemsAt(only, l) == [ItemOf(FACTORY, l)];
  }

  /** A child's log concerns the children that are active there. */
  lemma ChildActive(e: Engine<int>, creates: seq<Create>, at: Pos)
    ensures Active(Breeding(creates), e, ChildLog(at)) == ItemsAt(e.dyn, ChildLog(at))
  {
    var only := [FACTORY];
    assert Breeding(creates).statics == only && forall s :: s in only ==> s == FACTORY;
    ItemsAtConcat(only, e.dyn, ChildLog(at));
    ItemsAtNone(only, ChildLog(at));
  }

  lemma OneChild(d: Source, l: RawLog)
    ensures ItemsAt([d], l) == if Matches(d, l) then [ItemOf(d, l)] else []
  {
    assert [d][1..] == [];
  }

  lemma TwoChildren(c: Source, d: Source, l: RawLog)
    requires Matches(c, l) && Matches(d, l)
    ensures ItemsAt([c, d], l) == [ItemOf(c, l), ItemOf(d, l)]
  {
    assert [c, d][1..] == [d];
    OneChild(d, l);
  }

  // ----- two children at one address -----

  const FIRST := Pos(1, 0, 0)
  const FIFTH := Pos(5, 0, 0)

  /** The factory asks for child 20 and then for child 10, at the same address. */
  function Twice(): Config<int> {
    Breeding([Birth(20), Birth(10)])
  }

  function Shared(): seq<RawLog> {
    [FactoryLog(FIRST), ChildLog(FIFTH)]
  }

  lemma SharedLogs()
    ensures LogsIn(Shared(), 0, 9) == Shared() && Ordered(Shared())
  {
    assert Shared()[1..] == [ChildLog(FIFTH)] && [ChildLog(FIFTH)][1..] == [];
  }

  lemma TwoBorn()
    ensures AddSources(Twice(), [], [Birth(20), Birth(10)], FIRST) == [Child(20, FIRST, false), Child(10, FIRST, false)]
  {
    var c, d := Child(20, FIRST, false), Child(10, FIRST, false);
    assert Instantiate(Twice(), Birth(20), FIRST) == Some(c) && Instantiate(Twice(), Birth(10), FIRST) == Some(d);
    assert [Birth(20), Birth(10)][1..] == [Birth(10)] && [Birth(10)][1..] == [];
    assert [] + [c] == [c] && [c] + [d] == [c, d];
    assert AddSources(Twice(), [c, d], [], FIRST) == [c, d];
    assert AddSources(Twice(), [c], [Birth(10)], FIRST) == [c, d];
  }

  function BornTwice(): Engine<int> {
    Engine(0, [Child(20, FIRST, false), Child(10, FIRST, false)], [FactoryItem(FIRST)],
           {IdOf(FactoryItem(FIRST))}, true)
  }

  lemma FactoryStep()
    ensures Step(Twice(), FreshEngine(0), FactoryItem(FIRST)) == BornTwice()
  {
    TwoBorn();
    assert [] + [FactoryItem(FIRST)] == [FactoryItem(FIRST)];
    assert {} + {IdOf(FactoryItem(FIRST))} == {IdOf(FactoryItem(FIRST))};
  }

  /** The factory's log, then the first stop. */
  lemma SharedFirst(pa: PassArgs)
    requires LowerBound(pa.from) == 0 && pa.to == 9 && pa.limit == 1
    ensures var r := Pass(Twice(), Shared(), pa, FreshEngine(0));
            r.halt == Limited && r.eng == BornTwice()
  {
    SharedLogs();
    var r0 := StartRun(FreshEngine(0));
    FactoryActive(r0.eng, [Birth(20), Birth(10)], FIRST);
    FreshOne(FactoryItem(FIRST), {});
    OneItem(Twice(), pa, r0, FactoryItem(FIRST));
    FactoryStep();
    var mid := r0.(eng := BornTwice(), executed := 1, last := Some(1));
    var next := Close(pa, mid, Shared());
    assert RunItems(Twice(), pa, r0, [FactoryItem(FIRST)]) == mid;
    LogRun(Twice(), pa, r0, Shared(), [ChildLog(FIFTH)], [FactoryItem(FIRST)], next);
    SharedStop(pa, next);
  }

  lemma SharedStop(pa: PassArgs, r: Run<int>)
    requires pa.limit == 1 && r.halt == Running && r.executed == 1 && r.last == Some(1) && r.eng == BornTwice()
    ensures var s := RunLogs(Twice(), pa, r, [ChildLog(FIFTH)]);
            s.halt == Limited && s.eng == BornTwice()
  {
    var x, y := ChildItem(20, FIFTH), ChildItem(10, FIFTH);
    ChildActive(r.eng, [Birth(20), Birth(10)], FIFTH);
    TwoChildren(Child(20, FIRST, false), Child(10, FIRST, false), ChildLog(FIFTH));
    FreshTwo(x, y, r.eng.processed);
    TwoItems(Twice(), pa, r, x, y, r.(halt := Limited));
    LogRun(Twice(), pa, r, [ChildLog(FIFTH)], [], [x, y], r.(halt := Limited));
  }

  /** The snapshot sorts the children by name. */
  lemma Sorted()
    ensures Persist(BornTwice().dyn) == [Child(10, FIRST, true), Child(20, FIRST, true)]
  {
    var c, d := Child(20, FIRST, false), Child(10, FIRST, false);
    assert [c, d][..1] == [c] && [c][..0] == [];
    assert Persist([c]) == [Child(20, FIRST, true)];
  }

  /** The resumed pass runs child 10 first. */
  lemma SharedSecond(pa: PassArgs, e: Engine<int>)
    requires LowerBound(pa.from) == 0 && pa.to == 9 && pa.limit == 10
    requires e == BornTwice().(dyn := [Child(10, FIRST, true), Child(20, FIRST, true)])
    ensures var r := Pass(Twice(), Shared(), pa, e);
            r.halt == Running && r.eng.store == 1020
  {
    SharedLogs();
    var r0 := StartRun(e);
    FactoryActive(e, [Birth(20), Birth(10)], FIRST);
    FreshOne(FactoryItem(FIRST), e.processed);
    LogRun(Twice(), pa, r0, Shared(), [ChildLog(FIFTH)], [], Close(pa, r0, Shared()));
    var x, y := ChildItem(10, FIFTH), ChildItem(20, FIFTH);
    ChildActive(e, [Birth(20), Birth(10)], FIFTH);
    TwoChildren(Child(10, FIRST, true), Child(20, FIRST, true), ChildLog(FIFTH));
    FreshTwo(x, y, e.processed);
    var s := RunItem(Twice(), pa, r0, x);
    var t := RunItem(Twice(), pa, s, y);
    assert s.eng.store == 10 && t.eng.store == 1020 && t.halt == Running;
    TwoItems(Twice(), pa, r0, x, y, s);
    LogRun(Twice(), pa, r0, [ChildLog(FIFTH)], [], [x, y], Close(pa, t, [ChildLog(FIFTH)]));
  }

  /** The reference runs child 20 first. */
  lemma SharedReference()
    ensures Reference(Twice(), Shared(), 0, 0, 9).store == 2010
  {
    SharedLogs();
    var e := FreshEngine(0);
    FactoryActive(e, [Birth(20), Birth(10)], FIRST);
    FactoryStep();
    assert [FactoryItem(FIRST)][1..] == [];
    LogWalked(Twice(), e, Shared(), [ChildLog(FIFTH)], BornTwice());
    var x, y := ChildItem(20, FIFTH), ChildItem(10, FIFTH);
    ChildActive(BornTwice(), [Birth(20), Birth(10)], FIFTH);
    TwoChildren(Child(20, FIRST, false), Child(10, FIRST, false), ChildLog(FIFTH));
    assert [x, y][1..] == [y] && [y][1..] == [];
    var s := Step(Twice(), BornTwice(), x);
    var t := Step(Twice(), s, y);
    assert s.ok && t.ok && s.store == 20 && t.store == 2010;
    assert WalkItems(Twice(), t, []) == t;
    assert WalkItems(Twice(), s, [y]) == t;
    LogWalked(Twice(), BornTwice(), [ChildLog(FIFTH)], [], t);
  }

  /** Two children share an address.  Sorting them between passes changes the order in which they run. */
  lemma SharedAddress()
    ensures var one := Cycle(Twice(), 0, Shared(), Stored(None, []), Options(Some(0), 1), false);
            var two := Cycle(Twice(), 0, Shared(), one, Options(None, 10), false);
            && two.snapshot.Some? && two.snapshot.value.complete && two.snapshot.value.to == 9
            && two.snapshot.value.store == 1020
            && Reference(Twice(), Shared(), 0, 0, 9).store == 2010
  {
    var args, more := Options(Some(0), 1), Options(None, 10);
    var one := Cycle(Twice(), 0, Shared(), Stored(None, []), args, false);
    SharedFirst(PassArgs(Some(0), 9, 1, args.hashAt));
    assert StartEngine(0, None, []) == FreshEngine(0);
    Sorted();
    var e := BornTwice().(dyn := [Child(10, FIRST, true), Child(20, FIRST, true)]);
    assert StartEngine(0, one.snapshot, one.trace) == e;
    SharedSecond(PassArgs(Some(0), 9, 10, more.hashAt), e);
    SharedReference();
  }

  // ----- a child with a log before its creation -----

  const BEFORE := Pos(5, 0, 0)
  const BIRTH := Pos(5, 0, 1)
  const LATER := Pos(8, 0, 0)

  function Once(): Config<int> {
    Breeding([Birth(10)])
  }

  /** The child has a log in the block of its creation, before it; another factory log follows. */
  function TooEarly(): seq<RawLog> {
    [ChildLog(BEFORE), FactoryLog(BIRTH), FactoryLog(LATER)]
  }

  lemma EarlyLogs()
    ensures LogsIn(TooEarly(), 0, 9) == TooEarly() && Ordered(TooEarly())
  {
    var two, one := [FactoryLog(BIRTH), FactoryLog(LATER)], [FactoryLog(LATER)];
    assert TooEarly()[1..] == two && two[1..] == one && one[1..] == [];
    assert LogsIn(one, 0, 9) == one;
    assert LogsIn(two, 0, 9) == two;
  }

  function BornOnce(): Engine<int> {
    Engine(0, [Child(10, BIRTH, false)], [FactoryItem(BIRTH)], {IdOf(FactoryItem(BIRTH))}, true)
  }

  lemma OneBorn()
    ensures Step(Once(), FreshEngine(0), FactoryItem(BIRTH)) == BornOnce()
  {
    var d := Child(10, BIRTH, false);
    assert Instantiate(Once(), Birth(10), BIRTH) == Some(d) && [Birth(10)][1..] == [];
    assert [] + [d] == [d];
    assert AddSources(Once(), [d], [], BIRTH) == [d];
    assert AddSources(Once(), [], [Birth(10)], BIRTH) == [d];
    assert [] + [FactoryItem(BIRTH)] == [FactoryItem(BIRTH)];
    assert {} + {IdOf(FactoryItem(BIRTH))} == {IdOf(FactoryItem(BIRTH))};
  }

  /** A factory log later on asks for the same child again, which changes nothing. */
  lemma SecondBirth(e: Engine<int>)
    requires |e.dyn| == 1 && e.dyn[0].name == 10 && e.dyn[0].dynamic && e.dyn[0].address == 9
    ensures Clean(Once(), e.store, FactoryItem(LATER))
    ensures Step(Once(), e, FactoryItem(LATER)).store == e.store && Step(Once(), e, FactoryItem(LATER)).ok == e.ok
  {
  }

  lemma EarlyFirst(pa: PassArgs)
    requires LowerBound(pa.from) == 0 && pa.to == 9 && pa.limit == 1
    ensures var r := Pass(Once(), TooEarly(), pa, FreshEngine(0));
            r.halt == Limited && r.eng == BornOnce()
  {
    EarlyLogs();
    var two, last := [FactoryLog(BIRTH), FactoryLog(LATER)], [FactoryLog(LATER)];
    var r0 := StartRun(FreshEngine(0));
    ChildActive(r0.eng, [Birth(10)], BEFORE);
    LogRun(Once(), pa, r0, TooEarly(), two, [], r0);
    FactoryActive(r0.eng, [Birth(10)], BIRTH);
    FreshOne(FactoryItem(BIRTH), {});
    OneItem(Once(), pa, r0, FactoryItem(BIRTH));
    OneBorn();
    var mid := r0.(eng := BornOnce(), executed := 1, last := Some(5));
    assert RunItems(Once(), pa, r0, [FactoryItem(BIRTH)]) == mid;
    LogRun(Once(), pa, r0, two, last, [FactoryItem(BIRTH)], Close(pa, mid, two));
    EarlyStop(pa, Close(pa, mid, two));
  }

  lemma EarlyStop(pa: PassArgs, r: Run<int>)
    requires pa.limit == 1 && r.halt == Running && r.executed == 1 && r.last == Some(5) && r.eng == BornOnce()
    ensures var s := RunLogs(Once(), pa, r, [FactoryLog(LATER)]);
            s.halt == Limited && s.eng == BornOnce()
  {
    FactoryActive(r.eng, [Birth(10)], LATER);
    FreshOne(FactoryItem(LATER), r.eng.processed);
    OneItem(Once(), pa, r, FactoryItem(LATER));
    LogRun(Once(), pa, r, [FactoryLog(LATER)], [], [FactoryItem(LATER)], r.(halt := Limited));
  }

  /** After the snapshot, the child's earlier log is executed. */
  lemma EarlySecond(pa: PassArgs, e: Engine<int>)
    requires LowerBound(pa.from) == 0 && pa.to == 9 && pa.limit == 10
    requires e == BornOnce().(dyn := [Child(10, BIRTH, true)])
    ensures var r := Pass(Once(), TooEarly(), pa, e);
            r.halt == Running && r.eng.store == 10
  {
    EarlyLogs();
    var two, last := [FactoryLog(BIRTH), FactoryLog(LATER)], [FactoryLog(LATER)];
    var r0, x := StartRun(e), ChildItem(10, BEFORE);
    ChildActive(e, [Birth(10)], BEFORE);
    OneChild(Child(10, BIRTH, true), ChildLog(BEFORE));
    FreshOne(x, e.processed);
    var r1 := RunItem(Once(), pa, r0, x);
    OneItem(Once(), pa, r0, x);
    assert r1.halt == Running && r1.eng.store == 10 && r1.eng.dyn == e.dyn;
    assert IdOf(FactoryItem(BIRTH)) in r1.eng.processed;
    var c1 := Close(pa, r1, TooEarly());
    LogRun(Once(), pa, r0, TooEarly(), two, [x], c1);
    FactoryActive(c1.eng, [Birth(10)], BIRTH);
    FreshOne(FactoryItem(BIRTH), c1.eng.processed);
    var c2 := Close(pa, c1, two);
    LogRun(Once(), pa, c1, two, last, [], c2);
    EarlyLast(pa, c2);
  }

  lemma EarlyLast(pa: PassArgs, r: Run<int>)
    requires pa.limit == 10 && r.halt == Running && r.executed == 1 && r.eng.dyn == [Child(10, BIRTH, true)]
    requires IdOf(FactoryItem(LATER)) !in r.eng.processed
    ensures var s := RunLogs(Once(), pa, r, [FactoryLog(LATER)]);
            s.halt == Running && s.eng.store == r.eng.store
  {
    FactoryActive(r.eng, [Birth(10)], LATER);
    FreshOne(FactoryItem(LATER), r.eng.processed);
    SecondBirth(r.eng);
    OneItem(Once(), pa, r, FactoryItem(LATER));
    var s := RunItem(Once(), pa, r, FactoryItem(LATER));
    LogRun(Once(), pa, r, [FactoryLog(LATER)], [], [FactoryItem(LATER)], Close(pa, s, [FactoryLog(LATER)]));
  }

  /** The reference never runs it. */
  lemma EarlyReference()
    ensures Reference(Once(), TooEarly(), 0, 0, 9).store == 0
  {
    EarlyLogs();
    var two, last := [FactoryLog(BIRTH), FactoryLog(LATER)], [FactoryLog(LATER)];
    var e := FreshEngine(0);
    ChildActive(e, [Birth(10)], BEFORE);
    LogWalked(Once(), e, TooEarly(), two, e);
    FactoryActive(e, [Birth(10)], BIRTH);
    OneBorn();
    assert [FactoryItem(BIRTH)][1..] == [] && [FactoryItem(LATER)][1..] == [];
    LogWalked(Once(), e, two, last, BornOnce());
    FactoryActive(BornOnce(), [Birth(10)], LATER);
    SecondBirth(BornOnce());
    var f := Step(Once(), BornOnce(), FactoryItem(LATER));
    assert WalkItems(Once(), f, []) == f;
    LogWalked(Once(), BornOnce(), last, [], f);
  }

  /** A child has a log before the one that created it, in the same block.  A pass that stops later makes the
      next one run it. */
  lemma EarlierLog()
    ensures var one := Cycle(Once(), 0, TooEarly(), Stored(None, []), Options(Some(0), 1), false);
            var two := Cycle(Once(), 0, TooEarly(), one, Options(None, 10), false);
            && two.snapshot.Some? && two.snapshot.value.complete && two.snapshot.value.to == 9
            && two.snapshot.value.store == 10
            && Reference(Once(), TooEarly(), 0, 0, 9).store == 0
  {
    var args, more := Options(Some(0), 1), Options(None, 10);
    var one := Cycle(Once(), 0, TooEarly(), Stored(None, []), args, false);
    EarlyFirst(PassArgs(Some(0), 9, 1, args.hashAt));
    assert StartEngine(0, None, []) == FreshEngine(0);
    assert BornOnce().dyn[..0] == [];
    assert Persist(BornOnce().dyn) == [Child(10, BIRTH, true)];
    var e := BornOnce().(dyn := [Child(10, BIRTH, true)]);
    assert StartEngine(0, one.snapshot, one.trace) == e;
    EarlySecond(PassArgs(Some(0), 9, 10, more.hashAt), e);
    EarlyReference();
  }
}
