/** What the reference walk executes, said of sources and logs: every item is a log that a source is to see, with that
    source's context; every such log is executed; and every created source comes from a create of an executed item. */
module Provenance {
  import opened ChainModel
  import opened Streaming
  import opened Resume

  /** The source is to see the log: its own address and topics, from its start block on, and after the log whose handler
      created it. */
  predicate Sees(s: Source, l: RawLog) {
    && l.address == s.address && l.topic in s.topics && s.start <= l.pos.block
    && (s.resumed || Before(s.born, l.pos))
  }

  /** The item is this source's item of its log. */
  predicate Serves(s: Source, x: Item) {
    x.source == s.name && x.dynamic == s.dynamic && x.context == s.context && Sees(s, x.log)
  }

  ghost predicate Served(sources: seq<Source>, x: Item) {
    exists s :: s in sources && Serves(s, x)
  }

  /** What the handlers make of the items, one after the other. */
  function Folded<S>(cfg: Config<S>, initial: S, trace: seq<Item>): S {
    if trace == [] then initial
    else
      var before, last := Folded(cfg, initial, trace[..|trace| - 1]), trace[|trace| - 1];
      if cfg.handler(before, last).Ran? then cfg.handler(before, last).store else before
  }

  /** The source was created by the handler of the item at this place, run on what the items before it made. */
  ghost predicate CreatedAt<S>(cfg: Config<S>, initial: S, trace: seq<Item>, d: Source, k: nat)
    requires k < |trace|
  {
    var o := cfg.handler(Folded(cfg, initial, trace[..k]), trace[k]);
    o.Ran? && o.errors == 0 && MadeFrom(cfg, d, o.creates, trace[k].log.pos)
  }

  ghost predicate Created<S>(cfg: Config<S>, initial: S, trace: seq<Item>, d: Source) {
    exists k :: 0 <= k < |trace| && CreatedAt(cfg, initial, trace, d, k)
  }

  ghost predicate Explained<S>(cfg: Config<S>, initial: S, e: Engine<S>) {
    && e.store == Folded(cfg, initial, e.trace)
    && (forall x :: x in e.trace ==> Served(cfg.statics + e.dyn, x))
    && (forall d :: d in e.dyn ==> Created(cfg, initial, e.trace, d))
  }

  /** The item's log has been executed for the source. */
  ghost predicate Done(trace: seq<Item>, s: Source, l: RawLog) {
    exists x :: x in trace && x.log == l && Serves(s, x)
  }

  // ----- one item -----

  lemma ServedMore(statics: seq<Source>, dyn: seq<Source>, more: seq<Source>, x: Item)
    requires Served(statics + dyn, x) && dyn <= more
    ensures Served(statics + more, x)
  {
    var s :| s in statics + dyn && Serves(s, x);
    forall d | d in dyn ensures d in more { }
    assert s in statics + more;
  }

  lemma CreatedMore<S>(cfg: Config<S>, initial: S, trace: seq<Item>, x: Item, d: Source)
    requires Created(cfg, initial, trace, d)
    ensures Created(cfg, initial, trace + [x], d)
  {
    var k :| 0 <= k < |trace| && CreatedAt(cfg, initial, trace, d, k);
    assert (trace + [x])[..k] == trace[..k] && (trace + [x])[k] == trace[k];
    assert CreatedAt(cfg, initial, trace + [x], d, k);
  }

  lemma CreatedNow<S>(cfg: Config<S>, initial: S, trace: seq<Item>, x: Item, store: S, d: Source)
    requires store == Folded(cfg, initial, trace) && Clean(cfg, store, x)
    requires MadeFrom(cfg, d, cfg.handler(store, x).creates, x.log.pos)
    ensures Created(cfg, initial, trace + [x], d)
  {
    assert (trace + [x])[..|trace|] == trace;
    assert CreatedAt(cfg, initial, trace + [x], d, |trace|);
  }

  lemma AddedMade<S>(cfg: Config<S>, dyn: seq<Source>, creates: seq<Create>, at: Pos, k: nat)
    requires (forall d :: d in dyn ==> d.dynamic) && |dyn| <= k < |AddSources(cfg, dyn, creates, at)|
    ensures MadeFrom(cfg, AddSources(cfg, dyn, creates, at)[k], creates, at)
  {
    CreatedSources(cfg, dyn, creates, at);
  }

  lemma StepExplained<S>(cfg: Config<S>, initial: S, e: Engine<S>, x: Item)
    requires Wf(cfg, e) && Explained(cfg, initial, e) && Served(cfg.statics + e.dyn, x)
    ensures Explained(cfg, initial, Step(cfg, e, x))
  {
    if Clean(cfg, e.store, x) {
      var f := Step(cfg, e, x);
      CreatedSources(cfg, e.dyn, cfg.handler(e.store, x).creates, x.log.pos);
      assert f.trace[..|e.trace|] == e.trace;
      forall y | y in f.trace ensures Served(cfg.statics + f.dyn, y) { ServedMore(cfg.statics, e.dyn, f.dyn, y); }
      forall d | d in f.dyn
        ensures Created(cfg, initial, f.trace, d)
      {
        var k :| 0 <= k < |f.dyn| && f.dyn[k] == d;
        if k < |e.dyn| {
          assert d == e.dyn[k];
          CreatedMore(cfg, initial, e.trace, x, d);
        } else {
          AddedMade(cfg, e.dyn, cfg.handler(e.store, x).creates, x.log.pos, k);
          CreatedNow(cfg, initial, e.trace, x, e.store, d);
        }
      }
    }
  }

  // ----- items of a log -----

  lemma ActiveServed(sources: seq<Source>, l: RawLog, x: Item)
    ensures x in ItemsAt(sources, l) <==> x.log == l && Served(sources, x)
  {
    ItemsAtMember(sources, l, x);
    if x in ItemsAt(sources, l) {
      var s :| s in sources && Matches(s, l) && x == ItemOf(s, l);
      assert Serves(s, x);
    }
    if x.log == l && Served(sources, x) {
      var s :| s in sources && Serves(s, x);
      assert Matches(s, l) && x == ItemOf(s, l);
    }
  }

  lemma {:induction false} ItemsExplained<S>(cfg: Config<S>, initial: S, e: Engine<S>, items: seq<Item>)
    requires Wf(cfg, e) && Explained(cfg, initial, e) && forall x :: x in items ==> Served(cfg.statics + e.dyn, x)
    ensures Explained(cfg, initial, WalkItems(cfg, e, items))
    decreases items
  {
    if e.ok && items != [] {
      var f := Step(cfg, e, items[0]);
      assert items[0] in items;
      StepExplained(cfg, initial, e, items[0]);
      StepWf(cfg, e, items[0]);
      forall x | x in items[1..] ensures Served(cfg.statics + f.dyn, x) { ServedMore(cfg.statics, e.dyn, f.dyn, x); }
      ItemsExplained(cfg, initial, f, items[1..]);
    }
  }

  lemma {:induction false} WalkExplained<S>(cfg: Config<S>, initial: S, e: Engine<S>, logs: seq<RawLog>)
    requires Wf(cfg, e) && Explained(cfg, initial, e)
    ensures Explained(cfg, initial, Walk(cfg, e, logs))
    decreases logs
  {
    if e.ok && logs != [] {
      var items := Active(cfg, e, logs[0]);
      forall x | x in items ensures Served(cfg.statics + e.dyn, x) { ActiveServed(cfg.statics + e.dyn, logs[0], x); }
      ItemsExplained(cfg, initial, e, items);
      WalkItemsWf(cfg, e, items);
      WalkExplained(cfg, initial, WalkItems(cfg, e, items), logs[1..]);
    }
  }

  /** A walk from nothing holds what the handlers make of the items it executed; every item is a log that some source is
      to see, with that source's context; and every created source is made from the first create, of an executed item's
      handler, that asks for it. */
  lemma TraceExplained<S>(cfg: Config<S>, initial: S, logs: seq<RawLog>)
    requires WfSources(cfg.statics, [])
    ensures Explained(cfg, initial, Walk(cfg, Engine(initial, [], [], {}, true), logs))
  {
    WalkExplained(cfg, initial, Engine(initial, [], [], {}, true), logs);
  }

  // ----- nothing is left out -----

  lemma {:induction false} ItemsDone<S>(cfg: Config<S>, e: Engine<S>, items: seq<Item>)
    requires WalkItems(cfg, e, items).ok
    ensures e.ok && WalkItems(cfg, e, items).trace == e.trace + items
    decreases items
  {
    if items == [] {
      assert e.trace + [] == e.trace;
    } else if e.ok {
      ItemsDone(cfg, Step(cfg, e, items[0]), items[1..]);
      assert e.trace + items == (e.trace + [items[0]]) + items[1..];
    }
  }

  lemma {:induction false} WalkGrows<S>(cfg: Config<S>, e: Engine<S>, logs: seq<RawLog>)
    ensures e.trace <= Walk(cfg, e, logs).trace && (Walk(cfg, e, logs).ok ==> e.ok)
    ensures e.dyn <= Walk(cfg, e, logs).dyn
    decreases logs
  {
    if e.ok && logs != [] {
      var items := Active(cfg, e, logs[0]);
      ActiveAtLog(cfg, e, logs[0]);
      GrewItems(cfg, e, items, logs[0].pos);
      var f := WalkItems(cfg, e, items);
      assert f.trace[..|e.trace|] == e.trace && f.dyn[..|e.dyn|] == e.dyn;
      WalkGrows(cfg, f, logs[1..]);
    }
  }

  lemma DoneMore(trace: seq<Item>, more: seq<Item>, s: Source, l: RawLog)
    requires Done(trace, s, l) && trace <= more
    ensures Done(more, s, l)
  {
    forall x | x in trace ensures x in more { }
  }

  lemma NewOne(dyn: seq<Source>, more: seq<Source>, s: Source)
    requires dyn <= more && s in more && s !in dyn
    ensures exists k :: |dyn| <= k < |more| && more[k] == s
  {
    var k :| 0 <= k < |more| && more[k] == s;
  }

  /** A source that a walk adds at this log or later does not see it. */
  lemma {:induction false} LateSource<S>(cfg: Config<S>, e: Engine<S>, logs: seq<RawLog>, s: Source, p: Pos)
    requires s in Walk(cfg, e, logs).dyn && s !in e.dyn && forall l :: l in logs ==> !Before(l.pos, p)
    ensures !s.resumed && !Before(s.born, p)
    decreases logs
  {
    if e.ok && logs != [] {
      var items := Active(cfg, e, logs[0]);
      var f := WalkItems(cfg, e, items);
      ActiveAtLog(cfg, e, logs[0]);
      assert logs[0] in logs;
      GrewItems(cfg, e, items, p);
      if s in f.dyn {
        NewOne(e.dyn, f.dyn, s);
      } else {
        LateSource(cfg, f, logs[1..], s, p);
      }
    }
  }

  lemma FirstDone<S>(cfg: Config<S>, e: Engine<S>, l: RawLog, s: Source)
    requires WalkItems(cfg, e, Active(cfg, e, l)).ok && s in cfg.statics + e.dyn && Sees(s, l)
    ensures Done(WalkItems(cfg, e, Active(cfg, e, l)).trace, s, l)
  {
    var x := Item(s.name, s.dynamic, s.context, l);
    assert Serves(s, x);
    ActiveServed(cfg.statics + e.dyn, l, x);
    ItemsDone(cfg, e, Active(cfg, e, l));
    assert x in WalkItems(cfg, e, Active(cfg, e, l)).trace;
  }

  /** Every log that a source is to see, one the walk began with or one it created, has been executed for it, if no
      handler failed. */
  lemma {:induction false} WalkComplete<S>(cfg: Config<S>, e: Engine<S>, logs: seq<RawLog>, s: Source, l: RawLog)
    requires Ordered(logs) && Walk(cfg, e, logs).ok && l in logs
    requires s in cfg.statics + Walk(cfg, e, logs).dyn && Sees(s, l)
    ensures Done(Walk(cfg, e, logs).trace, s, l)
    decreases logs
  {
    WalkGrows(cfg, e, logs);
    var items := Active(cfg, e, logs[0]);
    var f := WalkItems(cfg, e, items);
    WalkGrows(cfg, f, logs[1..]);
    if l == logs[0] {
      forall m | m in logs
        ensures !Before(m.pos, l.pos)
      {
        var k :| 0 <= k < |logs| && logs[k] == m;
        assert k > 0 ==> Before(logs[0].pos, logs[k].pos);
      }
      if s !in cfg.statics + e.dyn { LateSource(cfg, e, logs, s, l.pos); }
      FirstDone(cfg, e, l, s);
      DoneMore(f.trace, Walk(cfg, e, logs).trace, s, l);
    } else {
      WalkComplete(cfg, f, logs[1..], s, l);
    }
  }
}
