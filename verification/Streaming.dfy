/** The meaning of a pass, without any worklist: one ordered walk of the chain's logs.

    `Walk` is the reference: at each log, run the handler once for every source that is active there,
    in activation order.  `WalkP` is the same walk skipping identities already processed.  `RunLogs`
    adds what a real pass has on top: the soft limit, validation failures, traps, and the entries it
    pushes on the history at the end of every block in which it executed something. */
module Streaming {
  import opened ChainModel

  datatype Create = Create(name: Option<nat>, params: seq<nat>, context: nat)

  /** What running a handler on a store gives: a trap, or a new store, the data sources it asked for
      and the number of validation errors among its `store.set` calls. */
  datatype Outcome<+S> = Trap | Ran(store: S, creates: seq<Create>, errors: nat)

  /** A deployment: static sources, the topics of each template, and a deterministic handler. */
  datatype Config<!S> = Config(statics: seq<Source>, templates: map<nat, set<nat>>,
                               handler: (S, Item) -> Outcome<S>)

  /** The indexer's state: entity store, dynamic sources in activation order, the items executed so
      far, the identities processed, and whether the next item is known to fail. */
  datatype Engine<+S> = Engine(store: S, dyn: seq<Source>, trace: seq<Item>, processed: set<Id>, ok: bool)

  predicate Clean<S>(cfg: Config<S>, store: S, x: Item) {
    var o := cfg.handler(store, x);
    o.Ran? && o.errors == 0
  }

  function Instantiate<S>(cfg: Config<S>, c: Create, at: Pos): Option<Source> {
    if c.name.None? || c.name.value !in cfg.templates || c.params == [] then None
    else Some(Source(c.name.value, true, c.params[0], at.block, cfg.templates[c.name.value],
                     c.context, at, false))
  }

  /** A requested source is added unless its template is unknown or its name and address are taken. */
  function AddSources<S>(cfg: Config<S>, dyn: seq<Source>, creates: seq<Create>, at: Pos): (r: seq<Source>)
    ensures |dyn| <= |r| && r[..|dyn|] == dyn
    ensures forall k :: |dyn| <= k < |r| ==>
              r[k].dynamic && !r[k].resumed && r[k].born == at && r[k].start == at.block
    decreases creates
  {
    if creates == [] then dyn
    else
      var s := Instantiate(cfg, creates[0], at);
      if s.None? || exists d :: d in dyn && SameKey(d, s.value) then AddSources(cfg, dyn, creates[1..], at)
      else AddSources(cfg, dyn + [s.value], creates[1..], at)
  }

  /** The create asks for a source of this template at this address. */
  predicate AsksFor(c: Create, name: nat, address: nat) {
    c.name == Some(name) && c.params != [] && c.params[0] == address
  }

  /** What a created source is made of: the first create that asks for its template and address. */
  ghost predicate MadeFrom<S>(cfg: Config<S>, s: Source, creates: seq<Create>, at: Pos) {
    exists j :: 0 <= j < |creates| && MadeOf(cfg, s, creates, j, at)
  }

  predicate MadeOf<S>(cfg: Config<S>, s: Source, creates: seq<Create>, j: nat, at: Pos)
    requires j < |creates|
  {
    && AsksFor(creates[j], s.name, s.address) && s.context == creates[j].context
    && (forall i :: 0 <= i < j ==> !AsksFor(creates[i], s.name, s.address))
    && s.name in cfg.templates && s.topics == cfg.templates[s.name]
    && s.dynamic && s.start == at.block && s.born == at && !s.resumed
  }

  ghost predicate HasSource(sources: seq<Source>, name: nat, address: nat) {
    exists d :: d in sources && d.dynamic && d.name == name && d.address == address
  }

  lemma MadeLater<S>(cfg: Config<S>, s: Source, creates: seq<Create>, at: Pos)
    requires creates != [] && MadeFrom(cfg, s, creates[1..], at) && !AsksFor(creates[0], s.name, s.address)
    ensures MadeFrom(cfg, s, creates, at)
  {
    var j :| 0 <= j < |creates[1..]| && MadeOf(cfg, s, creates[1..], j, at);
    forall i | 0 <= i < j + 1
      ensures !AsksFor(creates[i], s.name, s.address)
    {
      if i > 0 { assert creates[i] == creates[1..][i - 1]; }
    }
    assert MadeOf(cfg, s, creates, j + 1, at);
  }

  /** The sources that a handler run adds: each has the topics of its template and the context and address of the
      first create that asks for it, and is new; and every create of a known template finds its source. */
  lemma {:induction false} CreatedSources<S>(cfg: Config<S>, dyn: seq<Source>, creates: seq<Create>, at: Pos)
    requires forall d :: d in dyn ==> d.dynamic
    ensures var r := AddSources(cfg, dyn, creates, at);
            && (forall k :: |dyn| <= k < |r| ==>
                  MadeFrom(cfg, r[k], creates, at) && !HasSource(dyn, r[k].name, r[k].address))
            && (forall c, n, a :: c in creates && AsksFor(c, n, a) && n in cfg.templates ==> HasSource(r, n, a))
    decreases creates
  {
    if creates != [] {
      var c, rest := creates[0], creates[1..];
      var s := Instantiate(cfg, c, at);
      var more := if s.Some? && !HasSource(dyn, s.value.name, s.value.address) then dyn + [s.value] else dyn;
      if s.Some? { SameHas(dyn, s.value); }
      CreatedSources(cfg, more, rest, at);
      var r := AddSources(cfg, dyn, creates, at);
      assert r == AddSources(cfg, more, rest, at);
      forall k | |dyn| <= k < |r|
        ensures MadeFrom(cfg, r[k], creates, at) && !HasSource(dyn, r[k].name, r[k].address)
      {
        AddedSource(cfg, dyn, more, creates, at, r, k);
      }
      forall n, a | AsksFor(c, n, a) && n in cfg.templates
        ensures HasSource(r, n, a)
      {
        AskedHas(cfg, dyn, more, c, at, n, a);
        HasMore(more, r, n, a);
      }
      assert forall x :: x in creates ==> x == c || x in rest;
    }
  }

  lemma SameHas(dyn: seq<Source>, s: Source)
    requires s.dynamic
    ensures HasSource(dyn, s.name, s.address) <==> exists d :: d in dyn && SameKey(d, s)
  {
    if d :| d in dyn && SameKey(d, s) { assert HasSource(dyn, s.name, s.address); }
    if HasSource(dyn, s.name, s.address) {
      var d :| d in dyn && d.dynamic && d.name == s.name && d.address == s.address;
      assert SameKey(d, s);
    }
  }

  lemma AddedSource<S>(cfg: Config<S>, dyn: seq<Source>, more: seq<Source>, creates: seq<Create>, at: Pos,
                       r: seq<Source>, k: nat)
    requires creates != [] && |dyn| <= k < |r| && |more| <= |r| && r[..|more|] == more
    requires var s := Instantiate(cfg, creates[0], at);
             more == if s.Some? && !HasSource(dyn, s.value.name, s.value.address) then dyn + [s.value] else dyn
    requires |more| <= k ==>
               MadeFrom(cfg, r[k], creates[1..], at) && !HasSource(more, r[k].name, r[k].address)
    ensures MadeFrom(cfg, r[k], creates, at) && !HasSource(dyn, r[k].name, r[k].address)
  {
    var c, s := creates[0], Instantiate(cfg, creates[0], at);
    if k < |more| {
      assert r[k] == more[k] == s.value;
      assert MadeOf(cfg, r[k], creates, 0, at);
    } else {
      HasMore(dyn, more, r[k].name, r[k].address);
      AskedHas(cfg, dyn, more, c, at, r[k].name, r[k].address);
      MadeLater(cfg, r[k], creates, at);
    }
  }

  lemma HasMore(dyn: seq<Source>, more: seq<Source>, name: nat, address: nat)
    requires dyn <= more
    ensures HasSource(dyn, name, address) ==> HasSource(more, name, address)
  {
    forall d | d in dyn ensures d in more { }
  }

  lemma AskedHas<S>(cfg: Config<S>, dyn: seq<Source>, more: seq<Source>, c: Create, at: Pos, name: nat, address: nat)
    requires var s := Instantiate(cfg, c, at);
             more == if s.Some? && !HasSource(dyn, s.value.name, s.value.address) then dyn + [s.value] else dyn
    ensures AsksFor(c, name, address) && name in cfg.templates ==> HasSource(more, name, address)
  {
    var s := Instantiate(cfg, c, at);
    if s.Some? && more == dyn + [s.value] { assert s.value in more; }
  }

  function Step<S>(cfg: Config<S>, e: Engine<S>, x: Item): Engine<S> {
    if Clean(cfg, e.store, x) then
      var o := cfg.handler(e.store, x);
      Engine(o.store, AddSources(cfg, e.dyn, o.creates, x.log.pos), e.trace + [x],
             e.processed + {IdOf(x)}, e.ok)
    else e.(ok := false)
  }

  function WalkItems<S>(cfg: Config<S>, e: Engine<S>, items: seq<Item>): Engine<S>
    decreases items
  {
    if !e.ok || items == [] then e
    else WalkItems(cfg, Step(cfg, e, items[0]), items[1..])
  }

  function Active<S>(cfg: Config<S>, e: Engine<S>, l: RawLog): seq<Item> {
    ItemsAt(cfg.statics + e.dyn, l)
  }

  /** The reference: an ordered walk that never looks at what was processed before. */
  function Walk<S>(cfg: Config<S>, e: Engine<S>, logs: seq<RawLog>): Engine<S>
    decreases logs
  {
    if !e.ok || logs == [] then e
    else Walk(cfg, WalkItems(cfg, e, Active(cfg, e, logs[0])), logs[1..])
  }

  function Fresh(items: seq<Item>, processed: set<Id>): (r: seq<Item>)
    decreases items
  {
    if items == [] then []
    else (if IdOf(items[0]) in processed then [] else [items[0]]) + Fresh(items[1..], processed)
  }

  function FreshAt<S>(cfg: Config<S>, e: Engine<S>, l: RawLog): seq<Item> {
    Fresh(Active(cfg, e, l), e.processed)
  }

  /** The walk a resumed pass has left: like `Walk`, skipping processed identities. */
  function WalkP<S>(cfg: Config<S>, e: Engine<S>, logs: seq<RawLog>): Engine<S>
    decreases logs
  {
    if !e.ok || logs == [] then e
    else WalkP(cfg, WalkItems(cfg, e, FreshAt(cfg, e, logs[0])), logs[1..])
  }

  // ----- one pass -----

  datatype Halt = Running | Limited | Invalid | Trapped

  /** A retained state: the entities and sources after block `to`. */
  datatype Entry<+S> = Entry(from: Option<nat>, to: nat, hash: Option<nat>, complete: bool,
                             store: S, sources: seq<Source>)

  /** `limit` is the pass's soft limit; `from` its start block; `hashAt` what the RPC knows of blocks. */
  datatype PassArgs = PassArgs(from: Option<nat>, to: nat, limit: nat, hashAt: nat -> Option<nat>)

  datatype Run<+S> = Run(eng: Engine<S>, executed: nat, last: Option<nat>, history: seq<Entry<S>>, halt: Halt)

  function RunItem<S>(cfg: Config<S>, args: PassArgs, r: Run<S>, x: Item): Run<S> {
    if args.limit == 0 || (r.executed >= args.limit && r.last != Some(x.log.pos.block)) then
      r.(halt := Limited)
    else if cfg.handler(r.eng.store, x).Trap? then r.(halt := Trapped)
    else if !Clean(cfg, r.eng.store, x) then r.(halt := Invalid, executed := r.executed + 1)
    else r.(eng := Step(cfg, r.eng, x), executed := r.executed + 1, last := Some(x.log.pos.block))
  }

  function RunItems<S>(cfg: Config<S>, args: PassArgs, r: Run<S>, items: seq<Item>): Run<S>
    decreases items
  {
    if r.halt != Running || items == [] then r
    else RunItems(cfg, args, RunItem(cfg, args, r, items[0]), items[1..])
  }

  lemma {:induction false} ItemsKeepHistory<S>(cfg: Config<S>, args: PassArgs, r: Run<S>, items: seq<Item>)
    ensures RunItems(cfg, args, r, items).history == r.history
    decreases items
  {
    if r.halt == Running && items != [] {
      ItemsKeepHistory(cfg, args, RunItem(cfg, args, r, items[0]), items[1..]);
    }
  }

  predicate EndsBlock(logs: seq<RawLog>)
    requires logs != []
  {
    |logs| == 1 || logs[1].pos.block != logs[0].pos.block
  }

  function BlockEntry<S>(args: PassArgs, e: Engine<S>, block: nat): Entry<S> {
    Entry(args.from, block, args.hashAt(block), false, e.store, Persist(e.dyn))
  }

  /** After the last log of a block in which something was executed, the state is recorded. */
  function Close<S>(args: PassArgs, r: Run<S>, logs: seq<RawLog>): Run<S>
    requires logs != []
  {
    if r.halt == Running && EndsBlock(logs) && r.last == Some(logs[0].pos.block) then
      r.(history := r.history + [BlockEntry(args, r.eng, logs[0].pos.block)])
    else r
  }

  function RunLogs<S>(cfg: Config<S>, args: PassArgs, r: Run<S>, logs: seq<RawLog>): Run<S>
    decreases logs
  {
    if r.halt != Running || logs == [] then r
    else RunLogs(cfg, args,
                 Close(args, RunItems(cfg, args, r, FreshAt(cfg, r.eng, logs[0])), logs), logs[1..])
  }

  // ----- what the snapshot keeps of dynamic sources -----

  predicate SortsBefore(a: Source, b: Source) {
    a.name < b.name
    || (a.name == b.name && (a.address < b.address || (a.address == b.address && a.start < b.start)))
  }

  function Insert(s: Source, sorted: seq<Source>): seq<Source>
    decreases sorted
  {
    if sorted == [] || SortsBefore(s, sorted[0]) then [s] + sorted
    else [sorted[0]] + Insert(s, sorted[1..])
  }

  /** Snapshots keep dynamic sources sorted by name, address and creation block, and only that block
      of their creation. */
  function Persist(dyn: seq<Source>): (r: seq<Source>)
    decreases dyn
  {
    if dyn == [] then []
    else Insert(dyn[|dyn| - 1].(resumed := true), Persist(dyn[..|dyn| - 1]))
  }

  // ----- well-formed states -----

  ghost predicate WfSources(statics: seq<Source>, dyn: seq<Source>) {
    && (forall s :: s in statics ==> !s.dynamic && s.resumed)
    && (forall d :: d in dyn ==> d.dynamic)
    && DistinctKeys(statics)
    && DistinctKeys(dyn)
  }

  ghost predicate Wf<S>(cfg: Config<S>, e: Engine<S>) {
    WfSources(cfg.statics, e.dyn)
  }

  lemma WfConcat(statics: seq<Source>, dyn: seq<Source>)
    requires WfSources(statics, dyn)
    ensures DistinctKeys(statics + dyn)
  {
    forall i, j | 0 <= i < j < |statics + dyn|
      ensures !SameKey((statics + dyn)[i], (statics + dyn)[j])
    {
      if i < |statics| <= j {
        assert statics[i] in statics && dyn[j - |statics|] in dyn;
      }
    }
  }

  lemma {:induction false} AddSourcesWf<S>(cfg: Config<S>, dyn: seq<Source>, creates: seq<Create>, at: Pos)
    requires WfSources(cfg.statics, dyn)
    ensures WfSources(cfg.statics, AddSources(cfg, dyn, creates, at))
    decreases creates
  {
    if creates != [] {
      var s := Instantiate(cfg, creates[0], at);
      if s.None? || exists d :: d in dyn && SameKey(d, s.value) {
        AddSourcesWf(cfg, dyn, creates[1..], at);
      } else {
        forall i | 0 <= i < |dyn|
          ensures !SameKey(dyn[i], s.value)
        {
          assert dyn[i] in dyn;
        }
        AddSourcesWf(cfg, dyn + [s.value], creates[1..], at);
      }
    }
  }

  lemma StepWf<S>(cfg: Config<S>, e: Engine<S>, x: Item)
    requires Wf(cfg, e)
    ensures Wf(cfg, Step(cfg, e, x))
  {
    if Clean(cfg, e.store, x) {
      AddSourcesWf(cfg, e.dyn, cfg.handler(e.store, x).creates, x.log.pos);
    }
  }

  lemma {:induction false} WalkItemsWf<S>(cfg: Config<S>, e: Engine<S>, items: seq<Item>)
    requires Wf(cfg, e)
    ensures Wf(cfg, WalkItems(cfg, e, items))
    decreases items
  {
    if e.ok && items != [] {
      StepWf(cfg, e, items[0]);
      WalkItemsWf(cfg, Step(cfg, e, items[0]), items[1..]);
    }
  }

  // ----- Fresh -----

  lemma {:induction false} FreshMember(items: seq<Item>, processed: set<Id>, x: Item)
    ensures x in Fresh(items, processed) <==> x in items && IdOf(x) !in processed
    decreases items
  {
    if items != [] {
      FreshMember(items[1..], processed, x);
    }
  }

  lemma {:induction false} FreshNone(items: seq<Item>, processed: set<Id>)
    requires forall x :: x in items ==> IdOf(x) in processed
    ensures Fresh(items, processed) == []
    decreases items
  {
    if items != [] {
      FreshNone(items[1..], processed);
    }
  }

  lemma {:induction false} FreshAll(items: seq<Item>, processed: set<Id>)
    requires forall x :: x in items ==> IdOf(x) !in processed
    ensures Fresh(items, processed) == items
    decreases items
  {
    if items != [] {
      FreshAll(items[1..], processed);
    }
  }

  lemma {:induction false} FreshConcat(a: seq<Item>, b: seq<Item>, processed: set<Id>)
    ensures Fresh(a + b, processed) == Fresh(a, processed) + Fresh(b, processed)
    decreases a
  {
    if a == [] {
      assert a + b == b;
    } else {
      assert (a + b)[1..] == a[1..] + b;
      FreshConcat(a[1..], b, processed);
    }
  }

  /** Processing the first fresh item of a log leaves exactly the others fresh. */
  lemma {:induction false} FreshDrop(items: seq<Item>, processed: set<Id>)
    requires DistinctIds(items)
    requires Fresh(items, processed) != []
    ensures Fresh(items, processed + {IdOf(Fresh(items, processed)[0])}) == Fresh(items, processed)[1..]
    decreases items
  {
    var x := Fresh(items, processed)[0];
    if IdOf(items[0]) in processed {
      FreshDrop(items[1..], processed);
    } else {
      forall y | y in items[1..]
        ensures IdOf(y) != IdOf(x)
      {
        var k :| 0 <= k < |items[1..]| && items[1..][k] == y;
        assert IdOf(items[0]) != IdOf(items[k + 1]);
      }
      FreshSame(items[1..], processed, processed + {IdOf(x)});
    }
  }

  lemma {:induction false} FreshSame(items: seq<Item>, p: set<Id>, q: set<Id>)
    requires forall x :: x in items ==> (IdOf(x) in p <==> IdOf(x) in q)
    ensures Fresh(items, p) == Fresh(items, q)
    decreases items
  {
    if items != [] {
      FreshSame(items[1..], p, q);
    }
  }

  /** A source created while a log is handled does not see that log, nor any earlier one. */
  lemma ActiveAfterAdd<S>(cfg: Config<S>, dyn: seq<Source>, creates: seq<Create>, at: Pos, l: RawLog)
    requires !Before(at, l.pos)
    ensures ItemsAt(cfg.statics + AddSources(cfg, dyn, creates, at), l) == ItemsAt(cfg.statics + dyn, l)
  {
    var all := AddSources(cfg, dyn, creates, at);
    var added := all[|dyn|..];
    assert cfg.statics + all == (cfg.statics + dyn) + added;
    ItemsAtConcat(cfg.statics + dyn, added, l);
    ItemsAtNone(added, l);
  }

  /** The step that the worklist and the walk share: after the first fresh item of a log has been
      executed, the fresh items of that log are the remaining ones. */
  lemma FreshAfterStep<S>(cfg: Config<S>, e: Engine<S>, l: RawLog)
    requires Wf(cfg, e)
    requires FreshAt(cfg, e, l) != []
    requires Clean(cfg, e.store, FreshAt(cfg, e, l)[0])
    ensures FreshAt(cfg, Step(cfg, e, FreshAt(cfg, e, l)[0]), l) == FreshAt(cfg, e, l)[1..]
  {
    var x := FreshAt(cfg, e, l)[0];
    assert x in FreshAt(cfg, e, l);
    FreshMember(Active(cfg, e, l), e.processed, x);
    ItemsAtMember(cfg.statics + e.dyn, l, x);
    ActiveAfterAdd(cfg, e.dyn, cfg.handler(e.store, x).creates, x.log.pos, l);
    WfConcat(cfg.statics, e.dyn);
    ItemsAtDistinct(cfg.statics + e.dyn, l);
    FreshDrop(Active(cfg, e, l), e.processed);
  }
}
