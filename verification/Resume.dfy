/** How walks compose: a stopped pass leaves the walk it was making exactly continuable, and a walk
    does not notice that its dynamic sources went through a snapshot. */
module Resume {
  import opened ChainModel
  import opened Streaming
  import opened Replay

  // ----- growth: what any run does to the state -----

  /** `f` comes from `e` by executing items at or after position `p`. */
  ghost predicate Grew<S>(e: Engine<S>, f: Engine<S>, p: Pos) {
    && e.processed <= f.processed
    && |e.dyn| <= |f.dyn| && f.dyn[..|e.dyn|] == e.dyn
    && (forall k :: |e.dyn| <= k < |f.dyn| ==> !f.dyn[k].resumed && !Before(f.dyn[k].born, p))
    && |e.trace| <= |f.trace| && f.trace[..|e.trace|] == e.trace
    && (forall id :: id in f.processed ==> id in e.processed || !Before(id.pos, p))
    && (forall k :: |e.trace| <= k < |f.trace| ==> !Before(f.trace[k].log.pos, p))
  }

  lemma GrewTrans<S>(e: Engine<S>, f: Engine<S>, g: Engine<S>, p: Pos)
    requires Grew(e, f, p) && Grew(f, g, p)
    ensures Grew(e, g, p)
  {
    forall k | |e.dyn| <= k < |g.dyn|
      ensures !g.dyn[k].resumed && !Before(g.dyn[k].born, p)
    {
      if k < |f.dyn| { assert g.dyn[k] == g.dyn[..|f.dyn|][k]; }
    }
    assert e.dyn == f.dyn[..|e.dyn|] == g.dyn[..|f.dyn|][..|e.dyn|] == g.dyn[..|e.dyn|];
    assert e.trace == f.trace[..|e.trace|] == g.trace[..|f.trace|][..|e.trace|] == g.trace[..|e.trace|];
    forall k | |e.trace| <= k < |g.trace|
      ensures !Before(g.trace[k].log.pos, p)
    {
      if k < |f.trace| { assert g.trace[k] == g.trace[..|f.trace|][k]; }
    }
  }

  lemma GrewStep<S>(cfg: Config<S>, e: Engine<S>, x: Item, p: Pos)
    requires !Before(x.log.pos, p)
    ensures Grew(e, Step(cfg, e, x), p)
  {
  }

  lemma GrewEarlier<S>(e: Engine<S>, f: Engine<S>, p: Pos, q: Pos)
    requires Grew(e, f, q) && Before(p, q)
    ensures Grew(e, f, p)
  {
  }

  lemma {:induction false} GrewItems<S>(cfg: Config<S>, e: Engine<S>, items: seq<Item>, p: Pos)
    requires forall x :: x in items ==> !Before(x.log.pos, p)
    ensures Grew(e, WalkItems(cfg, e, items), p)
    decreases items
  {
    if e.ok && items != [] {
      GrewStep(cfg, e, items[0], p);
      GrewItems(cfg, Step(cfg, e, items[0]), items[1..], p);
      GrewTrans(e, Step(cfg, e, items[0]), WalkItems(cfg, e, items), p);
    }
  }

  lemma ActiveAtLog<S>(cfg: Config<S>, e: Engine<S>, l: RawLog)
    ensures forall x :: x in Active(cfg, e, l) ==> x.log == l
    ensures forall x :: x in FreshAt(cfg, e, l) ==> x.log == l && IdOf(x) !in e.processed
  {
    forall x | x in Active(cfg, e, l) ensures x.log == l { ItemsAtMember(cfg.statics + e.dyn, l, x); }
    forall x | x in FreshAt(cfg, e, l)
      ensures x.log == l && IdOf(x) !in e.processed
    {
      FreshMember(Active(cfg, e, l), e.processed, x);
    }
  }

  /** What is done at a log stays done. */
  lemma StillDone<S>(cfg: Config<S>, e: Engine<S>, f: Engine<S>, l: RawLog)
    requires FreshAt(cfg, e, l) == [] && Grew(e, f, l.pos)
    ensures FreshAt(cfg, f, l) == []
  {
    var added := f.dyn[|e.dyn|..];
    assert cfg.statics + f.dyn == (cfg.statics + e.dyn) + added;
    ItemsAtConcat(cfg.statics + e.dyn, added, l);
    ItemsAtNone(added, l);
    forall x | x in Active(cfg, f, l)
      ensures IdOf(x) in f.processed
    {
      FreshMember(Active(cfg, e, l), e.processed, x);
    }
    FreshNone(Active(cfg, f, l), f.processed);
  }

  // ----- a run against the walk -----

  /** One log: a run executes a prefix of the walk's items and leaves the others fresh. */
  lemma {:induction false} RunOneLog<S>(cfg: Config<S>, args: PassArgs, r: Run<S>, l: RawLog)
    requires r.halt == Running && r.eng.ok && Wf(cfg, r.eng)
    ensures var s := RunItems(cfg, args, r, FreshAt(cfg, r.eng, l));
            && s.eng.ok && Wf(cfg, s.eng) && Grew(r.eng, s.eng, l.pos) && s.history == r.history
            && WalkItems(cfg, s.eng, FreshAt(cfg, s.eng, l)) == WalkItems(cfg, r.eng, FreshAt(cfg, r.eng, l))
            && (s.halt == Running ==>
                  FreshAt(cfg, s.eng, l) == [] && s.eng == WalkItems(cfg, r.eng, FreshAt(cfg, r.eng, l)))
            && (s.last == r.last || s.last == Some(l.pos.block))
            && (s.halt == Running ==> (s.last == Some(l.pos.block) <==>
                  r.last == Some(l.pos.block) || FreshAt(cfg, r.eng, l) != []))
    decreases |FreshAt(cfg, r.eng, l)|
  {
    var items := FreshAt(cfg, r.eng, l);
    ActiveAtLog(cfg, r.eng, l);
    if items != [] {
      var x := items[0];
      var r' := RunItem(cfg, args, r, x);
      if r'.halt == Running {
        FreshAfterStep(cfg, r.eng, l);
        StepWf(cfg, r.eng, x);
        GrewStep(cfg, r.eng, x, l.pos);
        assert FreshAt(cfg, r'.eng, l) == items[1..];
        RunOneLog(cfg, args, r', l);
        GrewTrans(r.eng, r'.eng, RunItems(cfg, args, r', items[1..]).eng, l.pos);
      }
    }
  }

  /** A pass stopped anywhere leaves, for a walk over the same logs that skips what is processed, exactly
      the rest; a pass that was not stopped made the whole walk. */
  lemma {:induction false} RunContinues<S>(cfg: Config<S>, args: PassArgs, r: Run<S>, logs: seq<RawLog>)
    requires r.halt == Running && r.eng.ok && Wf(cfg, r.eng) && Ordered(logs)
    ensures var s := RunLogs(cfg, args, r, logs);
            && s.eng.ok && Wf(cfg, s.eng)
            && (logs != [] ==> Grew(r.eng, s.eng, logs[0].pos))
            && WalkP(cfg, s.eng, logs) == WalkP(cfg, r.eng, logs)
            && (s.halt == Running ==> s.eng == WalkP(cfg, r.eng, logs))
    decreases logs
  {
    if logs != [] {
      var l, rest := logs[0], logs[1..];
      RunOneLog(cfg, args, r, l);
      var r' := RunItems(cfg, args, r, FreshAt(cfg, r.eng, l));
      if r'.halt == Running {
        var c := Close(args, r', logs);
        var s := RunLogs(cfg, args, c, rest);
        RunContinues(cfg, args, c, rest);
        if rest != [] {
          assert Before(logs[0].pos, logs[1].pos);
          GrewEarlier(r'.eng, s.eng, l.pos, rest[0].pos);
        }
        GrewTrans(r.eng, r'.eng, s.eng, l.pos);
        StillDone(cfg, r'.eng, s.eng, l);
      }
    }
  }

  // ----- composition of walks -----

  lemma {:induction false} WalkPConcat<S>(cfg: Config<S>, e: Engine<S>, a: seq<RawLog>, b: seq<RawLog>)
    ensures WalkP(cfg, e, a + b) == WalkP(cfg, WalkP(cfg, e, a), b)
    decreases a
  {
    if a == [] {
      assert a + b == b;
    } else if e.ok {
      assert (a + b)[1..] == a[1..] + b;
      WalkPConcat(cfg, WalkItems(cfg, e, FreshAt(cfg, e, a[0])), a[1..], b);
    }
  }

  lemma {:induction false} WalkConcat<S>(cfg: Config<S>, e: Engine<S>, a: seq<RawLog>, b: seq<RawLog>)
    ensures Walk(cfg, e, a + b) == Walk(cfg, Walk(cfg, e, a), b)
    decreases a
  {
    if a == [] {
      assert a + b == b;
    } else if e.ok {
      assert (a + b)[1..] == a[1..] + b;
      WalkConcat(cfg, WalkItems(cfg, e, Active(cfg, e, a[0])), a[1..], b);
    }
  }

  /** No processed identity sits on any of these logs. */
  ghost predicate Unvisited(processed: set<Id>, logs: seq<RawLog>) {
    forall id, l :: id in processed && l in logs ==> id.pos != l.pos
  }

  lemma {:induction false} ProcessedItems<S>(cfg: Config<S>, e: Engine<S>, items: seq<Item>, id: Id)
    ensures id in WalkItems(cfg, e, items).processed ==> id in e.processed || exists x :: x in items && IdOf(x) == id
    decreases items
  {
    if e.ok && items != [] {
      ProcessedItems(cfg, Step(cfg, e, items[0]), items[1..], id);
    }
  }

  lemma UnvisitedRest<S>(cfg: Config<S>, e: Engine<S>, logs: seq<RawLog>)
    requires logs != [] && Ordered(logs) && Unvisited(e.processed, logs)
    ensures Unvisited(WalkItems(cfg, e, Active(cfg, e, logs[0])).processed, logs[1..])
  {
    var items := Active(cfg, e, logs[0]);
    ActiveAtLog(cfg, e, logs[0]);
    forall id, l | id in WalkItems(cfg, e, items).processed && l in logs[1..]
      ensures id.pos != l.pos
    {
      ProcessedItems(cfg, e, items, id);
      var k :| 0 <= k < |logs[1..]| && logs[1..][k] == l;
      assert Before(logs[0].pos, logs[k + 1].pos);
    }
  }

  /** Where nothing was processed before, skipping changes nothing. */
  lemma {:induction false} WalkPIsWalk<S>(cfg: Config<S>, e: Engine<S>, logs: seq<RawLog>)
    requires Ordered(logs) && Unvisited(e.processed, logs)
    ensures WalkP(cfg, e, logs) == Walk(cfg, e, logs)
    decreases logs
  {
    if e.ok && logs != [] {
      ActiveAtLog(cfg, e, logs[0]);
      assert logs[0] in logs;
      FreshAll(Active(cfg, e, logs[0]), e.processed);
      UnvisitedRest(cfg, e, logs);
      WalkPIsWalk(cfg, WalkItems(cfg, e, Active(cfg, e, logs[0])), logs[1..]);
    }
  }

  // ----- views: what a snapshot keeps -----

  /** The part of a state that the outside can see: store, executed items, health, sorted sources. */
  datatype View<+S> = View(store: S, trace: seq<Item>, ok: bool, sources: seq<Source>)

  function ViewOf<S>(e: Engine<S>): View<S> {
    View(e.store, e.trace, e.ok, Persist(e.dyn))
  }

  lemma {:induction false} WalkItemsProcessed<S>(cfg: Config<S>, e: Engine<S>, items: seq<Item>, p: set<Id>)
    ensures var f := WalkItems(cfg, e, items);
            var g := WalkItems(cfg, e.(processed := p), items);
            g == f.(processed := g.processed)
    decreases items
  {
    if e.ok && items != [] {
      var a, b := Step(cfg, e, items[0]), Step(cfg, e.(processed := p), items[0]);
      assert b == a.(processed := b.processed);
      WalkItemsProcessed(cfg, a, items[1..], b.processed);
    }
  }

  /** The reference walk does not depend on the processed set. */
  lemma {:induction false} WalkProcessed<S>(cfg: Config<S>, e: Engine<S>, logs: seq<RawLog>, p: set<Id>)
    ensures ViewOf(Walk(cfg, e.(processed := p), logs)) == ViewOf(Walk(cfg, e, logs))
    decreases logs
  {
    if e.ok && logs != [] {
      var items := Active(cfg, e, logs[0]);
      WalkItemsProcessed(cfg, e, items, p);
      var f, g := WalkItems(cfg, e, items), WalkItems(cfg, e.(processed := p), items);
      WalkProcessed(cfg, f, logs[1..], g.processed);
    }
  }

  // ----- Persist -----

  lemma {:induction false} InsertHas(s: Source, sorted: seq<Source>, x: Source)
    ensures x in Insert(s, sorted) <==> x == s || x in sorted
    decreases sorted
  {
    if sorted != [] && !SortsBefore(s, sorted[0]) {
      InsertHas(s, sorted[1..], x);
    }
  }

  /** Snapshots keep every source, and add none. */
  lemma {:induction false} PersistHas(dyn: seq<Source>, x: Source)
    ensures x in Persist(dyn) <==> exists d :: d in dyn && x == d.(resumed := true)
    decreases dyn
  {
    if dyn != [] {
      var n := |dyn| - 1;
      PersistHas(dyn[..n], x);
      InsertHas(dyn[n].(resumed := true), Persist(dyn[..n]), x);
      assert dyn == dyn[..n] + [dyn[n]];
      if x == dyn[n].(resumed := true) { assert dyn[n] in dyn; }
    }
  }

  lemma PersistMember(dyn: seq<Source>, d: Source)
    requires d in dyn
    ensures d.(resumed := true) in Persist(dyn)
  {
    PersistHas(dyn, d.(resumed := true));
  }

  lemma PersistAppend(dyn: seq<Source>, s: Source)
    ensures Persist(dyn + [s]) == Insert(s.(resumed := true), Persist(dyn))
  {
    assert (dyn + [s])[..|dyn + [s]| - 1] == dyn;
  }

  ghost predicate StrictlySorted(l: seq<Source>) {
    forall i, j :: 0 <= i < j < |l| ==> SortsBefore(l[i], l[j])
  }

  lemma {:induction false} InsertSorted(s: Source, sorted: seq<Source>)
    requires StrictlySorted(sorted)
    requires s.dynamic && forall x :: x in sorted ==> x.dynamic && !SameKey(s, x)
    ensures StrictlySorted(Insert(s, sorted))
    decreases sorted
  {
    if sorted != [] && !SortsBefore(s, sorted[0]) {
      InsertSorted(s, sorted[1..]);
      var rest := Insert(s, sorted[1..]);
      forall j | 0 <= j < |rest|
        ensures SortsBefore(sorted[0], rest[j])
      {
        InsertHas(s, sorted[1..], rest[j]);
        assert sorted[0] in sorted;
        if rest[j] != s {
          var k :| 0 <= k < |sorted[1..]| && sorted[1..][k] == rest[j];
          assert SortsBefore(sorted[0], sorted[k + 1]);
        }
      }
    }
  }

  lemma {:induction false} PersistSorted(dyn: seq<Source>)
    requires DistinctKeys(dyn) && forall d :: d in dyn ==> d.dynamic
    ensures StrictlySorted(Persist(dyn))
    decreases dyn
  {
    if dyn != [] {
      var n := |dyn| - 1;
      PersistSorted(dyn[..n]);
      forall x | x in Persist(dyn[..n])
        ensures x.dynamic && !SameKey(dyn[n].(resumed := true), x)
      {
        PersistHas(dyn[..n], x);
        var d :| d in dyn[..n] && x == d.(resumed := true);
        var k :| 0 <= k < n && dyn[k] == d;
        assert !SameKey(dyn[k], dyn[n]);
      }
      assert dyn[n] in dyn;
      InsertSorted(dyn[n].(resumed := true), Persist(dyn[..n]));
    }
  }

  lemma {:induction false} InsertLast(s: Source, sorted: seq<Source>)
    requires forall x :: x in sorted ==> SortsBefore(x, s)
    ensures Insert(s, sorted) == sorted + [s]
    decreases sorted
  {
    if sorted != [] {
      assert sorted[0] in sorted;
      InsertLast(s, sorted[1..]);
    }
  }

  /** Persisting what was persisted changes nothing. */
  lemma {:induction false} PersistIdem(l: seq<Source>)
    requires StrictlySorted(l) && forall x :: x in l ==> x.resumed
    ensures Persist(l) == l
    decreases l
  {
    if l != [] {
      var n := |l| - 1;
      PersistIdem(l[..n]);
      assert l[n] in l;
      forall x | x in l[..n]
        ensures SortsBefore(x, l[n])
      {
        var k :| 0 <= k < n && l[k] == x;
      }
      InsertLast(l[n], l[..n]);
      assert l == l[..n] + [l[n]];
    }
  }

  lemma PersistTwice(dyn: seq<Source>)
    requires DistinctKeys(dyn) && forall d :: d in dyn ==> d.dynamic
    ensures Persist(Persist(dyn)) == Persist(dyn)
    ensures forall x :: x in Persist(dyn) ==> x.resumed && x.dynamic
    ensures DistinctKeys(Persist(dyn))
  {
    PersistSorted(dyn);
    forall x | x in Persist(dyn)
      ensures x.resumed && x.dynamic
    {
      PersistHas(dyn, x);
    }
    PersistIdem(Persist(dyn));
    forall i, j | 0 <= i < j < |Persist(dyn)|
      ensures !SameKey(Persist(dyn)[i], Persist(dyn)[j])
    {
      if SameKey(Persist(dyn)[i], Persist(dyn)[j]) {
        SameKeySameSource(dyn, Persist(dyn)[i], Persist(dyn)[j]);
        assert false;
      }
    }
  }

  /** Storing already stored sources together with new ones is storing all at once. */
  lemma {:induction false} PersistTogether(a: seq<Source>, b: seq<Source>)
    requires DistinctKeys(a) && forall d :: d in a ==> d.dynamic
    ensures Persist(Persist(a) + b) == Persist(a + b)
    decreases b
  {
    if b == [] {
      assert a + b == a && Persist(a) + b == Persist(a);
      PersistTwice(a);
    } else {
      var n := |b| - 1;
      assert b == b[..n] + [b[n]];
      PersistTogether(a, b[..n]);
      assert a + b == (a + b[..n]) + [b[n]] && Persist(a) + b == (Persist(a) + b[..n]) + [b[n]];
      PersistAppend(a + b[..n], b[n]);
      PersistAppend(Persist(a) + b[..n], b[n]);
    }
  }

  lemma SameKeySameSource(dyn: seq<Source>, a: Source, b: Source)
    requires DistinctKeys(dyn) && a in Persist(dyn) && b in Persist(dyn) && SameKey(a, b)
    ensures a == b
  {
    PersistHas(dyn, a);
    PersistHas(dyn, b);
    var c :| c in dyn && a == c.(resumed := true);
    var d :| d in dyn && b == d.(resumed := true);
    var i :| 0 <= i < |dyn| && dyn[i] == c;
    var j :| 0 <= j < |dyn| && dyn[j] == d;
    assert i < j ==> !SameKey(dyn[i], dyn[j]);
    assert j < i ==> !SameKey(dyn[j], dyn[i]);
  }

  // ----- a walk does not notice that its sources went through a snapshot -----

  /** No two sources share an address. */
  ghost predicate Apart(sources: seq<Source>) {
    forall s, t :: s in sources && t in sources && s.address == t.address ==> SameKey(s, t)
  }

  /** No source has a log in its creation block at or before the log that created it. */
  ghost predicate NoneEarlier(sources: seq<Source>, chain: seq<RawLog>) {
    forall s, l :: s in sources && l in chain && Filter(s, l) ==> Before(s.born, l.pos)
  }

  /** The sources created in this pass only have later logs. */
  ghost predicate OnlyLater(sources: seq<Source>, logs: seq<RawLog>) {
    forall s, l :: s in sources && !s.resumed && l in logs && Filter(s, l) ==> Before(s.born, l.pos)
  }

  /** A source that went through a snapshot in one list only has no log there that it could not see before. */
  ghost predicate Twins(a: seq<Source>, b: seq<Source>, logs: seq<RawLog>) {
    forall s, t, l :: s in a && t in b && l in logs ==> TwinAt(s, t, l)
  }

  predicate TwinAt(s: Source, t: Source, l: RawLog) {
    s.(resumed := true) == t.(resumed := true) && s.resumed != t.resumed && Filter(s, l) ==> Before(s.born, l.pos)
  }

  lemma {:induction false} OneMatch(dyn: seq<Source>, l: RawLog, s: Source)
    requires DistinctKeys(dyn) && s in dyn && Matches(s, l)
    requires forall d :: d in dyn && d.address == s.address ==> SameKey(d, s)
    ensures ItemsAt(dyn, l) == [ItemOf(s, l)]
    decreases dyn
  {
    if dyn[0] == s {
      forall d | d in dyn[1..]
        ensures !Matches(d, l)
      {
        var k :| 0 <= k < |dyn[1..]| && dyn[1..][k] == d;
        assert !SameKey(dyn[0], dyn[k + 1]);
      }
      ItemsAtNone(dyn[1..], l);
    } else {
      assert s in dyn[1..];
      var k :| 0 <= k < |dyn[1..]| && dyn[1..][k] == s;
      assert !SameKey(dyn[0], dyn[k + 1]);
      assert dyn[0] in dyn;
      OneMatch(dyn[1..], l, s);
    }
  }

  lemma TwinMatches(a: seq<Source>, b: seq<Source>, s: Source, l: RawLog, logs: seq<RawLog>) returns (t: Source)
    requires Persist(a) == Persist(b) && Twins(a, b, logs) && s in a && Matches(s, l) && l in logs
    ensures t in b && Matches(t, l) && s.(resumed := true) == t.(resumed := true) && ItemOf(t, l) == ItemOf(s, l)
  {
    PersistMember(a, s);
    PersistHas(b, s.(resumed := true));
    t :| t in b && s.(resumed := true) == t.(resumed := true);
    assert TwinAt(s, t, l) && (s.resumed == t.resumed ==> s == t);
  }

  /** Source lists with the same snapshot make the same items of every log, when no address is shared. */
  lemma SameItems(a: seq<Source>, b: seq<Source>, l: RawLog, logs: seq<RawLog>)
    requires DistinctKeys(a) && DistinctKeys(b) && Persist(a) == Persist(b)
    requires Apart(Persist(a)) && Twins(a, b, logs) && l in logs
    ensures ItemsAt(a, l) == ItemsAt(b, l)
  {
    if s :| s in a && Matches(s, l) {
      var t := TwinMatches(a, b, s, l, logs);
      SoleAtAddress(a, s);
      SoleAtAddress(b, t);
      OneMatch(a, l, s);
      OneMatch(b, l, t);
    } else {
      forall t | t in b
        ensures !Matches(t, l)
      {
        if Matches(t, l) {
          TwinsSwap(a, b, logs);
          var s := TwinMatches(b, a, t, l, logs);
        }
      }
      ItemsAtNone(a, l);
      ItemsAtNone(b, l);
    }
  }

  lemma TwinsSwap(a: seq<Source>, b: seq<Source>, logs: seq<RawLog>)
    requires Twins(a, b, logs)
    ensures Twins(b, a, logs)
  {
    forall s, t, l | s in b && t in a && l in logs ensures TwinAt(s, t, l) { assert TwinAt(t, s, l); }
  }

  lemma SoleAtAddress(dyn: seq<Source>, s: Source)
    requires s in dyn && Apart(Persist(dyn))
    ensures forall d :: d in dyn && d.address == s.address ==> SameKey(d, s)
  {
    PersistMember(dyn, s);
    forall d | d in dyn && d.address == s.address
      ensures SameKey(d, s)
    {
      PersistMember(dyn, d);
      assert SameKey(d.(resumed := true), s.(resumed := true));
    }
  }

  lemma SameTaken(a: seq<Source>, b: seq<Source>, s: Source)
    requires Persist(a) == Persist(b)
    ensures (exists d :: d in a && SameKey(d, s)) ==> (exists d :: d in b && SameKey(d, s))
  {
    if d :| d in a && SameKey(d, s) {
      PersistMember(a, d);
      PersistHas(b, d.(resumed := true));
      var t :| t in b && d.(resumed := true) == t.(resumed := true);
      assert SameKey(t, s);
    }
  }

  lemma {:induction false} SameAdded<S>(cfg: Config<S>, a: seq<Source>, b: seq<Source>, creates: seq<Create>, at: Pos)
    requires Persist(a) == Persist(b)
    ensures Persist(AddSources(cfg, a, creates, at)) == Persist(AddSources(cfg, b, creates, at))
    decreases creates
  {
    if creates != [] {
      var s := Instantiate(cfg, creates[0], at);
      if s.Some? {
        SameTaken(a, b, s.value);
        SameTaken(b, a, s.value);
        PersistAppend(a, s.value);
        PersistAppend(b, s.value);
        if !exists d :: d in a && SameKey(d, s.value) {
          SameAdded(cfg, a + [s.value], b + [s.value], creates[1..], at);
        } else {
          SameAdded(cfg, a, b, creates[1..], at);
        }
      } else {
        SameAdded(cfg, a, b, creates[1..], at);
      }
    }
  }

  /** Sources added to both lists are equal twins. */
  lemma {:induction false} TwinsAdded<S>(cfg: Config<S>, a: seq<Source>, b: seq<Source>, creates: seq<Create>, at: Pos,
                                         logs: seq<RawLog>)
    requires Persist(a) == Persist(b) && Twins(a, b, logs)
    ensures Twins(AddSources(cfg, a, creates, at), AddSources(cfg, b, creates, at), logs)
    decreases creates
  {
    if creates != [] {
      var s := Instantiate(cfg, creates[0], at);
      if s.Some? {
        SameTaken(a, b, s.value);
        SameTaken(b, a, s.value);
        if exists d :: d in a && SameKey(d, s.value) {
          TwinsAdded(cfg, a, b, creates[1..], at, logs);
        } else {
          PersistAppend(a, s.value);
          PersistAppend(b, s.value);
          TwinsAppend(a, b, s.value, logs);
          TwinsAdded(cfg, a + [s.value], b + [s.value], creates[1..], at, logs);
        }
      } else {
        TwinsAdded(cfg, a, b, creates[1..], at, logs);
      }
    }
  }

  lemma TwinsAppend(a: seq<Source>, b: seq<Source>, s: Source, logs: seq<RawLog>)
    requires Twins(a, b, logs)
    requires (forall d :: d in a ==> !SameKey(d, s)) && forall d :: d in b ==> !SameKey(d, s)
    ensures Twins(a + [s], b + [s], logs)
  {
    forall x, y, l | x in a + [s] && y in b + [s] && l in logs
      ensures TwinAt(x, y, l)
    {
      assert x in a || x == s;
      assert y in b || y == s;
    }
  }

  ghost predicate Alike<S>(e: Engine<S>, f: Engine<S>) {
    ViewOf(e) == ViewOf(f) && e.processed == f.processed
  }

  lemma {:induction false} AlikeItems<S>(cfg: Config<S>, e: Engine<S>, f: Engine<S>, items: seq<Item>,
                                         logs: seq<RawLog>)
    requires Alike(e, f) && Twins(e.dyn, f.dyn, logs)
    ensures var g, h := WalkItems(cfg, e, items), WalkItems(cfg, f, items);
            Alike(g, h) && Twins(g.dyn, h.dyn, logs)
    decreases items
  {
    if e.ok && items != [] {
      if Clean(cfg, e.store, items[0]) {
        var creates, at := cfg.handler(e.store, items[0]).creates, items[0].log.pos;
        SameAdded(cfg, e.dyn, f.dyn, creates, at);
        TwinsAdded(cfg, e.dyn, f.dyn, creates, at, logs);
      }
      AlikeItems(cfg, Step(cfg, e, items[0]), Step(cfg, f, items[0]), items[1..], logs);
    }
  }

  lemma {:induction false} SourcesGrow<S>(cfg: Config<S>, e: Engine<S>, logs: seq<RawLog>)
    ensures var f := WalkP(cfg, e, logs);
            |e.dyn| <= |f.dyn| && f.dyn[..|e.dyn|] == e.dyn && |e.trace| <= |f.trace| && f.trace[..|e.trace|] == e.trace
    decreases logs
  {
    if e.ok && logs != [] {
      var g := WalkItems(cfg, e, FreshAt(cfg, e, logs[0]));
      ActiveAtLog(cfg, e, logs[0]);
      GrewItems(cfg, e, FreshAt(cfg, e, logs[0]), logs[0].pos);
      SourcesGrow(cfg, g, logs[1..]);
      var f := WalkP(cfg, e, logs);
      assert e.dyn == g.dyn[..|e.dyn|] == f.dyn[..|g.dyn|][..|e.dyn|] == f.dyn[..|e.dyn|];
      assert e.trace == g.trace[..|e.trace|] == f.trace[..|g.trace|][..|e.trace|] == f.trace[..|e.trace|];
    }
  }

  lemma PersistPrefix(all: seq<Source>, some: seq<Source>)
    requires |some| <= |all| && all[..|some|] == some
    ensures forall s :: s in Persist(some) ==> s in Persist(all)
  {
    forall s | s in Persist(some)
      ensures s in Persist(all)
    {
      PersistHas(some, s);
      var d :| d in some && s == d.(resumed := true);
      assert d in all[..|some|];
      PersistMember(all, d);
    }
  }

  /** Two states that look alike in a snapshot stay alike along any walk, as long as no two of the sources
      the walk ends with share an address and no source sees more in one state than in the other. */
  lemma {:induction false} WalksAlike<S>(cfg: Config<S>, e: Engine<S>, f: Engine<S>, logs: seq<RawLog>)
    requires Alike(e, f) && Wf(cfg, e) && Wf(cfg, f) && Twins(e.dyn, f.dyn, logs)
    requires Apart(Persist(WalkP(cfg, e, logs).dyn))
    ensures Alike(WalkP(cfg, e, logs), WalkP(cfg, f, logs))
    decreases logs
  {
    if e.ok && logs != [] {
      SourcesGrow(cfg, e, logs);
      PersistPrefix(WalkP(cfg, e, logs).dyn, e.dyn);
      SameItems(e.dyn, f.dyn, logs[0], logs);
      ItemsAtConcat(cfg.statics, e.dyn, logs[0]);
      ItemsAtConcat(cfg.statics, f.dyn, logs[0]);
      var items := FreshAt(cfg, e, logs[0]);
      assert items == FreshAt(cfg, f, logs[0]);
      AlikeItems(cfg, e, f, items, logs);
      WalkItemsWf(cfg, e, items);
      WalkItemsWf(cfg, f, items);
      WalksAlike(cfg, WalkItems(cfg, e, items), WalkItems(cfg, f, items), logs[1..]);
    }
  }

  // ----- each identity once -----

  /** Everything executed is remembered, and nothing was executed twice. */
  ghost predicate OnceEach<S>(e: Engine<S>) {
    DistinctIds(e.trace) && forall x :: x in e.trace ==> IdOf(x) in e.processed
  }

  lemma {:induction false} OnceItems<S>(cfg: Config<S>, e: Engine<S>, items: seq<Item>)
    requires OnceEach(e) && DistinctIds(items) && forall x :: x in items ==> IdOf(x) !in e.processed
    ensures OnceEach(WalkItems(cfg, e, items))
    decreases items
  {
    if e.ok && items != [] {
      var f := Step(cfg, e, items[0]);
      assert items[0] in items;
      if Clean(cfg, e.store, items[0]) {
        forall i | 0 <= i < |e.trace|
          ensures IdOf(e.trace[i]) != IdOf(items[0])
        {
          assert e.trace[i] in e.trace;
        }
      }
      forall x | x in items[1..]
        ensures IdOf(x) !in f.processed
      {
        var k :| 0 <= k < |items[1..]| && items[1..][k] == x;
        assert IdOf(items[0]) != IdOf(items[k + 1]);
      }
      OnceItems(cfg, f, items[1..]);
    }
  }

  /** A walk executes no identity twice. */
  lemma {:induction false} OnceWalk<S>(cfg: Config<S>, e: Engine<S>, logs: seq<RawLog>)
    requires Wf(cfg, e) && OnceEach(e)
    ensures OnceEach(WalkP(cfg, e, logs))
    decreases logs
  {
    if e.ok && logs != [] {
      var items := FreshAt(cfg, e, logs[0]);
      WfConcat(cfg.statics, e.dyn);
      ItemsAtDistinct(cfg.statics + e.dyn, logs[0]);
      FreshDistinct(Active(cfg, e, logs[0]), e.processed);
      ActiveAtLog(cfg, e, logs[0]);
      OnceItems(cfg, e, items);
      WalkItemsWf(cfg, e, items);
      OnceWalk(cfg, WalkItems(cfg, e, items), logs[1..]);
    }
  }
}
