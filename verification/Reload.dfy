/** What a reload between passes changes.  A snapshot sorts the dynamic sources and forgets where in its block
    each was created; a walk does not notice exactly when, at every log still to come, the sources known so
    far have the same items to run as before, in the same order. */
module Reload {
  import opened ChainModel
  import opened Streaming
  import opened Replay
  import opened Resume
  import opened Runs

  /** At each of the logs the two lists of sources make the same unprocessed items, in the same order. */
  ghost predicate SameWork(a: seq<Source>, b: seq<Source>, processed: set<Id>, logs: seq<RawLog>) {
    forall l :: l in logs ==> Fresh(ItemsAt(a, l), processed) == Fresh(ItemsAt(b, l), processed)
  }

  /** The state `e` with the sources `b` in place of those it began with, which were `a`. */
  ghost predicate Exchanged<S>(e: Engine<S>, f: Engine<S>, a: seq<Source>, b: seq<Source>) {
    && |a| <= |e.dyn| && e.dyn[..|a|] == a && f == e.(dyn := b + e.dyn[|a|..])
    && Persist(e.dyn) == Persist(f.dyn)
  }

  // ----- what the two states do alike -----

  /** Both lists get the same new sources. */
  lemma {:induction false} SameNew<S>(cfg: Config<S>, a: seq<Source>, b: seq<Source>, creates: seq<Create>, at: Pos)
    requires Persist(a) == Persist(b)
    ensures AddSources(cfg, a, creates, at)[|a|..] == AddSources(cfg, b, creates, at)[|b|..]
    decreases creates
  {
    if creates != [] {
      var s := Instantiate(cfg, creates[0], at);
      if s.Some? {
        SameTaken(a, b, s.value);
        SameTaken(b, a, s.value);
      }
      if s.None? || exists d :: d in a && SameKey(d, s.value) {
        SameNew(cfg, a, b, creates[1..], at);
      } else {
        PersistAppend(a, s.value);
        PersistAppend(b, s.value);
        SameNew(cfg, a + [s.value], b + [s.value], creates[1..], at);
        NewTail(a, s.value, AddSources(cfg, a, creates, at));
        NewTail(b, s.value, AddSources(cfg, b, creates, at));
      }
    }
  }

  lemma NewTail(a: seq<Source>, s: Source, all: seq<Source>)
    requires |a| + 1 <= |all| && all[..|a| + 1] == a + [s]
    ensures all[|a|..] == [s] + all[|a| + 1..]
  {
    assert all[|a|] == all[..|a| + 1][|a|];
  }

  lemma StepExchanged<S>(cfg: Config<S>, e: Engine<S>, f: Engine<S>, a: seq<Source>, b: seq<Source>, x: Item)
    requires Exchanged(e, f, a, b)
    ensures Exchanged(Step(cfg, e, x), Step(cfg, f, x), a, b)
  {
    if Clean(cfg, e.store, x) {
      var creates, at := cfg.handler(e.store, x).creates, x.log.pos;
      SameNew(cfg, e.dyn, f.dyn, creates, at);
      SameAdded(cfg, e.dyn, f.dyn, creates, at);
      var g, h := AddSources(cfg, e.dyn, creates, at), AddSources(cfg, f.dyn, creates, at);
      TailOf(g, e.dyn, a);
      Regrouped(g, h, e.dyn, f.dyn, a, b);
    }
  }

  lemma Regrouped(g: seq<Source>, h: seq<Source>, d: seq<Source>, c: seq<Source>, a: seq<Source>, b: seq<Source>)
    requires |a| <= |d| <= |g| && |c| <= |h| && c == b + d[|a|..] && h[..|c|] == c && g[|d|..] == h[|c|..]
    requires g[|a|..] == d[|a|..] + g[|d|..]
    ensures h == b + g[|a|..]
  {
    assert h == c + h[|c|..];
  }

  lemma TailOf(g: seq<Source>, d: seq<Source>, a: seq<Source>)
    requires |a| <= |d| <= |g| && g[..|d|] == d && d[..|a|] == a
    ensures g[..|a|] == a && g[|a|..] == d[|a|..] + g[|d|..]
  {
    assert g == d + g[|d|..];
  }

  lemma {:induction false} ItemsExchanged<S>(cfg: Config<S>, e: Engine<S>, f: Engine<S>, a: seq<Source>, b: seq<Source>,
                                             items: seq<Item>)
    requires Exchanged(e, f, a, b)
    ensures Exchanged(WalkItems(cfg, e, items), WalkItems(cfg, f, items), a, b)
    decreases items
  {
    if e.ok && items != [] {
      StepExchanged(cfg, e, f, a, b, items[0]);
      ItemsExchanged(cfg, Step(cfg, e, items[0]), Step(cfg, f, items[0]), a, b, items[1..]);
    }
  }

  /** At a log the states differ in what the exchanged sources have to run, and in nothing else. */
  lemma FreshParts<S>(cfg: Config<S>, e: Engine<S>, a: seq<Source>, l: RawLog)
    requires |a| <= |e.dyn| && e.dyn[..|a|] == a
    ensures FreshAt(cfg, e, l)
         == Fresh(ItemsAt(cfg.statics, l), e.processed) + Fresh(ItemsAt(a, l), e.processed)
            + Fresh(ItemsAt(e.dyn[|a|..], l), e.processed)
  {
    var n := e.dyn[|a|..];
    assert e.dyn == a + n;
    ItemsAtConcat(cfg.statics, e.dyn, l);
    ItemsAtConcat(a, n, l);
    FreshConcat(ItemsAt(cfg.statics, l), ItemsAt(e.dyn, l), e.processed);
    FreshConcat(ItemsAt(a, l), ItemsAt(n, l), e.processed);
  }

  lemma SameFresh<S>(cfg: Config<S>, e: Engine<S>, f: Engine<S>, a: seq<Source>, b: seq<Source>, l: RawLog)
    requires Exchanged(e, f, a, b)
    ensures FreshAt(cfg, e, l) == FreshAt(cfg, f, l)
       <==> Fresh(ItemsAt(a, l), e.processed) == Fresh(ItemsAt(b, l), e.processed)
  {
    FreshParts(cfg, e, a, l);
    FreshParts(cfg, f, b, l);
    var n := e.dyn[|a|..];
    assert f.dyn[|b|..] == n;
    Middle(Fresh(ItemsAt(cfg.statics, l), e.processed), Fresh(ItemsAt(a, l), e.processed),
           Fresh(ItemsAt(b, l), e.processed), Fresh(ItemsAt(n, l), e.processed));
  }

  lemma Middle(s: seq<Item>, x: seq<Item>, y: seq<Item>, n: seq<Item>)
    ensures s + x + n == s + y + n <==> x == y
  {
    if s + x + n == s + y + n {
      assert |x| == |y|;
      assert x == (s + x + n)[|s|..|s| + |x|] == (s + y + n)[|s|..|s| + |y|] == y;
    }
  }

  /** Executing a log does not change what is unprocessed at the later ones. */
  lemma LaterWork<S>(cfg: Config<S>, e: Engine<S>, logs: seq<RawLog>, a: seq<Source>, b: seq<Source>)
    requires logs != [] && Ordered(logs)
    ensures var g := WalkItems(cfg, e, FreshAt(cfg, e, logs[0]));
            SameWork(a, b, g.processed, logs[1..]) <==> SameWork(a, b, e.processed, logs[1..])
  {
    var g := WalkItems(cfg, e, FreshAt(cfg, e, logs[0]));
    ActiveAtLog(cfg, e, logs[0]);
    OnlyHere(cfg, e, FreshAt(cfg, e, logs[0]), logs[0].pos);
    forall l | l in logs[1..]
      ensures Fresh(ItemsAt(a, l), g.processed) == Fresh(ItemsAt(a, l), e.processed)
      ensures Fresh(ItemsAt(b, l), g.processed) == Fresh(ItemsAt(b, l), e.processed)
    {
      var k :| 0 <= k < |logs[1..]| && logs[1..][k] == l;
      assert Before(logs[0].pos, logs[k + 1].pos);
      SameThere(a, l, g.processed, e.processed, logs[0].pos);
      SameThere(b, l, g.processed, e.processed, logs[0].pos);
    }
  }

  lemma SameThere(a: seq<Source>, l: RawLog, p: set<Id>, q: set<Id>, at: Pos)
    requires l.pos != at && forall id: Id :: id.pos != at ==> (id in p <==> id in q)
    ensures Fresh(ItemsAt(a, l), p) == Fresh(ItemsAt(a, l), q)
  {
    forall x | x in ItemsAt(a, l) ensures IdOf(x).pos == l.pos { ItemsAtMember(a, l, x); }
    FreshSame(ItemsAt(a, l), p, q);
  }

  lemma {:induction false} OnlyHere<S>(cfg: Config<S>, e: Engine<S>, items: seq<Item>, at: Pos)
    requires forall x :: x in items ==> x.log.pos == at
    ensures forall id: Id :: id.pos != at ==> (id in WalkItems(cfg, e, items).processed <==> id in e.processed)
    decreases items
  {
    if e.ok && items != [] {
      assert items[0] in items;
      OnlyHere(cfg, Step(cfg, e, items[0]), items[1..], at);
    }
  }

  /** As long as the exchanged sources have the same to run, the walks go the same way. */
  lemma {:induction false} WalksTogether<S>(cfg: Config<S>, e: Engine<S>, f: Engine<S>, a: seq<Source>, b: seq<Source>,
                                            logs: seq<RawLog>)
    requires Exchanged(e, f, a, b) && Ordered(logs) && SameWork(a, b, e.processed, logs)
    ensures ViewOf(WalkP(cfg, f, logs)) == ViewOf(WalkP(cfg, e, logs))
    decreases logs
  {
    if e.ok && logs != [] {
      assert logs[0] in logs;
      SameFresh(cfg, e, f, a, b, logs[0]);
      var items := FreshAt(cfg, e, logs[0]);
      ItemsExchanged(cfg, e, f, a, b, items);
      assert SameWork(a, b, e.processed, logs[1..]);
      LaterWork(cfg, e, logs, a, b);
      WalksTogether(cfg, WalkItems(cfg, e, items), WalkItems(cfg, f, items), a, b, logs[1..]);
    }
  }

  // ----- what tells them apart -----

  /** What a walk that does not fail executes at its first log, and afterwards. */
  lemma {:induction false} ItemsTraced<S>(cfg: Config<S>, e: Engine<S>, items: seq<Item>)
    requires WalkItems(cfg, e, items).ok
    ensures e.ok && WalkItems(cfg, e, items).trace == e.trace + items
    decreases items
  {
    if items == [] {
      assert e.trace + [] == e.trace;
    } else if e.ok {
      ItemsTraced(cfg, Step(cfg, e, items[0]), items[1..]);
      assert e.trace + items == (e.trace + [items[0]]) + items[1..];
    }
  }

  lemma {:induction false} WalkTraced<S>(cfg: Config<S>, e: Engine<S>, logs: seq<RawLog>) returns (rest: seq<Item>)
    requires WalkP(cfg, e, logs).ok
    ensures e.ok && WalkP(cfg, e, logs).trace == e.trace + rest && forall x :: x in rest ==> x.log in logs
    decreases logs
  {
    rest := [];
    if logs == [] {
      assert e.trace + [] == e.trace;
    } else if e.ok {
      var items := FreshAt(cfg, e, logs[0]);
      var later := WalkTraced(cfg, WalkItems(cfg, e, items), logs[1..]);
      ItemsTraced(cfg, e, items);
      ActiveAtLog(cfg, e, logs[0]);
      rest := items + later;
      assert e.trace + rest == (e.trace + items) + later;
    }
  }

  /** Two walks that execute the same begin with the same items. */
  lemma SameHead<S>(cfg: Config<S>, e: Engine<S>, f: Engine<S>, logs: seq<RawLog>)
    requires logs != [] && Ordered(logs) && e.trace == f.trace
    requires WalkP(cfg, e, logs).ok && WalkP(cfg, f, logs).ok
    requires WalkP(cfg, e, logs).trace == WalkP(cfg, f, logs).trace
    ensures FreshAt(cfg, e, logs[0]) == FreshAt(cfg, f, logs[0])
  {
    var x, y := FreshAt(cfg, e, logs[0]), FreshAt(cfg, f, logs[0]);
    var none := WalkTraced(cfg, e, logs);
    none := WalkTraced(cfg, f, logs);
    var u := WalkTraced(cfg, WalkItems(cfg, e, x), logs[1..]);
    var v := WalkTraced(cfg, WalkItems(cfg, f, y), logs[1..]);
    ItemsTraced(cfg, e, x);
    ItemsTraced(cfg, f, y);
    ActiveAtLog(cfg, e, logs[0]);
    ActiveAtLog(cfg, f, logs[0]);
    forall z | z in u || z in v
      ensures z.log != logs[0]
    {
      var k :| 0 <= k < |logs[1..]| && logs[1..][k] == z.log;
      assert Before(logs[0].pos, logs[k + 1].pos);
    }
    HeadsEqual(e.trace, x, u, y, v, logs[0]);
  }

  lemma HeadsEqual(t: seq<Item>, x: seq<Item>, u: seq<Item>, y: seq<Item>, v: seq<Item>, l: RawLog)
    requires t + x + u == t + y + v
    requires (forall z :: z in x || z in y ==> z.log == l) && forall z :: z in u || z in v ==> z.log != l
    ensures x == y
  {
    assert x + u == (t + x + u)[|t|..] == (t + y + v)[|t|..] == y + v;
    NotLonger(x, u, y, v, l);
    NotLonger(y, v, x, u, l);
    assert x == (x + u)[..|x|] && y == (y + v)[..|y|];
  }

  lemma NotLonger(x: seq<Item>, u: seq<Item>, y: seq<Item>, v: seq<Item>, l: RawLog)
    requires x + u == y + v && (forall z :: z in x ==> z.log == l) && forall z :: z in v ==> z.log != l
    ensures |x| <= |y|
  {
    if |y| < |x| {
      InFirst(x, u, |y|);
      InSecond(y, v, |y|);
    }
  }

  lemma InFirst(x: seq<Item>, u: seq<Item>, k: nat)
    requires k < |x|
    ensures (x + u)[k] in x
  {
    assert (x + u)[k] == x[k];
  }

  lemma InSecond(y: seq<Item>, v: seq<Item>, k: nat)
    requires |y| <= k < |y + v|
    ensures (y + v)[k] in v
  {
    assert (y + v)[k] == v[k - |y|];
  }

  /** Where they do not, the walks part. */
  lemma {:induction false} WalksPart<S>(cfg: Config<S>, e: Engine<S>, f: Engine<S>, a: seq<Source>, b: seq<Source>,
                                        logs: seq<RawLog>)
    requires Exchanged(e, f, a, b) && Ordered(logs) && WalkP(cfg, e, logs).ok
    requires ViewOf(WalkP(cfg, f, logs)) == ViewOf(WalkP(cfg, e, logs))
    ensures SameWork(a, b, e.processed, logs)
    decreases logs
  {
    if logs != [] {
      SameHead(cfg, e, f, logs);
      SameFresh(cfg, e, f, a, b, logs[0]);
      var items := FreshAt(cfg, e, logs[0]);
      ItemsExchanged(cfg, e, f, a, b, items);
      var none := WalkTraced(cfg, e, logs);
      WalksPart(cfg, WalkItems(cfg, e, items), WalkItems(cfg, f, items), a, b, logs[1..]);
      LaterWork(cfg, e, logs, a, b);
      forall l | l in logs
        ensures Fresh(ItemsAt(a, l), e.processed) == Fresh(ItemsAt(b, l), e.processed)
      {
        assert l == logs[0] || l in logs[1..];
      }
    }
  }

  // ----- reloading -----

  /** For every handler: reloading the sources from a snapshot changes nothing of a walk that does not fail
      exactly when, at every log of it, the sorted sources have the same items to run as the unsorted ones. */
  lemma ReloadExact<S>(cfg: Config<S>, e: Engine<S>, logs: seq<RawLog>)
    requires Wf(cfg, e) && Ordered(logs) && WalkP(cfg, e, logs).ok
    ensures ViewOf(WalkP(cfg, e.(dyn := Persist(e.dyn)), logs)) == ViewOf(WalkP(cfg, e, logs))
       <==> SameWork(e.dyn, Persist(e.dyn), e.processed, logs)
  {
    var f := e.(dyn := Persist(e.dyn));
    PersistTwice(e.dyn);
    assert Exchanged(e, f, e.dyn, f.dyn) by {
      assert e.dyn[|e.dyn|..] == [] && f.dyn + [] == f.dyn;
    }
    if SameWork(e.dyn, f.dyn, e.processed, logs) {
      WalksTogether(cfg, e, f, e.dyn, f.dyn, logs);
    } else if ViewOf(WalkP(cfg, f, logs)) == ViewOf(WalkP(cfg, e, logs)) {
      WalksPart(cfg, e, f, e.dyn, f.dyn, logs);
    }
  }

  /** Sources with an address each, and no log at or before the one that created them, have the same to run. */
  lemma ApartReload<S>(cfg: Config<S>, e: Engine<S>, logs: seq<RawLog>)
    requires Wf(cfg, e) && Apart(Persist(e.dyn)) && OnlyLater(e.dyn, logs)
    ensures SameWork(e.dyn, Persist(e.dyn), e.processed, logs)
  {
    var p := Persist(e.dyn);
    PersistTwice(e.dyn);
    forall s, t, l | s in e.dyn && t in p && l in logs ensures TwinAt(s, t, l) { }
    forall l | l in logs ensures ItemsAt(e.dyn, l) == ItemsAt(p, l) { SameItems(e.dyn, p, l, logs); }
  }

  /** So a deployment whose pass stopped early is still on the way to the reference exactly then. */
  lemma StopExact<S>(cfg: Config<S>, chain: seq<RawLog>, first: nat, initial: S, e: Engine<S>, args: PassArgs, t: nat)
    requires Ordered(chain) && GoodState(cfg, chain, first, initial, e, LowerBound(args.from))
    requires LowerBound(args.from) <= args.to <= t && first <= t + 1
    requires Behind(cfg, chain, e, LowerBound(args.from), t) && Reference(cfg, chain, first, initial, t).ok
    requires Pass(cfg, chain, args, e).halt != Running
    ensures var r := Pass(cfg, chain, args, e);
            var logs := LogsIn(chain, LowerBound(args.from), t);
            ViewOf(WalkP(cfg, Reloaded(r), logs)) == Reference(cfg, chain, first, initial, t)
            <==> SameWork(r.eng.dyn, Persist(r.eng.dyn), r.eng.processed, logs)
  {
    var r := Pass(cfg, chain, args, e);
    var logs := LogsIn(chain, LowerBound(args.from), t);
    LogsInOrdered(chain, LowerBound(args.from), t);
    ContinueStopped(cfg, chain, e, args, t);
    assert Reloaded(r) == r.eng.(dyn := Persist(r.eng.dyn));
    ReloadExact(cfg, r.eng, logs);
  }

  /** The same when the processed set is forgotten too. */
  lemma ForgetExact<S>(cfg: Config<S>, chain: seq<RawLog>, x: Engine<S>, y: Engine<S>, b: nat, next: nat, t: nat)
    requires y == Engine(x.store, Persist(x.dyn), x.trace, {}, x.ok)
    requires Ordered(chain) && Wf(cfg, x) && Within(x, b) && next == b + 1 && WalkP(cfg, x, LogsIn(chain, next, t)).ok
    ensures ViewOf(WalkP(cfg, y, LogsIn(chain, next, t))) == ViewOf(WalkP(cfg, x, LogsIn(chain, next, t)))
       <==> SameWork(x.dyn, Persist(x.dyn), {}, LogsIn(chain, next, t))
  {
    var clean := x.(processed := {});
    ForgetProcessed(cfg, chain, x, next, t);
    LogsInOrdered(chain, next, t);
    assert y == clean.(dyn := Persist(clean.dyn));
    ReloadExact(cfg, clean, LogsIn(chain, next, t));
  }

  /** And one whose pass completed. */
  lemma CompleteExact<S>(cfg: Config<S>, chain: seq<RawLog>, first: nat, initial: S, e: Engine<S>, args: PassArgs,
                         r: Run<S>, next: nat, t: nat)
    requires Ordered(chain) && GoodState(cfg, chain, first, initial, e, LowerBound(args.from))
    requires LowerBound(args.from) <= args.to <= t && first <= t + 1 && next == args.to + 1
    requires Behind(cfg, chain, e, LowerBound(args.from), args.to) && Reference(cfg, chain, first, initial, t).ok
    requires r == Pass(cfg, chain, args, e) && r.halt == Running
    ensures ViewOf(WalkP(cfg, Reloaded(r), LogsIn(chain, next, t))) == Reference(cfg, chain, first, initial, t)
       <==> SameWork(r.eng.dyn, Persist(r.eng.dyn), {}, LogsIn(chain, next, t))
  {
    PassBounded(cfg, chain, e, args, args.to);
    LeadsOn(cfg, chain, first, initial, e, args, r, next, t);
    ForgetExact(cfg, chain, r.eng, Reloaded(r), args.to, next, t);
  }

  lemma LeadsOn<S>(cfg: Config<S>, chain: seq<RawLog>, first: nat, initial: S, e: Engine<S>, args: PassArgs, r: Run<S>,
                   next: nat, t: nat)
    requires Ordered(chain) && GoodState(cfg, chain, first, initial, e, LowerBound(args.from))
    requires LowerBound(args.from) <= args.to <= t && first <= t + 1 && next == args.to + 1
    requires Behind(cfg, chain, e, LowerBound(args.from), args.to)
    requires r == Pass(cfg, chain, args, e) && r.halt == Running
    ensures ViewOf(WalkP(cfg, r.eng, LogsIn(chain, next, t))) == Reference(cfg, chain, first, initial, t)
  {
    assert Behind(cfg, chain, e, LowerBound(args.from), t);
    ContinueStopped(cfg, chain, e, args, t);
  }
}
