/** Queries at a past block: `select_snapshot_for_field` on the history that complete passes retain. */
module TimeTravel {
  import opened ChainModel
  import opened Streaming
  import opened Replay
  import opened Resume
  import opened HistoryWindow
  import opened Sync
  import opened Runs

  /** What a query reads: entities and dynamic sources. */
  datatype Moment<+S> = Moment(store: S, sources: seq<Source>)

  function MomentOf<S>(e: Engine<S>): Moment<S> {
    Moment(e.store, Persist(e.dyn))
  }

  function At<S>(e: Entry<S>): Moment<S> {
    Moment(e.store, e.sources)
  }

  // ----- the query -----

  /** The newest entry at or before a block, searched from the newest on. */
  function FindAt<S>(h: seq<Entry<S>>, number: nat): Option<Entry<S>>
    decreases h
  {
    if h == [] then None
    else if h[|h| - 1].to <= number then Some(h[|h| - 1])
    else FindAt(h[..|h| - 1], number)
  }

  /** The state a query at block `number` reads; before the retained history it reads no entities. */
  function SelectAt<S>(s: Snapshot<S>, empty: S, number: nat): Result<Moment<S>> {
    if number > s.to then Err
    else if s.to <= number then Ok(Moment(s.store, s.sources))
    else
      var e := FindAt(s.history, number);
      Ok(if e.Some? then At(e.value) else Moment(empty, []))
  }

  // ----- looking up in an ordered list of entries -----

  ghost predicate NonDecreasing<S>(h: seq<Entry<S>>) {
    forall i, j :: 0 <= i < j < |h| ==> h[i].to <= h[j].to
  }

  function Lookup<S>(h: seq<Entry<S>>, n: nat, before: Moment<S>): Moment<S>
    decreases h
  {
    if h == [] || h[0].to > n then before else Lookup(h[1..], n, At(h[0]))
  }

  lemma {:induction false} LookupNone<S>(h: seq<Entry<S>>, n: nat, before: Moment<S>)
    requires forall e :: e in h ==> e.to > n
    ensures Lookup(h, n, before) == before
  {
    if h != [] { assert h[0] in h; }
  }

  lemma {:induction false} LookupSnoc<S>(h: seq<Entry<S>>, e: Entry<S>, n: nat, before: Moment<S>)
    requires NonDecreasing(h) && forall x :: x in h ==> x.to <= e.to
    ensures Lookup(h + [e], n, before) == if e.to <= n then At(e) else Lookup(h, n, before)
    decreases h
  {
    if h == [] {
      assert h + [e] == [e];
    } else {
      assert h[0] in h && (h + [e])[1..] == h[1..] + [e];
      LookupSnoc(h[1..], e, n, At(h[0]));
    }
  }

  /** Searching from the newest entry finds what looking up from the oldest does. */
  lemma {:induction false} FindIsLookup<S>(h: seq<Entry<S>>, n: nat, before: Moment<S>)
    requires NonDecreasing(h)
    ensures Lookup(h, n, before) == (var e := FindAt(h, n); if e.Some? then At(e.value) else before)
    decreases h
  {
    if h != [] {
      var front, last := h[..|h| - 1], h[|h| - 1];
      assert h == front + [last];
      forall x | x in front ensures x.to <= last.to { var k :| 0 <= k < |front| && front[k] == x; }
      LookupSnoc(front, last, n, before);
      FindIsLookup(front, n, before);
    }
  }

  lemma {:induction false} PlaceLookup<S>(h: seq<Entry<S>>, e: Entry<S>, n: nat, before: Moment<S>)
    requires Increasing(h) && forall x :: x in h ==> x.to <= e.to
    ensures Lookup(Place(h, e), n, before) == if e.to <= n then At(e) else Lookup(h, n, before)
    ensures Place(h, e) != [] && Place(h, e)[|Place(h, e)| - 1] == e
    decreases h
  {
    if h != [] {
      forall k | 0 <= k < |h| ensures h[k].to <= e.to { assert h[k] in h; }
      assert |h| > 1 ==> h[0].to < h[1].to;
      if h[0].to == e.to {
        assert Place(h, e) == [e];
      } else {
        PlaceLookup(h[1..], e, n, At(h[0]));
      }
    }
  }

  /** Pushing newer and newer entries adds their lookups after the old ones. */
  lemma {:induction false} PushLookup<S>(h: seq<Entry<S>>, es: seq<Entry<S>>, n: nat, before: Moment<S>)
    requires Increasing(h) && NonDecreasing(es) && es != []
    requires forall x :: x in h ==> x.to <= es[0].to
    ensures var all := PushAll(h, es, 0);
            && Lookup(all, n, before) == Lookup(es, n, Lookup(h, n, before))
            && Increasing(all) && all != [] && all[|all| - 1] == es[|es| - 1]
    decreases es
  {
    var g, later := Place(h, es[0]), es[1..];
    PushStep(h, es[0], 0);
    PlaceLookup(h, es[0], n, before);
    if later != [] {
      PlaceBelow(h, es[0], es[1].to);
      PushLookup(g, later, n, before);
      if es[0].to > n { LookupPast(es, n, Lookup(h, n, before)); }
    }
  }

  lemma PlaceBelow<S>(h: seq<Entry<S>>, e: Entry<S>, bound: nat)
    requires Increasing(h) && e.to <= bound && forall x :: x in h ==> x.to <= bound
    ensures forall x :: x in Place(h, e) ==> x.to <= bound
  {
    forall x | x in Place(h, e) ensures x.to <= bound { PlaceMember(h, e, x); }
  }

  lemma LookupPast<S>(es: seq<Entry<S>>, n: nat, before: Moment<S>)
    requires NonDecreasing(es) && es != [] && es[0].to > n
    ensures Lookup(es[1..], n, before) == before
  {
    forall x | x in es[1..]
      ensures x.to > n
    {
      var k :| 0 <= k < |es[1..]| && es[1..][k] == x;
      assert es[0].to <= es[k + 1].to;
    }
    LookupNone(es[1..], n, before);
  }

  /** Dropping old entries does not change lookups from the first kept one on. */
  lemma {:induction false} NewestLookup<S>(all: seq<Entry<S>>, kept: seq<Entry<S>>, n: nat, before: Moment<S>,
                                           other: Moment<S>)
    requires Increasing(all) && kept != [] && |kept| <= |all| && kept == all[|all| - |kept|..]
    requires kept[0].to <= n
    ensures Lookup(all, n, before) == Lookup(kept, n, other)
    decreases all
  {
    if |kept| == |all| {
      assert kept == all;
    } else {
      assert all[0].to < all[|all| - |kept|].to;
      assert kept == all[1..][|all[1..]| - |kept|..];
      NewestLookup(all[1..], kept, n, At(all[0]), other);
    }
  }

  // ----- what one pass records -----

  function UpToLogs(logs: seq<RawLog>, n: nat): seq<RawLog> {
    if logs == [] || logs[0].pos.block > n then [] else [logs[0]] + UpToLogs(logs[1..], n)
  }

  lemma {:induction false} UpToRange(chain: seq<RawLog>, from: nat, n: nat, to: nat)
    requires Ordered(chain) && n <= to
    ensures UpToLogs(LogsIn(chain, from, to), n) == LogsIn(chain, from, n)
  {
    if chain != [] {
      UpToRange(chain[1..], from, n, to);
      var rest := LogsIn(chain[1..], from, to);
      if InRange(chain[0], from, to) {
        assert LogsIn(chain, from, to) == [chain[0]] + rest;
        assert ([chain[0]] + rest)[1..] == rest;
        if chain[0].pos.block > n {
          forall l | l in chain[1..]
            ensures l.pos.block > n
          {
            var k :| 0 <= k < |chain[1..]| && chain[1..][k] == l;
            assert Before(chain[0].pos, chain[k + 1].pos);
          }
          LogsInEmpty(chain[1..], from, n, n + 1);
        }
      } else {
        assert LogsIn(chain, from, to) == rest;
      }
    }
  }

  /** The entries a run pushes. */
  ghost function Pushed<S>(cfg: Config<S>, args: PassArgs, r: Run<S>, logs: seq<RawLog>): seq<Entry<S>>
    decreases logs
  {
    if r.halt != Running || logs == [] then []
    else
      var s := RunItems(cfg, args, r, FreshAt(cfg, r.eng, logs[0]));
      var c := Close(args, s, logs);
      (if c == s then [] else [BlockEntry(args, s.eng, logs[0].pos.block)]) + Pushed(cfg, args, c, logs[1..])
  }

  lemma {:induction false} HistoryPushed<S>(cfg: Config<S>, args: PassArgs, r: Run<S>, logs: seq<RawLog>)
    ensures RunLogs(cfg, args, r, logs).history == r.history + Pushed(cfg, args, r, logs)
    decreases logs
  {
    if r.halt == Running && logs != [] {
      ItemsKeepHistory(cfg, args, r, FreshAt(cfg, r.eng, logs[0]));
      var s := RunItems(cfg, args, r, FreshAt(cfg, r.eng, logs[0]));
      var c, rest := Close(args, s, logs), logs[1..];
      HistoryPushed(cfg, args, c, rest);
      Associates(r.history, if c == s then [] else [BlockEntry(args, s.eng, logs[0].pos.block)],
                 Pushed(cfg, args, c, rest));
    }
  }

  lemma Associates<E>(a: seq<E>, b: seq<E>, c: seq<E>)
    ensures (a + b) + c == a + (b + c)
    ensures a + [] == a
  {
  }

  lemma CloseChanges<S>(args: PassArgs, s: Run<S>, logs: seq<RawLog>)
    requires logs != []
    ensures Close(args, s, logs) != s <==> s.halt == Running && EndsBlock(logs) && s.last == Some(logs[0].pos.block)
    ensures var c := Close(args, s, logs); c.eng == s.eng && c.halt == s.halt && c.last == s.last
  {
    if s.halt == Running && EndsBlock(logs) && s.last == Some(logs[0].pos.block) {
      assert |Close(args, s, logs).history| == |s.history| + 1;
    }
  }

  /** One log of a pass that is not stopped: the run after it, and what it pushes there. */
  lemma PushedStep<S>(cfg: Config<S>, args: PassArgs, r: Run<S>, logs: seq<RawLog>)
    returns (c: Run<S>, head: seq<Entry<S>>)
    requires logs != [] && r.halt == Running && r.eng.ok && Wf(cfg, r.eng)
    requires RunLogs(cfg, args, r, logs).halt == Running
    ensures c.halt == Running && c.eng.ok && Wf(cfg, c.eng)
    ensures c.eng == WalkItems(cfg, r.eng, FreshAt(cfg, r.eng, logs[0]))
    ensures RunLogs(cfg, args, c, logs[1..]) == RunLogs(cfg, args, r, logs)
    ensures Pushed(cfg, args, r, logs) == head + Pushed(cfg, args, c, logs[1..])
    ensures head == [] || (&& head == [head[0]] && head[0].to == logs[0].pos.block
                           && At(head[0]) == MomentOf(c.eng) && EndsBlock(logs))
    ensures r.last == Some(logs[0].pos.block) || FreshAt(cfg, r.eng, logs[0]) != [] ==>
              c.last == Some(logs[0].pos.block)
    ensures c.last == Some(logs[0].pos.block) && EndsBlock(logs) ==> head != []
  {
    RunOneLog(cfg, args, r, logs[0]);
    var s := RunItems(cfg, args, r, FreshAt(cfg, r.eng, logs[0]));
    assert s.halt == Running;
    CloseChanges(args, s, logs);
    c := Close(args, s, logs);
    head := if c == s then [] else [BlockEntry(args, s.eng, logs[0].pos.block)];
  }

  /** The entries lie in blocks of the logs, in order; a block in which something ran gets one. */
  ghost predicate WellPushed<S>(p: seq<Entry<S>>, logs: seq<RawLog>, last: Option<nat>) {
    && Increasing(p)
    && (forall k :: 0 <= k < |p| ==> HasBlock(logs, p[k].to))
    && (logs != [] ==> forall k :: 0 <= k < |p| ==> logs[0].pos.block <= p[k].to)
    && (logs != [] && last == Some(logs[0].pos.block) ==> p != [] && p[0].to == logs[0].pos.block)
  }

  ghost predicate HasBlock(logs: seq<RawLog>, b: nat) {
    exists l :: l in logs && l.pos.block == b
  }

  lemma WellPushedStep<S>(p: seq<Entry<S>>, head: seq<Entry<S>>, tail: seq<Entry<S>>, logs: seq<RawLog>,
                          last: Option<nat>, after: Option<nat>)
    requires logs != [] && Ordered(logs) && p == head + tail && WellPushed(tail, logs[1..], after)
    requires head == [] || (head == [head[0]] && head[0].to == logs[0].pos.block && EndsBlock(logs))
    requires last == Some(logs[0].pos.block) ==> after == Some(logs[0].pos.block)
    requires after == Some(logs[0].pos.block) && EndsBlock(logs) ==> head != []
    ensures WellPushed(p, logs, last)
  {
    var rest := logs[1..];
    assert logs == [logs[0]] + rest;
    if rest != [] { assert Before(logs[0].pos, logs[1].pos) && rest[0] == logs[1]; }
    assert logs[0] in logs;
    forall k | 0 <= k < |tail|
      ensures HasBlock(logs, tail[k].to) && rest != []
    {
      assert HasBlock(rest, tail[k].to);
      var m :| m in rest && m.pos.block == tail[k].to;
      assert m in logs;
    }
  }

  lemma {:induction false} PushedShape<S>(cfg: Config<S>, args: PassArgs, r: Run<S>, logs: seq<RawLog>)
    requires r.halt == Running && r.eng.ok && Wf(cfg, r.eng) && Ordered(logs)
    requires RunLogs(cfg, args, r, logs).halt == Running
    ensures WellPushed(Pushed(cfg, args, r, logs), logs, r.last)
    decreases logs
  {
    if logs != [] {
      var c, head := PushedStep(cfg, args, r, logs);
      PushedShape(cfg, args, c, logs[1..]);
      WellPushedStep(Pushed(cfg, args, r, logs), head, Pushed(cfg, args, c, logs[1..]), logs, r.last, c.last);
    }
  }

  /** The arithmetic of one log: `p` is what was pushed at it and after it, `here` the state after it. */
  lemma LookupStep<S>(p: seq<Entry<S>>, head: seq<Entry<S>>, tail: seq<Entry<S>>, n: nat, block: nat, before: Moment<S>,
                      here: Moment<S>)
    requires p == head + tail && block <= n
    requires head == [] || (head == [head[0]] && head[0].to == block && At(head[0]) == here)
    requires head == [] ==> before == here || (tail != [] && tail[0].to == block)
    ensures Lookup(p, n, before) == Lookup(tail, n, here)
  {
    if head == [] {
      assert p == tail;
    } else {
      assert p[1..] == tail && p[0] == head[0];
    }
  }

  lemma UpToStep<S>(cfg: Config<S>, e: Engine<S>, logs: seq<RawLog>, n: nat, f: Engine<S>)
    requires logs != [] && logs[0].pos.block <= n && e.ok && f == WalkItems(cfg, e, FreshAt(cfg, e, logs[0]))
    ensures WalkP(cfg, e, UpToLogs(logs, n)) == WalkP(cfg, f, UpToLogs(logs[1..], n))
  {
    var some := UpToLogs(logs, n);
    assert some[0] == logs[0] && some[1..] == UpToLogs(logs[1..], n);
  }

  lemma UpToNone<S>(cfg: Config<S>, e: Engine<S>, logs: seq<RawLog>, n: nat)
    requires logs == [] || logs[0].pos.block > n
    ensures WalkP(cfg, e, UpToLogs(logs, n)) == e
  {
  }

  /** Looking up a block in what a pass pushed gives the state of the walk up to that block. */
  lemma {:induction false} PushedLookup<S>(cfg: Config<S>, args: PassArgs, r: Run<S>, logs: seq<RawLog>, n: nat)
    requires r.halt == Running && r.eng.ok && Wf(cfg, r.eng) && Ordered(logs)
    requires RunLogs(cfg, args, r, logs).halt == Running
    ensures Lookup(Pushed(cfg, args, r, logs), n, MomentOf(r.eng)) == MomentOf(WalkP(cfg, r.eng, UpToLogs(logs, n)))
    decreases logs
  {
    var p := Pushed(cfg, args, r, logs);
    PushedShape(cfg, args, r, logs);
    if logs == [] || logs[0].pos.block > n {
      UpToNone(cfg, r.eng, logs, n);
      LookupNone(p, n, MomentOf(r.eng));
    } else {
      var rest := logs[1..];
      var c, head := PushedStep(cfg, args, r, logs);
      var tail := Pushed(cfg, args, c, rest);
      PushedShape(cfg, args, c, rest);
      PushedLookup(cfg, args, c, rest, n);
      UpToStep(cfg, r.eng, logs, n, c.eng);
      LookupStep(p, head, tail, n, logs[0].pos.block, MomentOf(r.eng), MomentOf(c.eng));
    }
  }

  /** The whole pass: at every block it reaches, its entries give the state of the walk so far. */
  lemma PassLookup<S>(cfg: Config<S>, chain: seq<RawLog>, args: PassArgs, e: Engine<S>, n: nat)
    requires Ordered(chain) && e.ok && Wf(cfg, e) && n <= args.to
    requires Pass(cfg, chain, args, e).halt == Running
    ensures Lookup(Pass(cfg, chain, args, e).history, n, MomentOf(e))
         == MomentOf(WalkP(cfg, e, LogsIn(chain, LowerBound(args.from), n)))
  {
    var logs := PassLogs(chain, args);
    LogsInOrdered(chain, LowerBound(args.from), args.to);
    HistoryPushed(cfg, args, StartRun(e), logs);
    PushedLookup(cfg, args, StartRun(e), logs, n);
    UpToRange(chain, LowerBound(args.from), n, args.to);
    assert [] + Pushed(cfg, args, StartRun(e), logs) == Pushed(cfg, args, StartRun(e), logs);
  }

  lemma PassEntries<S>(cfg: Config<S>, chain: seq<RawLog>, args: PassArgs, e: Engine<S>)
    requires Ordered(chain) && e.ok && Wf(cfg, e)
    requires Pass(cfg, chain, args, e).halt == Running
    ensures var h := Pass(cfg, chain, args, e).history;
            Increasing(h) && forall x :: x in h ==> LowerBound(args.from) <= x.to <= args.to
  {
    var logs := PassLogs(chain, args);
    LogsInOrdered(chain, LowerBound(args.from), args.to);
    HistoryPushed(cfg, args, StartRun(e), logs);
    PushedShape(cfg, args, StartRun(e), logs);
    assert [] + Pushed(cfg, args, StartRun(e), logs) == Pushed(cfg, args, StartRun(e), logs);
    forall x | x in Pass(cfg, chain, args, e).history
      ensures LowerBound(args.from) <= x.to <= args.to
    {
      assert HasBlock(logs, x.to);
      var l :| l in logs && l.pos.block == x.to;
      LogsInMember(chain, LowerBound(args.from), args.to, l);
    }
  }

  // ----- runs of complete passes -----

  function ReferenceMoment<S>(cfg: Config<S>, chain: seq<RawLog>, first: nat, initial: S, n: nat): Moment<S> {
    var v := Reference(cfg, chain, first, initial, n);
    Moment(v.store, v.sources)
  }

  /** The lookups of a history are right for every block up to `to`: all of them, or, once old entries
      have been dropped, those from its first entry on. */
  ghost predicate Right<S>(cfg: Config<S>, chain: seq<RawLog>, first: nat, initial: S, h: seq<Entry<S>>, to: nat,
                           all: bool)
  {
    forall n: nat :: n <= to && (all || (h != [] && h[0].to <= n)) ==>
      Lookup(h, n, Moment(initial, [])) == ReferenceMoment(cfg, chain, first, initial, n)
  }

  /** The newest block of a history. */
  function Top<S>(h: seq<Entry<S>>): nat
    requires h != []
  {
    h[|h| - 1].to
  }

  /** A complete snapshot whose history answers for every retained block.  After a cycle that was told to end
      before its checkpoint, the history goes on past the new one; no source has a log there. */
  ghost predicate Travels<S>(cfg: Config<S>, chain: seq<RawLog>, first: nat, initial: S, s: Snapshot<S>, all: bool) {
    && s.complete && Increasing(s.history) && s.history != [] && s.to <= Top(s.history)
    && Right(cfg, chain, first, initial, s.history, Top(s.history), all)
    && Quiet(cfg.statics + s.sources, chain, s.to, Top(s.history) + 1)
  }

  /** A complete pass from a good state: its entries and its end answer for the blocks it covers. */
  lemma PassRight<S>(cfg: Config<S>, chain: seq<RawLog>, first: nat, initial: S, e: Engine<S>, args: PassArgs,
                     seen: nat, current: Entry<S>, n: nat)
    requires Ordered(chain) && GoodState(cfg, chain, first, initial, e, LowerBound(args.from))
    requires Behind(cfg, chain, e, LowerBound(args.from), seen) && first <= seen + 1 && seen <= n <= args.to
    requires Pass(cfg, chain, args, e).halt == Running
    requires current.to == args.to && At(current) == MomentOf(Pass(cfg, chain, args, e).eng)
    ensures Lookup(Pass(cfg, chain, args, e).history + [current], n, MomentOf(e))
            == ReferenceMoment(cfg, chain, first, initial, n)
  {
    var h := Pass(cfg, chain, args, e).history;
    assert Behind(cfg, chain, e, LowerBound(args.from), n);
    PassEntries(cfg, chain, args, e);
    LookupSnoc(h, current, n, MomentOf(e));
    if n == args.to {
      PassEnd(cfg, chain, args, e);
    } else {
      PassLookup(cfg, chain, args, e, n);
    }
  }

  lemma PassEnd<S>(cfg: Config<S>, chain: seq<RawLog>, args: PassArgs, e: Engine<S>)
    requires Ordered(chain) && Wf(cfg, e) && e.ok
    requires Pass(cfg, chain, args, e).halt == Running
    ensures Pass(cfg, chain, args, e).eng == WalkP(cfg, e, LogsIn(chain, LowerBound(args.from), args.to))
  {
    LogsInOrdered(chain, LowerBound(args.from), args.to);
    RunContinues(cfg, args, StartRun(e), PassLogs(chain, args));
  }

  /** What is added to the history is right for the blocks not before `from`. */
  ghost predicate RightFrom<S>(cfg: Config<S>, chain: seq<RawLog>, first: nat, initial: S, news: seq<Entry<S>>,
                               before: Moment<S>, from: nat, to: nat)
  {
    forall n: nat :: from <= n <= to ==> Lookup(news, n, before) == ReferenceMoment(cfg, chain, first, initial, n)
  }

  /** Dropping old entries keeps the rest right. */
  lemma TrimRight<S>(cfg: Config<S>, chain: seq<RawLog>, first: nat, initial: S, whole: seq<Entry<S>>, to: nat,
                     limit: nat, all: bool)
    requires Increasing(whole) && whole != [] && Right(cfg, chain, first, initial, whole, to, all)
    ensures Right(cfg, chain, first, initial, Newest(whole, limit), to, all && limit == 0)
  {
    var kept := Newest(whole, limit);
    NewestShape(whole, limit);
    if |kept| < |whole| { assert whole[0].to < whole[|whole| - |kept|].to; }
    forall n: nat | n <= to && ((all && limit == 0) || kept[0].to <= n)
      ensures Lookup(kept, n, Moment(initial, [])) == ReferenceMoment(cfg, chain, first, initial, n)
    {
      if kept[0].to <= n {
        NewestLookup(whole, kept, n, Moment(initial, []), Moment(initial, []));
      }
    }
  }

  /** Putting an entry into a history no further than its newest block. */
  lemma {:induction false} PlaceWithin<S>(h: seq<Entry<S>>, e: Entry<S>, n: nat, before: Moment<S>)
    requires Increasing(h) && h != [] && e.to <= Top(h)
    ensures var g := Place(h, e);
            && g != [] && Top(g) == Top(h) && g[0].to <= h[0].to && (g[0].to < h[0].to ==> g[0].to == e.to)
            && (n < e.to ==> Lookup(g, n, before) == Lookup(h, n, before))
            && (e.to <= n ==> Lookup(g, n, before) == At(e)
                              || (h[0].to <= n && Lookup(g, n, before) == Lookup(h, n, before)))
    decreases h
  {
    if h[0].to < e.to {
      assert h[|h| - 1] == h[1..][|h[1..]| - 1];
      PlaceWithin(h[1..], e, n, At(h[0]));
    } else if |h| > 1 {
      assert h[0].to < h[1].to;
    }
  }

  /** From block `from` to block `to` the reference stays at this moment. */
  ghost predicate Still<S>(cfg: Config<S>, chain: seq<RawLog>, first: nat, initial: S, m: Moment<S>, from: nat, to: nat)
  {
    forall n: nat :: from <= n <= to ==> ReferenceMoment(cfg, chain, first, initial, n) == m
  }

  /** Putting in an entry of a stretch of blocks in which nothing happens. */
  lemma PlaceRight<S>(cfg: Config<S>, chain: seq<RawLog>, first: nat, initial: S, h: seq<Entry<S>>, e: Entry<S>,
                      all: bool)
    requires Increasing(h) && h != [] && e.to <= Top(h) && Right(cfg, chain, first, initial, h, Top(h), all)
    requires Still(cfg, chain, first, initial, At(e), e.to, Top(h))
    ensures var g := Place(h, e);
            Increasing(g) && g != [] && Top(g) == Top(h) && Right(cfg, chain, first, initial, g, Top(h), all)
  {
    var g := Place(h, e);
    PushStep(h, e, 0);
    PlaceWithin(h, e, 0, Moment(initial, []));
    forall n: nat | n <= Top(h) && (all || g[0].to <= n)
      ensures Lookup(g, n, Moment(initial, [])) == ReferenceMoment(cfg, chain, first, initial, n)
    {
      PlaceWithin(h, e, n, Moment(initial, []));
    }
  }

  /** Adding what lies past the newest block of a history. */
  lemma WholeRight<S>(cfg: Config<S>, chain: seq<RawLog>, first: nat, initial: S, h: seq<Entry<S>>, news: seq<Entry<S>>,
                      m: Moment<S>, all: bool)
    requires Increasing(h) && h != [] && Right(cfg, chain, first, initial, h, Top(h), all)
    requires NonDecreasing(news) && news != [] && forall x :: x in news ==> Top(h) < x.to
    requires RightFrom(cfg, chain, first, initial, news, m, Top(h), Top(news))
    requires ReferenceMoment(cfg, chain, first, initial, Top(h)) == m
    ensures var whole := PushAll(h, news, 0);
            && Increasing(whole) && whole != [] && Top(whole) == Top(news)
            && Right(cfg, chain, first, initial, whole, Top(news), all)
  {
    var whole := PushAll(h, news, 0);
    forall k | 0 <= k < |h| ensures h[0].to <= h[k].to <= Top(h) { }
    assert news[0] in news;
    PushLookup(h, news, 0, Moment(initial, []));
    WholeHead(h, news);
    forall n: nat | n <= Top(news) && (all || whole[0].to <= n)
      ensures Lookup(whole, n, Moment(initial, [])) == ReferenceMoment(cfg, chain, first, initial, n)
    {
      PushLookup(h, news, n, Moment(initial, []));
      if n <= Top(h) {
        LookupNone(news, n, Lookup(h, n, Moment(initial, [])));
      } else {
        LookupEnd(h, n, Moment(initial, []));
        LookupEnd(h, Top(h), Moment(initial, []));
      }
    }
  }

  lemma LookupEnd<S>(h: seq<Entry<S>>, n: nat, before: Moment<S>)
    requires Increasing(h) && h != [] && Top(h) <= n
    ensures Lookup(h, n, before) == At(h[|h| - 1])
  {
    FindIsLookup(h, n, before);
  }

  /** The first entry of the merged list is the old first one. */
  lemma {:induction false} WholeHead<S>(h: seq<Entry<S>>, es: seq<Entry<S>>)
    requires Increasing(h) && h != [] && forall x :: x in es ==> h[0].to <= x.to
    ensures PushAll(h, es, 0) != [] && PushAll(h, es, 0)[0].to == h[0].to
    decreases es
  {
    if es != [] {
      PushStep(h, es[0], 0);
      assert es[0] in es;
      WholeHead(Place(h, es[0]), es[1..]);
    }
  }

  // ----- cycles -----

  /** A pass over blocks in which no source has a log. */
  lemma {:induction false} IdleRun<S>(cfg: Config<S>, args: PassArgs, r: Run<S>, logs: seq<RawLog>)
    requires r.last.None? && forall l :: l in logs ==> FreshAt(cfg, r.eng, l) == []
    ensures RunLogs(cfg, args, r, logs) == r
    decreases logs
  {
    if r.halt == Running && logs != [] {
      assert logs[0] in logs;
      IdleRun(cfg, args, r, logs[1..]);
    }
  }

  lemma QuietRun<S>(cfg: Config<S>, chain: seq<RawLog>, args: PassArgs, e: Engine<S>, from: nat, to: nat)
    requires forall s, l :: s in cfg.statics + e.dyn && l in chain && from <= l.pos.block <= to ==> !Filter(s, l)
    ensures RunLogs(cfg, args, StartRun(e), LogsIn(chain, from, to)) == StartRun(e)
  {
    forall l | l in LogsIn(chain, from, to)
      ensures FreshAt(cfg, e, l) == []
    {
      LogsInMember(chain, from, to, l);
      ItemsAtNone(cfg.statics + e.dyn, l);
    }
    IdleRun(cfg, args, StartRun(e), LogsIn(chain, from, to));
  }

  /** What a complete pass records lies past the blocks in which no source has a log. */
  lemma EntriesPast<S>(cfg: Config<S>, chain: seq<RawLog>, args: PassArgs, e: Engine<S>, start: nat, top: nat,
                       next: nat)
    requires Ordered(chain) && e.ok && Wf(cfg, e) && start == LowerBound(args.from) <= next && next == top + 1
    requires forall s, l :: s in cfg.statics + e.dyn && l in chain && start <= l.pos.block <= top ==> !Filter(s, l)
    requires top < args.to && Pass(cfg, chain, args, e).halt == Running
    ensures var h := Pass(cfg, chain, args, e).history;
            Increasing(h) && forall x :: x in h ==> top < x.to <= args.to
  {
    var quiet, logs := LogsIn(chain, start, top), LogsIn(chain, next, args.to);
    QuietRun(cfg, chain, args, e, start, top);
    LogsInSplit(chain, start, top, args.to);
    forall x, y | x in quiet && y in logs
      ensures x.pos.block != y.pos.block
    {
      LogsInMember(chain, start, top, x);
      LogsInMember(chain, next, args.to, y);
    }
    RunConcat(cfg, args, StartRun(e), quiet, logs);
    LogsInOrdered(chain, next, args.to);
    HistoryPushed(cfg, args, StartRun(e), logs);
    PushedShape(cfg, args, StartRun(e), logs);
    assert [] + Pushed(cfg, args, StartRun(e), logs) == Pushed(cfg, args, StartRun(e), logs);
    forall x | x in Pass(cfg, chain, args, e).history
      ensures top < x.to <= args.to
    {
      assert HasBlock(logs, x.to);
      var l :| l in logs && l.pos.block == x.to;
      LogsInMember(chain, next, args.to, l);
    }
  }

  lemma NewsOrdered<S>(h: seq<Entry<S>>, current: Entry<S>, top: nat)
    requires Increasing(h) && (forall x :: x in h ==> top < x.to <= current.to) && top < current.to
    ensures NonDecreasing(h + [current]) && forall x :: x in h + [current] ==> top < x.to
  {
    forall k | 0 <= k < |h| ensures top < h[k].to <= current.to { assert h[k] in h; }
  }

  /** What a complete pass adds to the history, with its end, is right for the blocks it covers. */
  lemma NewsRight<S>(cfg: Config<S>, chain: seq<RawLog>, first: nat, initial: S, e: Engine<S>, pa: PassArgs, seen: nat,
                     r: Run<S>, current: Entry<S>, before: Moment<S>)
    requires Ordered(chain) && GoodState(cfg, chain, first, initial, e, LowerBound(pa.from))
    requires Behind(cfg, chain, e, LowerBound(pa.from), seen) && first <= seen + 1 && seen <= pa.to
    requires r == Pass(cfg, chain, pa, e) && r.halt == Running
    requires current.to == pa.to && At(current) == MomentOf(r.eng) && before == MomentOf(e)
    ensures RightFrom(cfg, chain, first, initial, r.history + [current], before, seen, pa.to)
    ensures Increasing(r.history) && forall x :: x in r.history ==> LowerBound(pa.from) <= x.to <= pa.to
  {
    PassEntries(cfg, chain, pa, e);
    forall n: nat | seen <= n <= pa.to
      ensures Lookup(r.history + [current], n, before) == ReferenceMoment(cfg, chain, first, initial, n)
    {
      PassRight(cfg, chain, first, initial, e, pa, seen, current, n);
    }
  }

  /** The shape of a snapshot after a complete pass. */
  lemma NextShape<S>(previous: Option<Snapshot<S>>, args: SyncArgs, pa: PassArgs, r: Run<S>, next: Snapshot<S>)
    requires next == NextSnapshot(previous, args, pa, RunOf(r)) && r.halt == Running
    ensures next.complete && next.to == pa.to && EntryOf(next).to == pa.to && At(EntryOf(next)) == MomentOf(r.eng)
    ensures previous.None? ==> next.history == PushAll([], r.history + [EntryOf(next)], args.historyLimit)
    ensures previous.Some? ==>
              var news := r.history + [EntryOf(next)];
              next.history == PushAll(previous.value.history, [EntryOf(previous.value)] + news, args.historyLimit)
  {
    assert Incoming(None, r.history, EntryOf(next)) == r.history + [EntryOf(next)];
    if previous.Some? {
      assert Incoming(Some(EntryOf(previous.value)), r.history, EntryOf(next))
          == [EntryOf(previous.value)] + (r.history + [EntryOf(next)]);
    }
  }

  /** The blocks around a complete checkpoint in which nothing happens. */
  lemma StillHere<S>(cfg: Config<S>, chain: seq<RawLog>, first: nat, initial: S, s: Snapshot<S>, e: Engine<S>,
                     from: nat, top: nat)
    requires Ordered(chain) && s.complete && s.to < U64_MAX && e.store == s.store && e.dyn == s.sources
    requires GoodState(cfg, chain, first, initial, e, s.to + 1) && e.processed == {}
    requires first <= from + 1 && from <= s.to <= top && Quiet(cfg.statics + s.sources, chain, from, top + 1)
    ensures Still(cfg, chain, first, initial, At(EntryOf(s)), from, top)
  {
    PersistIdem(e.dyn);
    StillAll(cfg, chain, first, initial, e, s.to + 1, from, top, Moment(s.store, s.sources));
  }

  lemma StillAll<S>(cfg: Config<S>, chain: seq<RawLog>, first: nat, initial: S, e: Engine<S>, start: nat, from: nat,
                    top: nat, m: Moment<S>)
    requires Ordered(chain) && GoodState(cfg, chain, first, initial, e, start) && e.processed == {}
    requires first <= from + 1 && from < start <= top + 1 && Quiet(cfg.statics + e.dyn, chain, from, top + 1)
    requires m == MomentOf(e)
    ensures Still(cfg, chain, first, initial, m, from, top)
  {
    forall n: nat | from <= n <= top
      ensures ReferenceMoment(cfg, chain, first, initial, n) == m
    {
      StillAt(cfg, chain, first, initial, e, start, n);
    }
  }

  lemma StillAt<S>(cfg: Config<S>, chain: seq<RawLog>, first: nat, initial: S, e: Engine<S>, start: nat, n: nat)
    requires Ordered(chain) && GoodState(cfg, chain, first, initial, e, start) && e.processed == {} && first <= n + 1
    requires Quiet(cfg.statics + e.dyn, chain, n, start)
    requires forall s, l :: s in cfg.statics + e.dyn && l in chain && start <= l.pos.block <= n ==> !Filter(s, l)
    ensures Reference(cfg, chain, first, initial, n) == ViewOf(e)
  {
    assert Behind(cfg, chain, e, start, n);
    QuietWalk(cfg, chain, e, start, n);
  }

  /** A complete cycle after a snapshot that travels leads to one that does. */
  lemma NextTravels<S>(cfg: Config<S>, chain: seq<RawLog>, first: nat, initial: S, s: Snapshot<S>, e: Engine<S>,
                       pa: PassArgs, start: nat, r: Run<S>, args: SyncArgs, next: Snapshot<S>, all: bool)
    requires Ordered(chain) && s.to < U64_MAX && start == s.to + 1 && LowerBound(pa.from) == start
    requires first <= s.to + 1 && first <= pa.to + 1 && Behind(cfg, chain, e, start, pa.to)
    requires GoodState(cfg, chain, first, initial, e, start) && Travels(cfg, chain, first, initial, s, all)
    requires e.store == s.store && e.dyn == s.sources && e.processed == {}
    requires r == Pass(cfg, chain, pa, e) && r.halt == Running
    requires next == NextSnapshot(Some(s), args, pa, RunOf(r))
    ensures Travels(cfg, chain, first, initial, next, all && args.historyLimit == 0)
  {
    var top, current, previous := Top(s.history), EntryOf(next), EntryOf(s);
    var h, news := Place(s.history, previous), r.history + [current];
    NextShape(Some(s), args, pa, r, next);
    StillHere(cfg, chain, first, initial, s, e, s.to, top);
    PlaceRight(cfg, chain, first, initial, s.history, previous, all);
    assert MomentOf(e) == At(previous) by { PersistIdem(e.dyn); }
    var whole := PushAll(h, news, 0);
    if pa.to <= top {
      ShortPass(cfg, chain, s, e, pa, start, r, top);
      ShortNews(cfg, chain, first, initial, s, e, pa, start, current, h, top, all, news);
      assert next.sources == e.dyn by { PersistIdem(e.dyn); }
    } else {
      LongNews(cfg, chain, first, initial, e, pa, start, r, current, h, top, all, news, At(previous));
    }
    Trimmed(cfg, chain, first, initial, s.history, previous, news, args.historyLimit, all, whole, next.history);
  }

  /** Dropping the oldest entries of what was merged. */
  lemma Trimmed<S>(cfg: Config<S>, chain: seq<RawLog>, first: nat, initial: S, h: seq<Entry<S>>, previous: Entry<S>,
                   news: seq<Entry<S>>, limit: nat, all: bool, whole: seq<Entry<S>>, kept: seq<Entry<S>>)
    requires Increasing(h) && whole == PushAll(Place(h, previous), news, 0) && whole != [] && Increasing(whole)
    requires Right(cfg, chain, first, initial, whole, Top(whole), all)
    requires kept == PushAll(h, [previous] + news, limit)
    ensures Increasing(kept) && kept != [] && Top(kept) == Top(whole)
    ensures Right(cfg, chain, first, initial, kept, Top(kept), all && limit == 0)
  {
    PushStep(h, previous, 0);
    assert ([previous] + news)[1..] == news;
    assert whole == PushAll(h, [previous] + news, 0);
    KeptLimited(h, [previous] + news, limit);
    NewestIncreasing(whole, limit);
    NewestShape(whole, limit);
    TrimRight(cfg, chain, first, initial, whole, Top(whole), limit, all);
  }

  /** A pass that ends no later than the history executes nothing. */
  lemma ShortPass<S>(cfg: Config<S>, chain: seq<RawLog>, s: Snapshot<S>, e: Engine<S>, pa: PassArgs, start: nat,
                     r: Run<S>, top: nat)
    requires start == s.to + 1 && LowerBound(pa.from) == start && Behind(cfg, chain, e, start, pa.to)
    requires Quiet(cfg.statics + s.sources, chain, s.to, top + 1) && e.dyn == s.sources && pa.to <= top
    requires r == Pass(cfg, chain, pa, e)
    ensures r == StartRun(e) && Quiet(cfg.statics + e.dyn, chain, pa.to, top + 1)
  {
    QuietRun(cfg, chain, pa, e, start, pa.to);
  }

  lemma ShortNews<S>(cfg: Config<S>, chain: seq<RawLog>, first: nat, initial: S, s: Snapshot<S>, e: Engine<S>,
                     pa: PassArgs, start: nat, current: Entry<S>, h: seq<Entry<S>>, top: nat, all: bool,
                     news: seq<Entry<S>>)
    requires Ordered(chain) && s.complete && s.to < U64_MAX && start == s.to + 1
    requires first <= s.to + 1 && first <= pa.to + 1 && Quiet(cfg.statics + s.sources, chain, pa.to, top + 1)
    requires GoodState(cfg, chain, first, initial, e, start) && Quiet(cfg.statics + s.sources, chain, s.to, top + 1)
    requires e.store == s.store && e.dyn == s.sources && e.processed == {} && s.to <= top && pa.to <= top
    requires news == [] + [current] && current.to == pa.to && At(current) == MomentOf(e)
    requires Increasing(h) && h != [] && Top(h) == top && Right(cfg, chain, first, initial, h, top, all)
    ensures var whole := PushAll(h, news, 0);
            && Increasing(whole) && whole != [] && Top(whole) == top
            && Right(cfg, chain, first, initial, whole, top, all)
  {
    PersistIdem(e.dyn);
    StillHere(cfg, chain, first, initial, s, e, if pa.to <= s.to then pa.to else s.to, top);
    PlaceRight(cfg, chain, first, initial, h, current, all);
    PushStep(h, current, 0);
    assert PushAll(Push(h, current, 0), [], 0) == Push(h, current, 0);
  }

  /** The pass goes past the history. */
  lemma LongNews<S>(cfg: Config<S>, chain: seq<RawLog>, first: nat, initial: S, e: Engine<S>, pa: PassArgs, start: nat,
                    r: Run<S>, current: Entry<S>, h: seq<Entry<S>>, top: nat, all: bool, news: seq<Entry<S>>,
                    m: Moment<S>)
    requires Ordered(chain) && start == LowerBound(pa.from) && start <= top + 1 && top < pa.to && first <= start
    requires start > 0 && GoodState(cfg, chain, first, initial, e, start) && e.processed == {} && m == MomentOf(e)
    requires Quiet(cfg.statics + e.dyn, chain, start - 1, top + 1)
    requires r == Pass(cfg, chain, pa, e) && r.halt == Running && news == r.history + [current]
    requires current.to == pa.to && At(current) == MomentOf(r.eng)
    requires Increasing(h) && h != [] && Top(h) == top && Right(cfg, chain, first, initial, h, top, all)
    requires ReferenceMoment(cfg, chain, first, initial, top) == m
    ensures var whole := PushAll(h, news, 0);
            && Increasing(whole) && whole != [] && Top(whole) == pa.to
            && Right(cfg, chain, first, initial, whole, pa.to, all)
  {
    var seen: nat := start - 1;
    assert Behind(cfg, chain, e, start, seen);
    NewsRight(cfg, chain, first, initial, e, pa, seen, r, current, m);
    EntriesPast(cfg, chain, pa, e, start, top, top + 1);
    NewsOrdered(r.history, current, top);
    WholeRight(cfg, chain, first, initial, h, news, m, all);
  }

  /** Without a limit every block is answered: below the first entry by the initial state. */
  lemma StartWhole<S>(cfg: Config<S>, chain: seq<RawLog>, first: nat, initial: S, news: seq<Entry<S>>, least: nat,
                      to: nat)
    requires NonDecreasing(news) && news != [] && (forall x :: x in news ==> least <= x.to) && least == SatSub(first, 1)
    requires RightFrom(cfg, chain, first, initial, news, Moment(initial, []), least, to) && to == news[|news| - 1].to
    ensures var whole := PushAll([], news, 0);
            && Increasing(whole) && whole != [] && whole[|whole| - 1] == news[|news| - 1]
            && Right(cfg, chain, first, initial, whole, to, true)
  {
    var whole := PushAll([], news, 0);
    PushLookup([], news, 0, Moment(initial, []));
    forall n: nat | n <= to
      ensures Lookup(whole, n, Moment(initial, [])) == ReferenceMoment(cfg, chain, first, initial, n)
    {
      StartLookup(cfg, chain, first, initial, news, least, to, n);
    }
  }

  lemma StartLookup<S>(cfg: Config<S>, chain: seq<RawLog>, first: nat, initial: S, news: seq<Entry<S>>, least: nat,
                       to: nat, n: nat)
    requires NonDecreasing(news) && news != [] && (forall x :: x in news ==> least <= x.to) && least == SatSub(first, 1)
    requires RightFrom(cfg, chain, first, initial, news, Moment(initial, []), least, to) && n <= to
    ensures Lookup(PushAll([], news, 0), n, Moment(initial, [])) == ReferenceMoment(cfg, chain, first, initial, n)
  {
    PushLookup([], news, n, Moment(initial, []));
    if n < least {
      LogsInBackwards(chain, first, n);
      LookupNone(news, n, Moment(initial, []));
    }
  }

  /** The first complete cycle. */
  lemma FirstTravels<S>(cfg: Config<S>, chain: seq<RawLog>, first: nat, initial: S, pa: PassArgs, r: Run<S>,
                        args: SyncArgs, next: Snapshot<S>)
    requires Ordered(chain) && WfSources(cfg.statics, [])
    requires LowerBound(pa.from) == first && first <= pa.to + 1
    requires r == Pass(cfg, chain, pa, FreshEngine(initial)) && r.halt == Running
    requires next == NextSnapshot(None, args, pa, RunOf(r))
    ensures Travels(cfg, chain, first, initial, next, args.historyLimit == 0)
  {
    NextShape(None, args, pa, r, next);
    var news := r.history + [EntryOf(next)];
    FirstWhole(cfg, chain, first, initial, pa, r, EntryOf(next), news);
    FirstKept(cfg, chain, first, initial, news, args.historyLimit, next.history, pa.to);
    TravelsTo(cfg, chain, first, initial, next, args.historyLimit == 0);
  }

  /** A history that starts with one complete pass, before dropping anything. */
  lemma FirstWhole<S>(cfg: Config<S>, chain: seq<RawLog>, first: nat, initial: S, pa: PassArgs, r: Run<S>,
                      current: Entry<S>, news: seq<Entry<S>>)
    requires Ordered(chain) && WfSources(cfg.statics, [])
    requires LowerBound(pa.from) == first && first <= pa.to + 1
    requires r == Pass(cfg, chain, pa, FreshEngine(initial)) && r.halt == Running
    requires current.to == pa.to && At(current) == MomentOf(r.eng) && news == r.history + [current]
    ensures var whole := PushAll([], news, 0);
            && Increasing(whole) && whole != [] && whole[|whole| - 1] == news[|news| - 1]
            && Right(cfg, chain, first, initial, whole, pa.to, true)
  {
    FirstRight(cfg, chain, first, initial, pa, r, current, news);
    StartWhole(cfg, chain, first, initial, news, SatSub(first, 1), pa.to);
  }

  lemma StartTrimmed<S>(cfg: Config<S>, chain: seq<RawLog>, first: nat, initial: S, whole: seq<Entry<S>>, limit: nat,
                        to: nat)
    requires Increasing(whole) && whole != [] && Right(cfg, chain, first, initial, whole, to, true)
    ensures var kept := Newest(whole, limit);
            && Increasing(kept) && kept != [] && kept[|kept| - 1] == whole[|whole| - 1]
            && Right(cfg, chain, first, initial, kept, to, limit == 0)
  {
    NewestIncreasing(whole, limit);
    NewestShape(whole, limit);
    TrimRight(cfg, chain, first, initial, whole, to, limit, true);
  }

  lemma FirstKept<S>(cfg: Config<S>, chain: seq<RawLog>, first: nat, initial: S, news: seq<Entry<S>>, limit: nat,
                     kept: seq<Entry<S>>, to: nat)
    requires news != [] && news[|news| - 1].to == to && kept == PushAll([], news, limit)
    requires var whole := PushAll([], news, 0);
             && Increasing(whole) && whole != [] && whole[|whole| - 1] == news[|news| - 1]
             && Right(cfg, chain, first, initial, whole, to, true)
    ensures Increasing(kept) && kept != [] && Top(kept) == to
    ensures Right(cfg, chain, first, initial, kept, to, limit == 0)
  {
    KeptLimited([], news, limit);
    StartTrimmed(cfg, chain, first, initial, PushAll([], news, 0), limit, to);
  }

  lemma FirstRight<S>(cfg: Config<S>, chain: seq<RawLog>, first: nat, initial: S, pa: PassArgs, r: Run<S>,
                      current: Entry<S>, news: seq<Entry<S>>)
    requires Ordered(chain) && WfSources(cfg.statics, [])
    requires LowerBound(pa.from) == first && first <= pa.to + 1
    requires r == Pass(cfg, chain, pa, FreshEngine(initial)) && r.halt == Running
    requires current.to == pa.to && At(current) == MomentOf(r.eng) && news == r.history + [current]
    ensures NonDecreasing(news) && forall x :: x in news ==> SatSub(first, 1) <= x.to
    ensures RightFrom(cfg, chain, first, initial, news, Moment(initial, []), SatSub(first, 1), pa.to)
  {
    FreshGood(cfg, chain, first, initial);
    NewsRight(cfg, chain, first, initial, FreshEngine(initial), pa, SatSub(first, 1), r, current, Moment(initial, []));
    FirstNews(r.history, current, first);
  }

  /** A history that ends with the checkpoint. */
  lemma TravelsTo<S>(cfg: Config<S>, chain: seq<RawLog>, first: nat, initial: S, s: Snapshot<S>, all: bool)
    requires s.complete && Increasing(s.history) && s.history != [] && s.to == Top(s.history)
    requires Right(cfg, chain, first, initial, s.history, s.to, all)
    ensures Travels(cfg, chain, first, initial, s, all)
  {
  }

  lemma FirstNews<S>(h: seq<Entry<S>>, current: Entry<S>, first: nat)
    requires Increasing(h) && first <= current.to + 1 && forall x :: x in h ==> first <= x.to <= current.to
    ensures NonDecreasing(h + [current]) && forall x :: x in h + [current] ==> SatSub(first, 1) <= x.to
  {
    forall k | 0 <= k < |h| ensures h[k].to <= current.to { assert h[k] in h; }
  }

  /** The history is never cut. */
  ghost predicate Unlimited(runs: seq<(SyncArgs, bool)>) {
    forall k :: 0 <= k < |runs| ==> runs[k].0.historyLimit == 0
  }

  ghost predicate TravelsIfAny<S>(cfg: Config<S>, chain: seq<RawLog>, first: nat, initial: S, st: Stored<S>, all: bool,
                                  hash: nat -> nat)
  {
    st.snapshot.Some? ==>
      && Travels(cfg, chain, first, initial, st.snapshot.value, all)
      && HashesKnown(st.snapshot.value.history, hash)
  }

  lemma CycleTravels<S>(cfg: Config<S>, chain: seq<RawLog>, first: nat, initial: S, st: Stored<S>, args: SyncArgs,
                        fails: bool, hash: nat -> nat, all: bool)
    requires Ordered(chain) && Sound(cfg, chain, first, initial, st, hash) && Completed(st)
    requires TravelsIfAny(cfg, chain, first, initial, st, all, hash) && (all ==> args.historyLimit == 0)
    requires !args.reset && Honest(args, hash) && Forward(cfg, initial, chain, st, args, first)
    requires Completed(Cycle(cfg, initial, chain, st, args, fails))
    ensures TravelsIfAny(cfg, chain, first, initial, Cycle(cfg, initial, chain, st, args, fails), all, hash)
  {
    var next := Cycle(cfg, initial, chain, st, args, fails);
    var pa, e, r := CycleStores(cfg, initial, chain, st, args, fails, hash);
    if next != st {
      NextHashes(cfg, chain, st.snapshot, args, pa, e, r, hash, next.snapshot.value);
      if st.snapshot.Some? {
        LaterTravels(cfg, chain, first, initial, st, args, pa, e, r, hash, next.snapshot.value, all);
      } else {
        assert e == FreshEngine(initial);
        FirstTravels(cfg, chain, first, initial, pa, r, args, next.snapshot.value);
        assert all ==> args.historyLimit == 0;
      }
    }
  }

  lemma LaterTravels<S>(cfg: Config<S>, chain: seq<RawLog>, first: nat, initial: S, st: Stored<S>, args: SyncArgs,
                        pa: PassArgs, e: Engine<S>, r: Run<S>, hash: nat -> nat, next: Snapshot<S>, all: bool)
    requires Ordered(chain) && Good(cfg, chain, first, initial, st) && st.snapshot.Some? && st.snapshot.value.complete
    requires Travels(cfg, chain, first, initial, st.snapshot.value, all) && !args.reset
    requires Forward(cfg, initial, chain, st, args, first)
    requires pa == PassArgsFor(args, st.snapshot) && e == StartEngine(initial, st.snapshot, st.trace)
    requires r == Pass(cfg, chain, pa, e) && r.halt == Running && !Keeps(st.snapshot, args, pa, RunOf(r))
    requires next == NextSnapshot(st.snapshot, args, pa, RunOf(r))
    ensures Travels(cfg, chain, first, initial, next, all && args.historyLimit == 0)
  {
    var s := st.snapshot.value;
    if args.explicitTo.None? && pa.to <= s.to { FallenHead(cfg, initial, chain, st, args, pa, r); }
    assert pa.from == Some(Origin(s));
    BehindIgnoresTrace(cfg, chain, StartEngine(initial, Some(s), []), e, Origin(s), pa.to);
    NextTravels(cfg, chain, first, initial, s, e, pa, Origin(s), r, args, next, all);
  }

  lemma {:induction false} CyclesTravel<S>(cfg: Config<S>, chain: seq<RawLog>, first: nat, initial: S, st: Stored<S>,
                                           runs: seq<(SyncArgs, bool)>, hash: nat -> nat, all: bool)
    requires Ordered(chain) && ApartChain(cfg, chain, first, initial) && Sound(cfg, chain, first, initial, st, hash)
    requires TravelsIfAny(cfg, chain, first, initial, st, all, hash) && (all ==> Unlimited(runs))
    requires Steady(cfg, initial, chain, st, runs, first, hash) && AlwaysComplete(cfg, initial, chain, st, runs)
    ensures TravelsIfAny(cfg, chain, first, initial, Cycles(cfg, initial, chain, st, runs), all, hash)
    decreases runs
  {
    if runs != [] {
      var args, fails := runs[0].0, runs[0].1;
      var next := Cycle(cfg, initial, chain, st, args, fails);
      assert AlwaysComplete(cfg, initial, chain, next, runs[1..]);
      CycleTravels(cfg, chain, first, initial, st, args, fails, hash, all);
      CycleKeepsGood(cfg, chain, first, initial, st, args, fails, hash);
      CyclesTravel(cfg, chain, first, initial, next, runs[1..], hash, all);
    }
  }

  lemma AnswerRight<S>(cfg: Config<S>, chain: seq<RawLog>, first: nat, initial: S, s: Snapshot<S>, all: bool,
                       number: nat)
    requires ReferenceMoment(cfg, chain, first, initial, s.to) == Moment(s.store, s.sources)
    requires Travels(cfg, chain, first, initial, s, all)
    ensures number <= s.to && (all || s.history[0].to <= number) ==>
              SelectAt(s, initial, number) == Ok(ReferenceMoment(cfg, chain, first, initial, number))
  {
    FindIsLookup(s.history, number, Moment(initial, []));
  }

  /** Time travel.  When every pass completed, a query at a block from the first retained one on (at any
      block when the history is never cut) reads exactly what the handlers make of the logs up to it; a
      query past the checkpoint is refused. */
  lemma TimeTravelIsExact<S>(cfg: Config<S>, chain: seq<RawLog>, first: nat, initial: S, runs: seq<(SyncArgs, bool)>,
                             hash: nat -> nat, number: nat)
    requires Ordered(chain) && WfSources(cfg.statics, []) && ApartChain(cfg, chain, first, initial)
    requires Steady(cfg, initial, chain, Stored(None, []), runs, first, hash)
    requires AlwaysComplete(cfg, initial, chain, Stored(None, []), runs)
    ensures var end := Cycles(cfg, initial, chain, Stored(None, []), runs).snapshot;
            end.Some? ==>
              && end.value.history != []
              && (number > end.value.to ==> SelectAt(end.value, initial, number) == Err)
              && (number <= end.value.to && (Unlimited(runs) || end.value.history[0].to <= number) ==>
                    SelectAt(end.value, initial, number) == Ok(ReferenceMoment(cfg, chain, first, initial, number)))
  {
    var end := Cycles(cfg, initial, chain, Stored(None, []), runs);
    CyclesTravel(cfg, chain, first, initial, Stored(None, []), runs, hash, Unlimited(runs));
    CyclesKeepGood(cfg, chain, first, initial, Stored(None, []), runs, hash);
    if end.snapshot.Some? {
      CompleteIsReference(cfg, chain, first, initial, end.snapshot.value, end.trace);
      AnswerRight(cfg, chain, first, initial, end.snapshot.value, Unlimited(runs), number);
    }
  }

  // ----- queries by block hash -----

  /** The oldest entry with the hash. */
  function FindHash<S>(h: seq<Entry<S>>, wanted: nat): (r: Option<Entry<S>>)
    ensures r.Some? ==> r.value in h && r.value.hash == Some(wanted)
    ensures r.None? ==> forall e :: e in h ==> e.hash != Some(wanted)
    decreases h
  {
    if h == [] then None else if h[0].hash == Some(wanted) then Some(h[0]) else FindHash(h[1..], wanted)
  }

  /** The state a query for a block hash reads. */
  function SelectByHash<S>(s: Snapshot<S>, wanted: nat): Result<Moment<S>> {
    if s.hash == Some(wanted) then Ok(Moment(s.store, s.sources))
    else
      var e := FindHash(s.history, wanted);
      if e.Some? then Ok(At(e.value)) else Err
  }

  ghost predicate HashesKnown<S>(h: seq<Entry<S>>, hash: nat -> nat) {
    forall e :: e in h ==> e.hash.None? || e.hash == Some(hash(e.to))
  }

  lemma {:induction false} RunHashes<S>(cfg: Config<S>, args: PassArgs, r: Run<S>, logs: seq<RawLog>, hash: nat -> nat)
    requires HashesKnown(r.history, hash) && forall n: nat :: args.hashAt(n).None? || args.hashAt(n) == Some(hash(n))
    ensures HashesKnown(RunLogs(cfg, args, r, logs).history, hash)
    decreases logs
  {
    if r.halt == Running && logs != [] {
      ItemsKeepHistory(cfg, args, r, FreshAt(cfg, r.eng, logs[0]));
      var s := RunItems(cfg, args, r, FreshAt(cfg, r.eng, logs[0]));
      RunHashes(cfg, args, Close(args, s, logs), logs[1..], hash);
    }
  }

  lemma NextHashes<S>(cfg: Config<S>, chain: seq<RawLog>, previous: Option<Snapshot<S>>, args: SyncArgs, pa: PassArgs,
                      e: Engine<S>, r: Run<S>, hash: nat -> nat, next: Snapshot<S>)
    requires next == NextSnapshot(previous, args, pa, RunOf(r)) && r == Pass(cfg, chain, pa, e)
    requires pa == PassArgsFor(args, previous) && Honest(args, hash)
    requires previous.Some? ==> HashesKnown(previous.value.history, hash) && KnownHash(previous.value, hash)
    ensures HashesKnown(next.history, hash)
  {
    var prior := if previous.Some? then previous.value.history else [];
    var incoming := Incoming(if previous.Some? then Some(EntryOf(previous.value)) else None, r.history, EntryOf(next));
    assert next.history == PushAll(prior, incoming, args.historyLimit);
    RunHashes(cfg, pa, StartRun(e), PassLogs(chain, pa), hash);
    forall x | x in next.history
      ensures x.hash.None? || x.hash == Some(hash(x.to))
    {
      PushAllSubset(prior, incoming, args.historyLimit, x);
    }
  }

  /** Every entry of a history that answers for its blocks is exact. */
  lemma EntryRight<S>(cfg: Config<S>, chain: seq<RawLog>, first: nat, initial: S, s: Snapshot<S>, all: bool,
                      e: Entry<S>)
    requires Travels(cfg, chain, first, initial, s, all) && e in s.history
    ensures At(e) == ReferenceMoment(cfg, chain, first, initial, e.to)
  {
    var h := s.history;
    var k :| 0 <= k < |h| && h[k] == e;
    FindIsLookup(h, e.to, Moment(initial, []));
    FoundThere(h, k);
  }

  lemma {:induction false} FoundThere<S>(h: seq<Entry<S>>, k: nat)
    requires Increasing(h) && k < |h|
    ensures FindAt(h, h[k].to) == Some(h[k])
    decreases h
  {
    if k < |h| - 1 {
      assert h[k].to < h[|h| - 1].to;
      FoundThere(h[..|h| - 1], k);
    }
  }

  /** The query for the hash reads the state after block `b`, which has that hash. */
  ghost predicate AnswersFor<S>(cfg: Config<S>, chain: seq<RawLog>, first: nat, initial: S, s: Snapshot<S>,
                                hash: nat -> nat, wanted: nat, b: nat)
  {
    hash(b) == wanted && SelectByHash(s, wanted) == Ok(ReferenceMoment(cfg, chain, first, initial, b))
  }

  /** A query for a block hash is answered exactly when the checkpoint or a retained entry has it, and then
      reads what the handlers make of the logs up to a block that has this hash. */
  lemma HashQueryIsExact<S>(cfg: Config<S>, chain: seq<RawLog>, first: nat, initial: S, runs: seq<(SyncArgs, bool)>,
                            hash: nat -> nat, wanted: nat)
    requires Ordered(chain) && WfSources(cfg.statics, []) && ApartChain(cfg, chain, first, initial)
    requires Steady(cfg, initial, chain, Stored(None, []), runs, first, hash)
    requires AlwaysComplete(cfg, initial, chain, Stored(None, []), runs)
    ensures var end := Cycles(cfg, initial, chain, Stored(None, []), runs).snapshot;
            end.Some? ==>
              && (SelectByHash(end.value, wanted).Ok?
                  <==> end.value.hash == Some(wanted) || exists e :: e in end.value.history && e.hash == Some(wanted))
              && (SelectByHash(end.value, wanted).Ok? ==>
                    exists b: nat :: AnswersFor(cfg, chain, first, initial, end.value, hash, wanted, b))
  {
    var end := Cycles(cfg, initial, chain, Stored(None, []), runs);
    CyclesTravel(cfg, chain, first, initial, Stored(None, []), runs, hash, false);
    CyclesKeepGood(cfg, chain, first, initial, Stored(None, []), runs, hash);
    if end.snapshot.Some? {
      var s := end.snapshot.value;
      var e := FindHash(s.history, wanted);
      if s.hash == Some(wanted) {
        CompleteIsReference(cfg, chain, first, initial, s, end.trace);
        assert AnswersFor(cfg, chain, first, initial, s, hash, wanted, s.to);
      } else if e.Some? {
        EntryRight(cfg, chain, first, initial, s, false, e.value);
        assert AnswersFor(cfg, chain, first, initial, s, hash, wanted, e.value.to);
      }
    }
  }
}
