/** `run_replay`: the worklist that scans ahead, always runs the least unprocessed log, and scans for
    the sources its handlers create.  It is proved to compute exactly the streaming walk `RunLogs`. */
module Replay {
  import opened ChainModel
  import opened Streaming

  // ----- scanning -----

  function LowerBound(from: Option<nat>): nat {
    if from.Some? then from.value else 0
  }

  /** The logs a scan of one source returns when the RPC answers. */
  function ScanPlanned(chain: seq<RawLog>, s: Source, from: Option<nat>, to: nat): seq<Item> {
    var lower := LowerBound(from);
    var start := if lower < s.start then s.start else lower;
    if start > to then [] else ScanSource(s, LogsIn(chain, start, to))
  }

  function RetainAfter(items: seq<Item>, at: Pos): seq<Item>
    decreases items
  {
    if items == [] then []
    else (if Before(at, items[0].log.pos) then [items[0]] else []) + RetainAfter(items[1..], at)
  }

  // ----- the worklist's queries -----

  /** The first unprocessed item with the least order key. */
  function NextUnprocessed(pending: seq<Item>, processed: set<Id>): Option<Item>
    decreases pending
  {
    if pending == [] then None
    else
      var rest := NextUnprocessed(pending[1..], processed);
      if IdOf(pending[0]) in processed then rest
      else if rest.Some? && Before(rest.value.log.pos, pending[0].log.pos) then rest
      else Some(pending[0])
  }

  predicate HasUnprocessedInBlock(pending: seq<Item>, processed: set<Id>, block: nat) {
    exists x :: x in pending && x.log.pos.block == block && IdOf(x) !in processed
  }

  /** The stable sort of the static logs by order key. */
  function SortInsert(x: Item, sorted: seq<Item>): seq<Item>
    decreases sorted
  {
    if sorted == [] || !Before(sorted[0].log.pos, x.log.pos) then [x] + sorted
    else [sorted[0]] + SortInsert(x, sorted[1..])
  }

  function SortByPos(items: seq<Item>): seq<Item>
    decreases items
  {
    if items == [] then [] else SortInsert(items[0], SortByPos(items[1..]))
  }

  // ----- what the worklist holds for one log -----

  /** The unprocessed items at one position, in worklist order. */
  function Pick(items: seq<Item>, processed: set<Id>, p: Pos): (r: seq<Item>)
    decreases items
  {
    if items == [] then []
    else (if items[0].log.pos == p && IdOf(items[0]) !in processed then [items[0]] else [])
         + Pick(items[1..], processed, p)
  }

  lemma {:induction false} PickMember(items: seq<Item>, processed: set<Id>, p: Pos, x: Item)
    ensures x in Pick(items, processed, p) <==> x in items && x.log.pos == p && IdOf(x) !in processed
    decreases items
  {
    if items != [] {
      PickMember(items[1..], processed, p, x);
    }
  }

  lemma {:induction false} PickConcat(a: seq<Item>, b: seq<Item>, processed: set<Id>, p: Pos)
    ensures Pick(a + b, processed, p) == Pick(a, processed, p) + Pick(b, processed, p)
    decreases a
  {
    if a == [] {
      assert a + b == b;
    } else {
      assert (a + b)[1..] == a[1..] + b;
      PickConcat(a[1..], b, processed, p);
    }
  }

  /** Sorting never reorders items of the same log, so it changes nothing the worklist can see. */
  lemma {:induction false} PickInsert(x: Item, sorted: seq<Item>, processed: set<Id>, p: Pos)
    ensures Pick(SortInsert(x, sorted), processed, p) == Pick([x] + sorted, processed, p)
    decreases sorted
  {
    if sorted != [] && Before(sorted[0].log.pos, x.log.pos) {
      PickInsert(x, sorted[1..], processed, p);
      assert ([x] + sorted)[1..] == [sorted[0]] + sorted[1..];
      assert ([x] + sorted[1..])[1..] == sorted[1..];
    }
  }

  lemma {:induction false} PickSorted(items: seq<Item>, processed: set<Id>, p: Pos)
    ensures Pick(SortByPos(items), processed, p) == Pick(items, processed, p)
    decreases items
  {
    if items != [] {
      PickSorted(items[1..], processed, p);
      PickInsert(items[0], SortByPos(items[1..]), processed, p);
      assert ([items[0]] + SortByPos(items[1..]))[1..] == SortByPos(items[1..]);
    }
  }

  lemma {:induction false} SortMember(items: seq<Item>, x: Item)
    ensures x in SortByPos(items) <==> x in items
    decreases items
  {
    if items != [] {
      SortMember(items[1..], x);
      InsertMember(items[0], SortByPos(items[1..]), x);
    }
  }

  lemma {:induction false} InsertMember(y: Item, sorted: seq<Item>, x: Item)
    ensures x in SortInsert(y, sorted) <==> x == y || x in sorted
    decreases sorted
  {
    if sorted != [] && Before(sorted[0].log.pos, y.log.pos) {
      InsertMember(y, sorted[1..], x);
    }
  }

  lemma {:induction false} PickRetained(items: seq<Item>, at: Pos, processed: set<Id>, p: Pos)
    ensures Pick(RetainAfter(items, at), processed, p)
         == if Before(at, p) then Pick(items, processed, p) else []
    decreases items
  {
    if items != [] {
      PickRetained(items[1..], at, processed, p);
      PickConcat(if Before(at, items[0].log.pos) then [items[0]] else [], RetainAfter(items[1..], at), processed, p);
    }
  }

  lemma {:induction false} RetainMember(items: seq<Item>, at: Pos, x: Item)
    ensures x in RetainAfter(items, at) ==> x in items
    decreases items
  {
    if items != [] {
      RetainMember(items[1..], at, x);
    }
  }

  lemma {:induction false} ScanMember(s: Source, logs: seq<RawLog>, x: Item)
    ensures x in ScanSource(s, logs) ==> x.log in logs
    decreases logs
  {
    if logs != [] {
      ScanMember(s, logs[1..], x);
    }
  }

  lemma {:induction false} PickScanOther(s: Source, logs: seq<RawLog>, processed: set<Id>, p: Pos)
    requires forall l :: l in logs ==> l.pos != p
    ensures Pick(ScanSource(s, logs), processed, p) == []
    decreases logs
  {
    if logs != [] {
      PickScanOther(s, logs[1..], processed, p);
      PickConcat(if Filter(s, logs[0]) then [ItemOf(s, logs[0])] else [], ScanSource(s, logs[1..]), processed, p);
    }
  }

  /** At one log, a scan contributes the source's item there, if the filter lets the log through. */
  lemma {:induction false} PickScan(s: Source, logs: seq<RawLog>, l: RawLog, processed: set<Id>)
    requires Ordered(logs) && l in logs
    ensures Pick(ScanSource(s, logs), processed, l.pos)
         == Fresh(if Filter(s, l) then [ItemOf(s, l)] else [], processed)
    decreases logs
  {
    var head := if Filter(s, logs[0]) then [ItemOf(s, logs[0])] else [];
    PickConcat(head, ScanSource(s, logs[1..]), processed, l.pos);
    if logs[0] == l {
      forall m | m in logs[1..]
        ensures m.pos != l.pos
      {
        var k :| 0 <= k < |logs[1..]| && logs[1..][k] == m;
        assert Before(logs[0].pos, logs[k + 1].pos);
      }
      PickScanOther(s, logs[1..], processed, l.pos);
    } else {
      assert l in logs[1..];
      PickScan(s, logs[1..], l, processed);
      assert l.pos != logs[0].pos by {
        var k :| 0 <= k < |logs| && logs[k] == l;
        assert Before(logs[0].pos, logs[k].pos);
      }
    }
  }

  lemma PickPlanned(chain: seq<RawLog>, s: Source, from: Option<nat>, to: nat, l: RawLog, processed: set<Id>)
    requires Ordered(chain)
    requires l in chain && LowerBound(from) <= l.pos.block <= to
    ensures Pick(ScanPlanned(chain, s, from, to), processed, l.pos)
         == Fresh(if Filter(s, l) then [ItemOf(s, l)] else [], processed)
  {
    var lower := LowerBound(from);
    var start := if lower < s.start then s.start else lower;
    if start <= to {
      LogsInOrdered(chain, start, to);
      LogsInMember(chain, start, to, l);
      if start <= l.pos.block {
        PickScan(s, LogsIn(chain, start, to), l, processed);
      } else {
        forall m | m in LogsIn(chain, start, to)
          ensures m.pos != l.pos
        {
          LogsInMember(chain, start, to, m);
        }
        PickScanOther(s, LogsIn(chain, start, to), processed, l.pos);
      }
    }
  }

  lemma PlannedMember(chain: seq<RawLog>, s: Source, from: Option<nat>, to: nat, x: Item)
    ensures x in ScanPlanned(chain, s, from, to) ==> x.log in LogsIn(chain, LowerBound(from), to)
  {
    var lower := LowerBound(from);
    var start := if lower < s.start then s.start else lower;
    if x in ScanPlanned(chain, s, from, to) {
      ScanMember(s, LogsIn(chain, start, to), x);
      LogsInMember(chain, start, to, x.log);
      LogsInMember(chain, lower, to, x.log);
    }
  }

  // ----- the invariant: the worklist against the walk -----

  /** Before the cursor the worklist holds nothing unprocessed; from the cursor on it holds, log by
      log and in order, exactly the items the walk would execute there. */
  ghost predicate Tracks<S>(cfg: Config<S>, logs: seq<RawLog>, i: nat, e: Engine<S>, pending: seq<Item>) {
    && (forall x :: x in pending ==> x.log in logs)
    && (forall k :: 0 <= k < |logs| ==>
          Pick(pending, e.processed, logs[k].pos) == if k < i then [] else FreshAt(cfg, e, logs[k]))
  }

  lemma {:induction false} NextSpec(pending: seq<Item>, processed: set<Id>)
    ensures var n := NextUnprocessed(pending, processed);
            match n
            case None => forall x :: x in pending ==> IdOf(x) in processed
            case Some(x) =>
              && x in pending && IdOf(x) !in processed
              && Pick(pending, processed, x.log.pos) != []
              && Pick(pending, processed, x.log.pos)[0] == x
              && forall y :: y in pending && IdOf(y) !in processed ==> !Before(y.log.pos, x.log.pos)
    decreases pending
  {
    if pending != [] {
      NextSpec(pending[1..], processed);
      var rest := NextUnprocessed(pending[1..], processed);
      var head := pending[0];
      assert pending == [head] + pending[1..];
      if IdOf(head) !in processed && !(rest.Some? && Before(rest.value.log.pos, head.log.pos)) {
        forall y | y in pending && IdOf(y) !in processed
          ensures !Before(y.log.pos, head.log.pos)
        {
          if y != head && rest.Some? {
            BeforeTotal(rest.value.log.pos, head.log.pos);
          }
        }
      }
    }
  }

  /** Where the next item lives: its log is at or after the cursor, it is the first fresh item there,
      and nothing between the cursor and that log is fresh. */
  lemma NextAtCursor<S>(cfg: Config<S>, logs: seq<RawLog>, i: nat, e: Engine<S>, pending: seq<Item>)
    returns (k: nat)
    requires Ordered(logs) && Tracks(cfg, logs, i, e, pending)
    requires NextUnprocessed(pending, e.processed).Some?
    ensures i <= k < |logs|
    ensures var x := NextUnprocessed(pending, e.processed).value;
            && x.log == logs[k]
            && FreshAt(cfg, e, logs[k]) != [] && FreshAt(cfg, e, logs[k])[0] == x
    ensures forall m :: i <= m < k ==> FreshAt(cfg, e, logs[m]) == []
  {
    NextSpec(pending, e.processed);
    var x := NextUnprocessed(pending, e.processed).value;
    k :| 0 <= k < |logs| && logs[k] == x.log;
    forall m | i <= m < k
      ensures FreshAt(cfg, e, logs[m]) == []
    {
      if FreshAt(cfg, e, logs[m]) != [] {
        var y := FreshAt(cfg, e, logs[m])[0];
        assert Before(logs[m].pos, x.log.pos);
        assert y in Pick(pending, e.processed, logs[m].pos);
        PickMember(pending, e.processed, logs[m].pos, y);
        assert false;
      }
    }
  }

  lemma AllProcessed<S>(cfg: Config<S>, logs: seq<RawLog>, i: nat, e: Engine<S>, pending: seq<Item>)
    requires Tracks(cfg, logs, i, e, pending)
    ensures NextUnprocessed(pending, e.processed).None?
       <==> forall k :: i <= k < |logs| ==> FreshAt(cfg, e, logs[k]) == []
    ensures NextUnprocessed(pending, e.processed).None? <==> forall x :: x in pending ==> IdOf(x) in e.processed
  {
    NextSpec(pending, e.processed);
    if NextUnprocessed(pending, e.processed).None? {
      forall k | i <= k < |logs|
        ensures FreshAt(cfg, e, logs[k]) == []
      {
        if FreshAt(cfg, e, logs[k]) != [] {
          var y := FreshAt(cfg, e, logs[k])[0];
          assert y in Pick(pending, e.processed, logs[k].pos);
          PickMember(pending, e.processed, logs[k].pos, y);
        }
      }
    } else {
      var x := NextUnprocessed(pending, e.processed).value;
      var k :| 0 <= k < |logs| && logs[k] == x.log;
      assert Pick(pending, e.processed, logs[k].pos) != [];
    }
  }

  lemma UnprocessedInBlock<S>(cfg: Config<S>, logs: seq<RawLog>, i: nat, e: Engine<S>, pending: seq<Item>, block: nat)
    requires Tracks(cfg, logs, i, e, pending)
    ensures HasUnprocessedInBlock(pending, e.processed, block)
       <==> exists k :: i <= k < |logs| && logs[k].pos.block == block && FreshAt(cfg, e, logs[k]) != []
  {
    if HasUnprocessedInBlock(pending, e.processed, block) {
      var x :| x in pending && x.log.pos.block == block && IdOf(x) !in e.processed;
      var k :| 0 <= k < |logs| && logs[k] == x.log;
      PickMember(pending, e.processed, x.log.pos, x);
      assert Pick(pending, e.processed, logs[k].pos) != [];
    }
    if k :| i <= k < |logs| && logs[k].pos.block == block && FreshAt(cfg, e, logs[k]) != [] {
      var y := FreshAt(cfg, e, logs[k])[0];
      assert y in Pick(pending, e.processed, logs[k].pos);
      PickMember(pending, e.processed, logs[k].pos, y);
    }
  }

  lemma ProcessedHere<S>(cfg: Config<S>, l: RawLog, e: Engine<S>, pending: seq<Item>, x: Item)
    requires Wf(cfg, e) && x.log == l
    requires Pick(pending, e.processed, l.pos) == FreshAt(cfg, e, l) != [] && FreshAt(cfg, e, l)[0] == x
    ensures Pick(pending, e.processed + {IdOf(x)}, l.pos) == Fresh(Active(cfg, e, l), e.processed + {IdOf(x)})
  {
    WfConcat(cfg.statics, e.dyn);
    ItemsAtDistinct(cfg.statics + e.dyn, l);
    FreshDistinct(Active(cfg, e, l), e.processed);
    FreshDrop(Active(cfg, e, l), e.processed);
    PickDrop(pending, e.processed, l.pos, x);
  }

  lemma ProcessedElsewhere<S>(cfg: Config<S>, l: RawLog, e: Engine<S>, pending: seq<Item>, x: Item)
    requires x.log.pos != l.pos
    ensures Pick(pending, e.processed + {IdOf(x)}, l.pos) == Pick(pending, e.processed, l.pos)
    ensures Fresh(Active(cfg, e, l), e.processed + {IdOf(x)}) == FreshAt(cfg, e, l)
  {
    PickOther(pending, e.processed, l.pos, x);
    forall y | y in Active(cfg, e, l)
      ensures IdOf(y) != IdOf(x)
    {
      ItemsAtMember(cfg.statics + e.dyn, l, y);
    }
    FreshSame(Active(cfg, e, l), e.processed, e.processed + {IdOf(x)});
  }

  lemma FreshDistinct(items: seq<Item>, processed: set<Id>)
    requires DistinctIds(items)
    ensures DistinctIds(Fresh(items, processed))
    decreases items
  {
    if items != [] {
      FreshDistinct(items[1..], processed);
      forall y | y in Fresh(items[1..], processed)
        ensures IdOf(y) != IdOf(items[0])
      {
        FreshMember(items[1..], processed, y);
        var k :| 0 <= k < |items[1..]| && items[1..][k] == y;
        assert IdOf(items[0]) != IdOf(items[k + 1]);
      }
    }
  }

  lemma DistinctPositions(logs: seq<RawLog>, i: nat, k: nat)
    requires Ordered(logs) && i < |logs| && k < |logs| && i != k
    ensures logs[i].pos != logs[k].pos
  {
    if k < i { assert Before(logs[k].pos, logs[i].pos); } else { assert Before(logs[i].pos, logs[k].pos); }
  }

  /** Executing the first fresh item at the cursor, sources aside, keeps the worklist in step. */
  lemma TracksProcessed<S>(cfg: Config<S>, logs: seq<RawLog>, i: nat, e: Engine<S>, pending: seq<Item>, x: Item,
                           store: S)
    requires Ordered(logs) && Wf(cfg, e) && Tracks(cfg, logs, i, e, pending)
    requires i < |logs| && FreshAt(cfg, e, logs[i]) != [] && FreshAt(cfg, e, logs[i])[0] == x && x.log == logs[i]
    ensures Tracks(cfg, logs, i, Engine(store, e.dyn, e.trace + [x], e.processed + {IdOf(x)}, e.ok), pending)
  {
    forall k | 0 <= k < |logs|
      ensures Pick(pending, e.processed + {IdOf(x)}, logs[k].pos)
           == if k < i then [] else Fresh(Active(cfg, e, logs[k]), e.processed + {IdOf(x)})
    {
      if k == i {
        ProcessedHere(cfg, logs[i], e, pending, x);
      } else {
        DistinctPositions(logs, i, k);
        ProcessedElsewhere(cfg, logs[k], e, pending, x);
      }
    }
  }

  lemma {:induction false} PickOther(items: seq<Item>, processed: set<Id>, p: Pos, x: Item)
    requires p != x.log.pos
    ensures Pick(items, processed + {IdOf(x)}, p) == Pick(items, processed, p)
    decreases items
  {
    if items != [] {
      PickOther(items[1..], processed, p, x);
    }
  }

  lemma {:induction false} PickIsFresh(items: seq<Item>, processed: set<Id>, more: set<Id>, p: Pos)
    ensures Pick(items, processed + more, p) == Fresh(Pick(items, processed, p), processed + more)
    decreases items
  {
    if items != [] {
      PickIsFresh(items[1..], processed, more, p);
      var head := if items[0].log.pos == p && IdOf(items[0]) !in processed then [items[0]] else [];
      FreshConcat(head, Pick(items[1..], processed, p), processed + more);
    }
  }

  lemma PickDrop(items: seq<Item>, processed: set<Id>, p: Pos, x: Item)
    requires Pick(items, processed, p) != [] && Pick(items, processed, p)[0] == x
    requires DistinctIds(Pick(items, processed, p))
    ensures Pick(items, processed + {IdOf(x)}, p) == Pick(items, processed, p)[1..]
  {
    var picked := Pick(items, processed, p);
    PickIsFresh(items, processed, {IdOf(x)}, p);
    forall y | y in picked
      ensures IdOf(y) !in processed
    {
      PickMember(items, processed, p, y);
    }
    FreshAll(picked, processed);
    FreshDrop(picked, processed);
  }

  /** What a source created at position `s.born` adds at one log. */
  lemma PickAdded<S>(cfg: Config<S>, chain: seq<RawLog>, to: nat, e: Engine<S>, pending: seq<Item>, s: Source,
                     l: RawLog)
    requires Ordered(chain) && l in chain && l.pos.block <= to
    requires s.start == s.born.block && !s.resumed
    ensures var scan := RetainAfter(ScanPlanned(chain, s, Some(s.start), to), s.born);
            && (!Before(s.born, l.pos) ==>
                  Pick(pending + scan, e.processed, l.pos) == Pick(pending, e.processed, l.pos))
            && (Pick(pending, e.processed, l.pos) == FreshAt(cfg, e, l) ==>
                  Pick(pending + scan, e.processed, l.pos) == FreshAt(cfg, e.(dyn := e.dyn + [s]), l))
  {
    var scanned := ScanPlanned(chain, s, Some(s.start), to);
    var more := Fresh(ItemsAt([s], l), e.processed);
    PickConcat(pending, RetainAfter(scanned, s.born), e.processed, l.pos);
    PickRetained(scanned, s.born, e.processed, l.pos);
    if Before(s.born, l.pos) {
      PickPlanned(chain, s, Some(s.start), to, l, e.processed);
    }
    assert ItemsAt([s], l) == if Matches(s, l) then [ItemOf(s, l)] else [];
    assert cfg.statics + (e.dyn + [s]) == (cfg.statics + e.dyn) + [s];
    ItemsAtConcat(cfg.statics + e.dyn, [s], l);
    FreshConcat(Active(cfg, e, l), ItemsAt([s], l), e.processed);
  }

  lemma AddedMember(chain: seq<RawLog>, from: nat, to: nat, s: Source, x: Item)
    requires x in RetainAfter(ScanPlanned(chain, s, Some(s.start), to), s.born)
    requires from <= s.start
    ensures x.log in LogsIn(chain, from, to)
  {
    RetainMember(ScanPlanned(chain, s, Some(s.start), to), s.born, x);
    PlannedMember(chain, s, Some(s.start), to, x);
    LogsInMember(chain, s.start, to, x.log);
    LogsInMember(chain, from, to, x.log);
  }

  /** Adding a source created at the cursor, with its later logs, keeps the worklist in step. */
  lemma TracksAdded<S>(cfg: Config<S>, chain: seq<RawLog>, from: nat, to: nat, i: nat, e: Engine<S>, pending: seq<Item>,
                       s: Source)
    requires Ordered(chain) && Ordered(LogsIn(chain, from, to))
    requires Tracks(cfg, LogsIn(chain, from, to), i, e, pending)
    requires i < |LogsIn(chain, from, to)| && s.born == LogsIn(chain, from, to)[i].pos
    requires s.start == s.born.block && !s.resumed
    ensures Tracks(cfg, LogsIn(chain, from, to), i, e.(dyn := e.dyn + [s]),
                   pending + RetainAfter(ScanPlanned(chain, s, Some(s.start), to), s.born))
  {
    var logs := LogsIn(chain, from, to);
    var scan := RetainAfter(ScanPlanned(chain, s, Some(s.start), to), s.born);
    LogsInMember(chain, from, to, logs[i]);
    forall x | x in pending + scan
      ensures x.log in logs
    {
      if x in scan {
        AddedMember(chain, from, to, s, x);
      }
    }
    forall k | 0 <= k < |logs|
      ensures Pick(pending + scan, e.processed, logs[k].pos)
           == if k < i then [] else FreshAt(cfg, e.(dyn := e.dyn + [s]), logs[k])
    {
      LogsInMember(chain, from, to, logs[k]);
      PickAdded(cfg, chain, to, e, pending, s, logs[k]);
      if k < i {
        assert Before(logs[k].pos, logs[i].pos);
      }
    }
  }

  /** Appending the scan of a source known from the start. */
  lemma PickAppendKnown(chain: seq<RawLog>, from: Option<nat>, to: nat, sources: seq<Source>, pending: seq<Item>,
                        s: Source, l: RawLog, processed: set<Id>)
    requires Ordered(chain) && s.resumed
    requires l in LogsIn(chain, LowerBound(from), to)
    requires Pick(pending, processed, l.pos) == Fresh(ItemsAt(sources, l), processed)
    ensures Pick(pending + ScanPlanned(chain, s, from, to), processed, l.pos)
         == Fresh(ItemsAt(sources + [s], l), processed)
  {
    LogsInMember(chain, LowerBound(from), to, l);
    PickConcat(pending, ScanPlanned(chain, s, from, to), processed, l.pos);
    PickPlanned(chain, s, from, to, l, processed);
    ItemsAtConcat(sources, [s], l);
    FreshConcat(ItemsAt(sources, l), ItemsAt([s], l), processed);
    assert ItemsAt([s], l) == if Matches(s, l) then [ItemOf(s, l)] else [];
  }

  // ----- moving the walk's cursor -----

  /** Logs with nothing fresh, in blocks where nothing is waiting to be recorded, do not change a run. */
  lemma {:induction false} SkipQuiet<S>(cfg: Config<S>, args: PassArgs, r: Run<S>, logs: seq<RawLog>, i: nat, k: nat)
    requires i <= k <= |logs| && r.halt == Running
    requires forall m :: i <= m < k ==> FreshAt(cfg, r.eng, logs[m]) == []
    requires forall m :: i <= m < k ==> r.last != Some(logs[m].pos.block) || !EndsBlock(logs[m..])
    ensures RunLogs(cfg, args, r, logs[i..]) == RunLogs(cfg, args, r, logs[k..])
    decreases k - i
  {
    if i < k {
      assert logs[i..][1..] == logs[i + 1..];
      assert logs[i..][0] == logs[i];
      SkipQuiet(cfg, args, r, logs, i + 1, k);
    }
  }

  function BlockEnd(logs: seq<RawLog>, i: nat): (e: nat)
    requires i < |logs|
    ensures i < e <= |logs|
    ensures forall m :: i <= m < e ==> logs[m].pos.block == logs[i].pos.block
    ensures e < |logs| ==> logs[e].pos.block != logs[i].pos.block
    decreases |logs| - i
  {
    if i + 1 == |logs| || logs[i + 1].pos.block != logs[i].pos.block then i + 1 else BlockEnd(logs, i + 1)
  }

  /** Running to the end of a block with nothing left in it records the block and nothing else. */
  lemma FinishBlock<S>(cfg: Config<S>, args: PassArgs, r: Run<S>, logs: seq<RawLog>, i: nat)
    requires i < |logs| && r.halt == Running && r.last == Some(logs[i].pos.block)
    requires forall m :: i <= m < BlockEnd(logs, i) ==> FreshAt(cfg, r.eng, logs[m]) == []
    ensures RunLogs(cfg, args, r, logs[i..])
         == RunLogs(cfg, args, r.(history := r.history + [BlockEntry(args, r.eng, logs[i].pos.block)]),
                    logs[BlockEnd(logs, i)..])
  {
    var e := BlockEnd(logs, i);
    forall m | i <= m < e - 1
      ensures !EndsBlock(logs[m..])
    {
      assert logs[m..][1] == logs[m + 1] && logs[m..][0] == logs[m];
    }
    SkipQuiet(cfg, args, r, logs, i, e - 1);
    var tail := logs[e - 1..];
    assert tail[0] == logs[e - 1] && tail[1..] == logs[e..];
    assert |tail| > 1 ==> tail[1] == logs[e];
    assert EndsBlock(tail);
  }

  lemma HaltedRun<S>(cfg: Config<S>, args: PassArgs, r: Run<S>, items: seq<Item>, logs: seq<RawLog>)
    requires r.halt != Running && logs != []
    ensures RunItems(cfg, args, r, items) == r && Close(args, r, logs) == r && RunLogs(cfg, args, r, logs[1..]) == r
  {
  }

  /** Executing the first fresh item at the cursor leaves the rest of the walk where it was. */
  lemma ExecuteFirst<S>(cfg: Config<S>, args: PassArgs, r: Run<S>, logs: seq<RawLog>, i: nat)
    requires i < |logs| && r.halt == Running && Wf(cfg, r.eng)
    requires FreshAt(cfg, r.eng, logs[i]) != []
    ensures var r' := RunItem(cfg, args, r, FreshAt(cfg, r.eng, logs[i])[0]);
            RunLogs(cfg, args, r, logs[i..]) == if r'.halt == Running then RunLogs(cfg, args, r', logs[i..]) else r'
  {
    var todo := FreshAt(cfg, r.eng, logs[i]);
    var r' := RunItem(cfg, args, r, todo[0]);
    assert logs[i..][0] == logs[i];
    assert RunItems(cfg, args, r, todo) == RunItems(cfg, args, r', todo[1..]);
    if r'.halt == Running {
      FreshAfterStep(cfg, r.eng, logs[i]);
      assert FreshAt(cfg, r'.eng, logs[i]) == todo[1..];
    } else {
      HaltedRun(cfg, args, r', todo[1..], logs[i..]);
    }
  }

  // ----- run_replay -----

  /** What a pass hands to `sync_once`. */
  datatype ReplayRun<+S> = ReplayRun(eng: Engine<S>, executed: nat, complete: bool, history: seq<Entry<S>>)

  function StartRun<S>(e: Engine<S>): Run<S> {
    Run(e, 0, None, [], Running)
  }

  function PassLogs(chain: seq<RawLog>, args: PassArgs): seq<RawLog> {
    LogsIn(chain, LowerBound(args.from), args.to)
  }

  /** The streaming meaning of a pass. */
  function Pass<S>(cfg: Config<S>, chain: seq<RawLog>, args: PassArgs, e: Engine<S>): Run<S> {
    RunLogs(cfg, args, StartRun(e), PassLogs(chain, args))
  }

  /** What the worklist holds before anything runs: the logs of `sources`, log by log. */
  ghost predicate Gathered(logs: seq<RawLog>, sources: seq<Source>, processed: set<Id>, pending: seq<Item>) {
    && (forall x :: x in pending ==> x.log in logs)
    && (forall k :: 0 <= k < |logs| ==>
          Pick(pending, processed, logs[k].pos) == Fresh(ItemsAt(sources, logs[k]), processed))
  }

  lemma GatherOne(chain: seq<RawLog>, args: PassArgs, sources: seq<Source>, processed: set<Id>, pending: seq<Item>,
                  s: Source)
    requires Ordered(chain) && s.resumed
    requires Gathered(PassLogs(chain, args), sources, processed, pending)
    ensures Gathered(PassLogs(chain, args), sources + [s], processed,
                     pending + ScanPlanned(chain, s, args.from, args.to))
  {
    var logs := PassLogs(chain, args);
    var scan := ScanPlanned(chain, s, args.from, args.to);
    forall x | x in pending + scan
      ensures x.log in logs
    {
      PlannedMember(chain, s, args.from, args.to, x);
    }
    forall k | 0 <= k < |logs|
      ensures Pick(pending + scan, processed, logs[k].pos) == Fresh(ItemsAt(sources + [s], logs[k]), processed)
    {
      PickAppendKnown(chain, args.from, args.to, sources, pending, s, logs[k], processed);
    }
  }

  lemma GatherSorted(logs: seq<RawLog>, sources: seq<Source>, processed: set<Id>, pending: seq<Item>)
    requires Gathered(logs, sources, processed, pending)
    ensures Gathered(logs, sources, processed, SortByPos(pending))
  {
    forall x { SortMember(pending, x); }
    forall k | 0 <= k < |logs| { PickSorted(pending, processed, logs[k].pos); }
  }

  /** The RPC answers for each of the sources. */
  predicate AllReachable(sources: seq<Source>, reachable: Source -> bool) {
    forall k :: 0 <= k < |sources| ==> reachable(sources[k])
  }

  /** Scans a list of sources in order; `None` when the RPC fails on one of them. */
  method ScanSources(chain: seq<RawLog>, args: PassArgs, sources: seq<Source>, ghost before: seq<Source>,
                     start: seq<Item>, ghost processed: set<Id>, reachable: Source -> bool)
    returns (out: Option<seq<Item>>)
    requires Ordered(chain) && forall s :: s in sources ==> s.resumed
    requires Gathered(PassLogs(chain, args), before, processed, start)
    ensures out.Some? ==> Gathered(PassLogs(chain, args), before + sources, processed, out.value)
    ensures out.Some? <==> AllReachable(sources, reachable)
  {
    var pending := start;
    ghost var done := before;
    NoneYet(before, sources);
    for n := 0 to |sources|
      invariant done == before + sources[..n] && Gathered(PassLogs(chain, args), done, processed, pending)
      invariant forall k :: 0 <= k < n ==> reachable(sources[k])
    {
      var s := sources[n];
      if !reachable(s) { return None; }
      GatherOne(chain, args, done, processed, pending, s);
      pending := pending + ScanPlanned(chain, s, args.from, args.to);
      OneMore(before, sources, n);
      done := done + [s];
    }
    out := Some(pending);
  }

  lemma NoneYet(before: seq<Source>, sources: seq<Source>)
    ensures before == before + sources[..0] && sources[..|sources|] == sources
  {
  }

  lemma OneMore(before: seq<Source>, sources: seq<Source>, n: nat)
    requires n < |sources|
    ensures before + sources[..n + 1] == before + sources[..n] + [sources[n]]
  {
  }

  function KeysOf(dyn: seq<Source>): set<(nat, nat)> {
    set d | d in dyn :: (d.name, d.address)
  }

  /** Adds the sources a handler asked for, scanning each one's later logs; `None` when a scan fails. */
  method AddCreated<S(!new)>(cfg: Config<S>, chain: seq<RawLog>, args: PassArgs, creates: seq<Create>, at: Pos,
                             dyn0: seq<Source>, keys0: set<(nat, nat)>, pending0: seq<Item>, ghost i: nat,
                             ghost e: Engine<S>, reachable: Source -> bool)
    returns (out: Option<(seq<Source>, set<(nat, nat)>, seq<Item>)>)
    requires Ordered(chain) && Wf(cfg, e) && e.dyn == dyn0 && keys0 == KeysOf(dyn0)
    requires Ordered(PassLogs(chain, args)) && Tracks(cfg, PassLogs(chain, args), i, e, pending0)
    requires i < |PassLogs(chain, args)| && at == PassLogs(chain, args)[i].pos
    ensures out.Some? ==>
              && out.value.0 == AddSources(cfg, dyn0, creates, at)
              && out.value.1 == KeysOf(out.value.0)
              && Tracks(cfg, PassLogs(chain, args), i, e.(dyn := out.value.0), out.value.2)
    ensures out.Some? <==> AllReachable(AddSources(cfg, dyn0, creates, at)[|dyn0|..], reachable)
  {
    var dyn, keys, pending := dyn0, keys0, pending0;
    ghost var rest, all := creates, AddSources(cfg, dyn0, creates, at);
    SlicedReachable(|dyn0|, all, reachable);
    for n := 0 to |creates|
      invariant rest == creates[n..] && AddSources(cfg, dyn, rest, at) == all
      invariant keys == KeysOf(dyn) && |dyn0| <= |dyn| && ReachableFrom(|dyn0|, dyn, reachable)
      invariant Wf(cfg, e.(dyn := dyn)) && Tracks(cfg, PassLogs(chain, args), i, e.(dyn := dyn), pending)
    {
      var step := AddOne(cfg, chain, args, creates[n], at, dyn, keys, pending, i, e.(dyn := dyn), rest, all, reachable);
      if step.None? { return None; }
      StillReachable(|dyn0|, dyn, step.value.0, reachable);
      dyn, keys, pending := step.value.0, step.value.1, step.value.2;
      rest := rest[1..];
    }
    out := Some((dyn, keys, pending));
  }

  /** The RPC answers for the sources from number `n` on. */
  predicate ReachableFrom(n: nat, sources: seq<Source>, reachable: Source -> bool) {
    forall k :: n <= k < |sources| ==> reachable(sources[k])
  }

  lemma SlicedReachable(n: nat, sources: seq<Source>, reachable: Source -> bool)
    requires n <= |sources|
    ensures AllReachable(sources[n..], reachable) <==> ReachableFrom(n, sources, reachable)
  {
    forall k | n <= k < |sources| ensures sources[k] == sources[n..][k - n] { }
  }

  lemma StillReachable(n: nat, dyn: seq<Source>, more: seq<Source>, reachable: Source -> bool)
    requires n <= |dyn| && dyn <= more
    requires ReachableFrom(n, dyn, reachable) && ReachableFrom(|dyn|, more, reachable)
    ensures ReachableFrom(n, more, reachable)
  {
    forall k | n <= k < |dyn| ensures reachable(more[k]) { assert more[k] == dyn[k]; }
  }

  /** One of them: added, unless its template is unknown or its name and address are taken. */
  method AddOne<S(!new)>(cfg: Config<S>, chain: seq<RawLog>, args: PassArgs, c: Create, at: Pos, dyn: seq<Source>,
                         keys: set<(nat, nat)>, pending: seq<Item>, ghost i: nat, ghost e: Engine<S>,
                         ghost creates: seq<Create>, ghost all: seq<Source>, reachable: Source -> bool)
    returns (out: Option<(seq<Source>, set<(nat, nat)>, seq<Item>)>)
    requires Ordered(chain) && Wf(cfg, e) && e.dyn == dyn && keys == KeysOf(dyn) && creates != [] && c == creates[0]
    requires Ordered(PassLogs(chain, args)) && Tracks(cfg, PassLogs(chain, args), i, e, pending)
    requires i < |PassLogs(chain, args)| && at == PassLogs(chain, args)[i].pos
    requires all == AddSources(cfg, dyn, creates, at)
    ensures out.Some? ==>
              && dyn <= out.value.0 && ReachableFrom(|dyn|, out.value.0, reachable)
              && AddSources(cfg, out.value.0, creates[1..], at) == all && out.value.1 == KeysOf(out.value.0)
              && Wf(cfg, e.(dyn := out.value.0))
              && Tracks(cfg, PassLogs(chain, args), i, e.(dyn := out.value.0), out.value.2)
    ensures out.None? ==> !ReachableFrom(|dyn|, all, reachable)
  {
    ghost var logs := PassLogs(chain, args);
    var source := Instantiate(cfg, c, at);
    AddStep(cfg, chain, args, creates, at, i, e, pending, logs, all);
    if source.None? || (source.value.name, source.value.address) in keys { return Some((dyn, keys, pending)); }
    var s := source.value;
    if !reachable(s) {
      assert all[|dyn|] == s;
      return None;
    }
    out := Some((dyn + [s], keys + {(s.name, s.address)},
                 pending + RetainAfter(ScanPlanned(chain, s, Some(s.start), args.to), at)));
  }

  lemma AddStep<S>(cfg: Config<S>, chain: seq<RawLog>, args: PassArgs, creates: seq<Create>, at: Pos, i: nat,
                   e: Engine<S>, pending: seq<Item>, logs: seq<RawLog>, all: seq<Source>)
    requires Ordered(chain) && logs == PassLogs(chain, args) && Ordered(logs) && creates != []
    requires i < |logs| && at == logs[i].pos && all == AddSources(cfg, e.dyn, creates, at)
    requires Wf(cfg, e) && Tracks(cfg, logs, i, e, pending)
    ensures var source := Instantiate(cfg, creates[0], at);
            if source.Some? && (source.value.name, source.value.address) !in KeysOf(e.dyn) then
              var s := source.value;
              var e' := e.(dyn := e.dyn + [s]);
              && AddSources(cfg, e'.dyn, creates[1..], at) == all && e'.dyn <= all
              && KeysOf(e'.dyn) == KeysOf(e.dyn) + {(s.name, s.address)}
              && Wf(cfg, e')
              && Tracks(cfg, logs, i, e', pending + RetainAfter(ScanPlanned(chain, s, Some(s.start), args.to), at))
            else AddSources(cfg, e.dyn, creates[1..], at) == all
  {
    var source := Instantiate(cfg, creates[0], at);
    if source.Some? {
      var s := source.value;
      KeyTaken(e.dyn, s);
      if (s.name, s.address) !in KeysOf(e.dyn) {
        AddOneWf(cfg, e.dyn, s);
        KeysGrow(e.dyn, s);
        TracksAdded(cfg, chain, LowerBound(args.from), args.to, i, e, pending, s);
      }
    }
  }

  lemma KeysGrow(dyn: seq<Source>, s: Source)
    ensures KeysOf(dyn + [s]) == KeysOf(dyn) + {(s.name, s.address)}
  {
    forall k | k in KeysOf(dyn) + {(s.name, s.address)}
      ensures k in KeysOf(dyn + [s])
    {
      if k in KeysOf(dyn) {
        var d :| d in dyn && k == (d.name, d.address);
        assert d in dyn + [s];
      } else {
        assert s in dyn + [s];
      }
    }
  }

  lemma AddOneWf<S>(cfg: Config<S>, dyn: seq<Source>, s: Source)
    requires WfSources(cfg.statics, dyn) && s.dynamic && !exists d :: d in dyn && SameKey(d, s)
    ensures WfSources(cfg.statics, dyn + [s])
  {
    forall i | 0 <= i < |dyn|
      ensures !SameKey(dyn[i], s)
    {
      assert dyn[i] in dyn;
    }
  }

  /** The loop invariant of a pass that has not stopped: the rest of the walk, from the cursor, gives
      the pass's result; the worklist is in step; and a block waiting to be recorded has logs left. */
  ghost predicate InStep<S>(cfg: Config<S>, args: PassArgs, logs: seq<RawLog>, i: nat, r: Run<S>, pending: seq<Item>,
                            goal: Run<S>)
    requires i <= |logs|
  {
    && r.halt == Running && r.eng.ok && Wf(cfg, r.eng)
    && Tracks(cfg, logs, i, r.eng, pending)
    && RunLogs(cfg, args, r, logs[i..]) == goal
    && Waiting(logs, i, r.last, r.eng.processed, pending)
  }

  ghost predicate Waiting(logs: seq<RawLog>, i: nat, last: Option<nat>, processed: set<Id>, pending: seq<Item>) {
    forall m :: i <= m < |logs| && last == Some(logs[m].pos.block) ==>
      HasUnprocessedInBlock(pending, processed, logs[m].pos.block)
  }

  /** Moving the cursor to the next item. */
  lemma Advance<S>(cfg: Config<S>, args: PassArgs, logs: seq<RawLog>, i: nat, r: Run<S>, pending: seq<Item>,
                   goal: Run<S>)
    returns (k: nat)
    requires Ordered(logs) && i <= |logs| && InStep(cfg, args, logs, i, r, pending, goal)
    requires NextUnprocessed(pending, r.eng.processed).Some?
    ensures i <= k < |logs|
    ensures var x := NextUnprocessed(pending, r.eng.processed).value;
            && x.log == logs[k] && FreshAt(cfg, r.eng, logs[k]) != [] && FreshAt(cfg, r.eng, logs[k])[0] == x
            && goal == (var r' := RunItem(cfg, args, r, x);
                        if r'.halt == Running then RunLogs(cfg, args, r', logs[k..]) else r')
    ensures Tracks(cfg, logs, k, r.eng, pending)
  {
    k := NextAtCursor(cfg, logs, i, r.eng, pending);
    QuietUntil(cfg, logs, i, k, r.eng, pending, r.last);
    SkipQuiet(cfg, args, r, logs, i, k);
    ExecuteFirst(cfg, args, r, logs, k);
    TracksForward(cfg, logs, i, k, r.eng, pending);
  }

  /** When nothing is left, the run is the pass's result. */
  lemma Finished<S>(cfg: Config<S>, args: PassArgs, logs: seq<RawLog>, i: nat, r: Run<S>, pending: seq<Item>,
                    goal: Run<S>)
    requires Ordered(logs) && i <= |logs| && InStep(cfg, args, logs, i, r, pending, goal)
    requires NextUnprocessed(pending, r.eng.processed).None?
    ensures r == goal
  {
    AllProcessed(cfg, logs, i, r.eng, pending);
    QuietUntil(cfg, logs, i, |logs|, r.eng, pending, r.last);
    SkipQuiet(cfg, args, r, logs, i, |logs|);
    assert logs[|logs|..] == [];
  }

  /** Recording a block once nothing in it is left. */
  lemma Record<S>(cfg: Config<S>, args: PassArgs, logs: seq<RawLog>, i: nat, r: Run<S>, pending: seq<Item>)
    requires Ordered(logs) && i < |logs| && r.halt == Running && r.last == Some(logs[i].pos.block)
    requires Tracks(cfg, logs, i, r.eng, pending)
    requires !HasUnprocessedInBlock(pending, r.eng.processed, logs[i].pos.block)
    ensures var e := BlockEnd(logs, i);
            && RunLogs(cfg, args, r, logs[i..])
            == RunLogs(cfg, args, r.(history := r.history + [BlockEntry(args, r.eng, logs[i].pos.block)]), logs[e..])
            && Tracks(cfg, logs, e, r.eng, pending)
            && Waiting(logs, e, r.last, r.eng.processed, pending)
  {
    var e := BlockEnd(logs, i);
    UnprocessedInBlock(cfg, logs, i, r.eng, pending, logs[i].pos.block);
    FinishBlock(cfg, args, r, logs, i);
    TracksForward(cfg, logs, i, e, r.eng, pending);
    LaterBlocks(logs, e, logs[i].pos.block);
  }

  /** After an item has been executed and its sources added, the pass is in step again, past the end
      of the block if nothing in it is left. */
  lemma Committed<S>(cfg: Config<S>, args: PassArgs, logs: seq<RawLog>, i: nat, r: Run<S>, pending: seq<Item>,
                     goal: Run<S>)
    requires Ordered(logs) && i < |logs| && Wf(cfg, r.eng) && r.eng.ok && r.halt == Running
    requires FreshAt(cfg, r.eng, logs[i]) != [] && FreshAt(cfg, r.eng, logs[i])[0].log == logs[i]
    requires var next := RunItem(cfg, args, r, FreshAt(cfg, r.eng, logs[i])[0]);
             && next.halt == Running && goal == RunLogs(cfg, args, next, logs[i..])
             && Tracks(cfg, logs, i, next.eng, pending)
    ensures var next := RunItem(cfg, args, r, FreshAt(cfg, r.eng, logs[i])[0]);
            var b := logs[i].pos.block;
            if HasUnprocessedInBlock(pending, next.eng.processed, b) then
              InStep(cfg, args, logs, i, next, pending, goal)
              && Left(cfg, logs, i, next.eng) < Left(cfg, logs, i, r.eng)
            else
              InStep(cfg, args, logs, BlockEnd(logs, i),
                     next.(history := next.history + [BlockEntry(args, next.eng, b)]), pending, goal)
  {
    var x := FreshAt(cfg, r.eng, logs[i])[0];
    var next := RunItem(cfg, args, r, x);
    StepWf(cfg, r.eng, x);
    FreshAfterStep(cfg, r.eng, logs[i]);
    if HasUnprocessedInBlock(pending, next.eng.processed, logs[i].pos.block) {
      OpenBlock(logs, i, next.eng.processed, pending);
    } else {
      Record(cfg, args, logs, i, next, pending);
    }
  }

  /** The loop's measure: logs from the cursor on, then fresh items at the cursor. */
  ghost function Left<S>(cfg: Config<S>, logs: seq<RawLog>, i: nat, e: Engine<S>): nat {
    if i < |logs| then |FreshAt(cfg, e, logs[i])| else 0
  }

  datatype Handled<+S> =
    | Failed
    | Rejected
    | Accepted(store: S, dyn: seq<Source>, keys: set<(nat, nat)>, pending: seq<Item>)

  /** Runs the handler of one item on a copy of the store.  A trap or a failed scan is a failure of the
      whole pass; validation errors reject the item and change nothing. */
  method RunHandler<S(!new)>(cfg: Config<S>, chain: seq<RawLog>, args: PassArgs, x: Item, store: S, dyn: seq<Source>,
                             keys: set<(nat, nat)>, pending: seq<Item>, ghost i: nat, ghost e: Engine<S>,
                             reachable: Source -> bool)
    returns (out: Handled<S>)
    requires Ordered(chain) && Ordered(PassLogs(chain, args)) && Wf(cfg, e) && e.ok
    requires store == e.store && dyn == e.dyn && keys == KeysOf(dyn)
    requires i < |PassLogs(chain, args)| && x.log == PassLogs(chain, args)[i]
    requires FreshAt(cfg, e, x.log) != [] && FreshAt(cfg, e, x.log)[0] == x
    requires Tracks(cfg, PassLogs(chain, args), i, e, pending)
    ensures out.Failed? <==> cfg.handler(e.store, x).Trap?
                             || (Clean(cfg, e.store, x) && !AllReachable(Step(cfg, e, x).dyn[|e.dyn|..], reachable))
    ensures out.Rejected? ==> !Clean(cfg, e.store, x)
    ensures out.Accepted? ==>
              && Clean(cfg, e.store, x)
              && Step(cfg, e, x) == Engine(out.store, out.dyn, e.trace + [x], e.processed + {IdOf(x)}, true)
              && out.keys == KeysOf(out.dyn)
              && Tracks(cfg, PassLogs(chain, args), i, Step(cfg, e, x), out.pending)
  {
    var outcome := cfg.handler(store, x);
    if outcome.Trap? { return Failed; }
    if outcome.errors > 0 { return Rejected; }
    TracksProcessed(cfg, PassLogs(chain, args), i, e, pending, x, outcome.store);
    var added := AddCreated(cfg, chain, args, outcome.creates, x.log.pos, dyn, keys, pending, i,
                            Engine(outcome.store, e.dyn, e.trace + [x], e.processed + {IdOf(x)}, e.ok), reachable);
    if added.None? { return Failed; }
    out := Accepted(outcome.store, added.value.0, added.value.1, added.value.2);
  }

  /** Scans the static sources and sorts, then appends the dynamic sources known from the checkpoint. */
  method Gather<S(!new)>(cfg: Config<S>, chain: seq<RawLog>, args: PassArgs, e: Engine<S>, reachable: Source -> bool)
    returns (pending: Option<seq<Item>>)
    requires Ordered(chain) && Wf(cfg, e) && e.ok
    requires forall d :: d in e.dyn ==> d.resumed
    ensures pending.Some? <==> AllReachable(cfg.statics + e.dyn, reachable)
    ensures pending.Some? ==>
              InStep(cfg, args, PassLogs(chain, args), 0, StartRun(e), pending.value, Pass(cfg, chain, args, e))
  {
    ghost var logs := PassLogs(chain, args);
    LogsInOrdered(chain, LowerBound(args.from), args.to);
    NothingGathered(logs, e.processed);
    ReachableConcat(cfg.statics, e.dyn, reachable);
    var scanned := ScanSources(chain, args, cfg.statics, [], [], e.processed, reachable);
    if scanned.None? { return None; }
    assert [] + cfg.statics == cfg.statics;
    GatherSorted(logs, cfg.statics, e.processed, scanned.value);
    pending := ScanSources(chain, args, e.dyn, cfg.statics, SortByPos(scanned.value), e.processed, reachable);
    if pending.Some? { GatheredStart(cfg, chain, args, e, pending.value, logs); }
  }

  lemma GatheredStart<S>(cfg: Config<S>, chain: seq<RawLog>, args: PassArgs, e: Engine<S>, pending: seq<Item>,
                         logs: seq<RawLog>)
    requires Wf(cfg, e) && e.ok && logs == PassLogs(chain, args)
    requires Gathered(logs, cfg.statics + e.dyn, e.processed, pending)
    ensures InStep(cfg, args, logs, 0, StartRun(e), pending, Pass(cfg, chain, args, e))
  {
    assert logs[0..] == logs;
  }

  lemma ReachableConcat(a: seq<Source>, b: seq<Source>, reachable: Source -> bool)
    ensures AllReachable(a + b, reachable) <==> AllReachable(a, reachable) && AllReachable(b, reachable)
  {
    forall k | 0 <= k < |a| ensures (a + b)[k] == a[k] { }
    forall k | 0 <= k < |b| ensures (a + b)[|a| + k] == b[k] { }
  }

  lemma {:induction false} RunItemsSources<S>(cfg: Config<S>, args: PassArgs, r: Run<S>, items: seq<Item>)
    ensures r.eng.dyn <= RunItems(cfg, args, r, items).eng.dyn
    decreases items
  {
    if r.halt == Running && items != [] {
      RunItemsSources(cfg, args, RunItem(cfg, args, r, items[0]), items[1..]);
    }
  }

  /** A run only adds sources. */
  lemma {:induction false} RunSources<S>(cfg: Config<S>, args: PassArgs, r: Run<S>, logs: seq<RawLog>)
    ensures r.eng.dyn <= RunLogs(cfg, args, r, logs).eng.dyn
    decreases logs
  {
    if r.halt == Running && logs != [] {
      var s := RunItems(cfg, args, r, FreshAt(cfg, r.eng, logs[0]));
      RunItemsSources(cfg, args, r, FreshAt(cfg, r.eng, logs[0]));
      RunSources(cfg, args, Close(args, s, logs), logs[1..]);
    }
  }

  lemma StartUnreached(statics: seq<Source>, dyn: seq<Source>, all: seq<Source>, reachable: Source -> bool)
    requires dyn <= all && !AllReachable(statics + dyn, reachable)
    ensures !AllReachable(statics + all, reachable)
  {
    ReachableConcat(statics, dyn, reachable);
    ReachableConcat(statics, all, reachable);
  }

  lemma MoreReachable(statics: seq<Source>, dyn: seq<Source>, all: seq<Source>, reachable: Source -> bool)
    requires dyn <= all && AllReachable(statics + dyn, reachable) && AllReachable(all[|dyn|..], reachable)
    ensures AllReachable(statics + all, reachable)
  {
    ReachableConcat(statics, dyn, reachable);
    ReachableConcat(statics, all, reachable);
    ReachableConcat(dyn, all[|dyn|..], reachable);
    assert dyn + all[|dyn|..] == all;
  }

  /** A source of a step that the RPC does not answer for is one of the whole pass. */
  lemma StillUnreached(statics: seq<Source>, before: nat, some: seq<Source>, all: seq<Source>,
                       reachable: Source -> bool)
    requires some <= all && before <= |some| && !AllReachable(some[before..], reachable)
    ensures !AllReachable(statics + all, reachable)
  {
    ReachableConcat(statics, all, reachable);
    var k :| 0 <= k < |some[before..]| && !reachable(some[before..][k]);
    assert all[before + k] == some[before..][k];
  }

  lemma GatherFailed<S>(cfg: Config<S>, chain: seq<RawLog>, args: PassArgs, e: Engine<S>, reachable: Source -> bool)
    requires !AllReachable(cfg.statics + e.dyn, reachable)
    ensures !AllReachable(cfg.statics + Pass(cfg, chain, args, e).eng.dyn, reachable)
  {
    RunSources(cfg, args, StartRun(e), PassLogs(chain, args));
    StartUnreached(cfg.statics, e.dyn, Pass(cfg, chain, args, e).eng.dyn, reachable);
  }

  lemma StepFailed<S>(cfg: Config<S>, args: PassArgs, next: Run<S>, logs: seq<RawLog>, goal: Run<S>, before: nat,
                      reachable: Source -> bool)
    requires RunLogs(cfg, args, next, logs) == goal && before <= |next.eng.dyn|
    requires !AllReachable(next.eng.dyn[before..], reachable)
    ensures !AllReachable(cfg.statics + goal.eng.dyn, reachable)
  {
    RunSources(cfg, args, next, logs);
    StillUnreached(cfg.statics, before, next.eng.dyn, goal.eng.dyn, reachable);
  }

  /** One pass.  `e` is the state it starts from (its trace lists what earlier passes executed);
      `reachable` says for which sources the RPC answers.  The pass fails exactly when the scan of one of its
      sources or a handler does, and then has no result; otherwise its result is that of the streaming walk. */
  method RunReplay<S(!new)>(cfg: Config<S>, chain: seq<RawLog>, args: PassArgs, e: Engine<S>, reachable: Source -> bool)
    returns (out: Result<ReplayRun<S>>)
    requires Ordered(chain) && Wf(cfg, e) && e.ok
    requires forall d :: d in e.dyn ==> d.resumed
    ensures out.Ok? ==>
              var r := Pass(cfg, chain, args, e);
              && r.halt != Trapped
              && out.value == ReplayRun(r.eng, r.executed, r.halt == Running, r.history)
    ensures var r := Pass(cfg, chain, args, e);
            out.Ok? <==> r.halt != Trapped && AllReachable(cfg.statics + r.eng.dyn, reachable)
  {
    ghost var logs := PassLogs(chain, args);
    ghost var goal := Pass(cfg, chain, args, e);
    LogsInOrdered(chain, LowerBound(args.from), args.to);
    var gathered := Gather(cfg, chain, args, e, reachable);
    if gathered.None? {
      GatherFailed(cfg, chain, args, e, reachable);
      return Err;
    }
    var pending := gathered.value;

    var store, dyn, trace, processed := e.store, e.dyn, e.trace, e.processed;
    var keys := KeysOf(dyn);
    var executed, last, history, halt := 0, None, [], Running;
    ghost var i := 0;
    ghost var run := StartRun(e);
    assert logs[0..] == logs;
    while halt == Running && NextUnprocessed(pending, processed).Some?
      invariant 0 <= i <= |logs|
      invariant run == Run(Engine(store, dyn, trace, processed, true), executed, last, history, halt)
      invariant halt == Running ==> InStep(cfg, args, logs, i, run, pending, goal) && keys == KeysOf(dyn)
      invariant halt != Running ==> goal == run && halt != Trapped && NextUnprocessed(pending, processed).Some?
      invariant AllReachable(cfg.statics + dyn, reachable)
      decreases if halt == Running then 1 else 0, |logs| - i, Left(cfg, logs, i, run.eng)
    {
      var x := NextUnprocessed(pending, processed).value;
      i := Advance(cfg, args, logs, i, run, pending, goal);
      if args.limit == 0 || (executed >= args.limit && last != Some(x.log.pos.block)) {
        halt := Limited;
        run := run.(halt := Limited);
      } else {
        var handled := RunHandler(cfg, chain, args, x, store, dyn, keys, pending, i, run.eng, reachable);
        match handled {
          case Failed =>
            if cfg.handler(store, x).Ran? {
              StepFailed(cfg, args, RunItem(cfg, args, run, x), logs[i..], goal, |dyn|, reachable);
            }
            return Err;
          case Rejected =>
            executed, halt := executed + 1, Invalid;
            run := run.(executed := executed, halt := Invalid);
          case Accepted(store', dyn', keys', pending') =>
            ghost var before := run;
            run := RunItem(cfg, args, run, x);
            MoreReachable(cfg.statics, dyn, dyn', reachable);
            store, dyn, keys, pending := store', dyn', keys', pending';
            trace, processed := trace + [x], processed + {IdOf(x)};
            executed, last := executed + 1, Some(x.log.pos.block);
            assert run == Run(Engine(store, dyn, trace, processed, true), executed, last, history, Running);
            Committed(cfg, args, logs, i, before, pending, goal);
            if !HasUnprocessedInBlock(pending, processed, x.log.pos.block) {
              var block := x.log.pos.block;
              history := history + [Entry(args.from, block, args.hashAt(block), false, store, Persist(dyn))];
              run := run.(history := history);
              i := BlockEnd(logs, i);
            }
        }
      }
    }
    if halt == Running {
      Finished(cfg, args, logs, i, run, pending, goal);
    }
    var complete := NextUnprocessed(pending, processed).None?;
    out := Ok(ReplayRun(Engine(store, dyn, trace, processed, true), executed, complete, history));
  }

  lemma NothingGathered(logs: seq<RawLog>, processed: set<Id>)
    ensures Gathered(logs, [], processed, [])
  {
  }

  lemma OpenBlock(logs: seq<RawLog>, i: nat, processed: set<Id>, pending: seq<Item>)
    requires i < |logs| && HasUnprocessedInBlock(pending, processed, logs[i].pos.block)
    ensures Waiting(logs, i, Some(logs[i].pos.block), processed, pending)
  {
  }

  lemma KeyTaken(dyn: seq<Source>, s: Source)
    requires s.dynamic && forall d :: d in dyn ==> d.dynamic
    ensures (s.name, s.address) in KeysOf(dyn) <==> exists d :: d in dyn && SameKey(d, s)
  {
    if d :| d in dyn && SameKey(d, s) {
      assert (d.name, d.address) == (s.name, s.address);
    }
  }

  lemma TracksForward<S>(cfg: Config<S>, logs: seq<RawLog>, i: nat, k: nat, e: Engine<S>, pending: seq<Item>)
    requires Tracks(cfg, logs, i, e, pending) && i <= k <= |logs|
    requires forall m :: i <= m < k ==> FreshAt(cfg, e, logs[m]) == []
    ensures Tracks(cfg, logs, k, e, pending)
  {
  }

  lemma LaterBlocks(logs: seq<RawLog>, e: nat, block: nat)
    requires Ordered(logs) && 0 < e <= |logs|
    requires logs[e - 1].pos.block == block
    requires e < |logs| ==> logs[e].pos.block != block
    ensures forall m :: e <= m < |logs| ==> logs[m].pos.block != block
  {
    forall m | e <= m < |logs|
      ensures logs[m].pos.block != block
    {
      assert Before(logs[e - 1].pos, logs[e].pos);
      if e < m { assert Before(logs[e].pos, logs[m].pos); }
    }
  }

  /** Between the cursor and the next fresh log no block is waiting to be recorded. */
  lemma QuietUntil<S>(cfg: Config<S>, logs: seq<RawLog>, i: nat, k: nat, e: Engine<S>, pending: seq<Item>,
                      last: Option<nat>)
    requires Ordered(logs) && Tracks(cfg, logs, i, e, pending)
    requires i <= k <= |logs| && forall m :: i <= m < k ==> FreshAt(cfg, e, logs[m]) == []
    requires forall m :: i <= m < |logs| && last == Some(logs[m].pos.block) ==>
               HasUnprocessedInBlock(pending, e.processed, logs[m].pos.block)
    ensures forall m :: i <= m < k ==> last != Some(logs[m].pos.block) || !EndsBlock(logs[m..])
  {
    forall m | i <= m < k && last == Some(logs[m].pos.block)
      ensures !EndsBlock(logs[m..])
    {
      UnprocessedInBlock(cfg, logs, i, e, pending, logs[m].pos.block);
      var j :| i <= j < |logs| && logs[j].pos.block == logs[m].pos.block && FreshAt(cfg, e, logs[j]) != [];
      assert Before(logs[m].pos, logs[m + 1].pos);
      if m + 1 < j { assert Before(logs[m + 1].pos, logs[j].pos); }
      assert logs[m..][1] == logs[m + 1] && logs[m..][0] == logs[m];
    }
  }
}
