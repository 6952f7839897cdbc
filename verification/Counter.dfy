/** A handler that counts what it is run on, over static sources: what it stores tells how often each log was
    executed, so it shows when a sync goes wrong. */
module Counter {
  import opened ChainModel
  import opened Streaming
  import opened Resume
  import opened Runs

  function Counting(statics: seq<Source>): Config<int> {
    Config(statics, map[], (n: int, x: Item) => Ran(n + 1, [], 0))
  }

  // ----- how many items the logs have -----

  function Count(statics: seq<Source>, logs: seq<RawLog>): nat {
    if logs == [] then 0 else |ItemsAt(statics, logs[0])| + Count(statics, logs[1..])
  }

  lemma {:induction false} CountConcat(statics: seq<Source>, a: seq<RawLog>, b: seq<RawLog>)
    ensures Count(statics, a + b) == Count(statics, a) + Count(statics, b)
  {
    if a == [] {
      assert a + b == b;
    } else {
      assert (a + b)[1..] == a[1..] + b;
      CountConcat(statics, a[1..], b);
    }
  }

  lemma {:induction false} CountZero(statics: seq<Source>, logs: seq<RawLog>)
    ensures Count(statics, logs) == 0 <==> forall l :: l in logs ==> ItemsAt(statics, l) == []
  {
    if logs != [] {
      CountZero(statics, logs[1..]);
      assert logs == [logs[0]] + logs[1..];
      assert logs[0] in logs && forall l :: l in logs[1..] ==> l in logs;
    }
  }

  lemma CountSplit(statics: seq<Source>, chain: seq<RawLog>, from: nat, mid: nat, next: nat, to: nat)
    requires Ordered(chain) && from <= next && next == mid + 1 && mid <= to
    ensures Count(statics, LogsIn(chain, from, to))
         == Count(statics, LogsIn(chain, from, mid)) + Count(statics, LogsIn(chain, next, to))
  {
    LogsInSplit(chain, from, mid, to);
    CountConcat(statics, LogsIn(chain, from, mid), LogsIn(chain, next, to));
  }

  // ----- how many of them have not been processed -----

  function Remaining(statics: seq<Source>, processed: set<Id>, logs: seq<RawLog>): nat {
    if logs == [] then 0 else |Fresh(ItemsAt(statics, logs[0]), processed)| + Remaining(statics, processed, logs[1..])
  }

  lemma {:induction false} RemainingZero(statics: seq<Source>, processed: set<Id>, logs: seq<RawLog>)
    ensures Remaining(statics, processed, logs) == 0
            <==> forall l :: l in logs ==> Fresh(ItemsAt(statics, l), processed) == []
  {
    if logs != [] {
      RemainingZero(statics, processed, logs[1..]);
      assert logs == [logs[0]] + logs[1..];
      assert logs[0] in logs && forall l :: l in logs[1..] ==> l in logs;
    }
  }

  lemma {:induction false} RemainingConcat(statics: seq<Source>, processed: set<Id>, a: seq<RawLog>, b: seq<RawLog>)
    ensures Remaining(statics, processed, a + b) == Remaining(statics, processed, a) + Remaining(statics, processed, b)
  {
    if a == [] {
      assert a + b == b;
    } else {
      assert (a + b)[1..] == a[1..] + b;
      RemainingConcat(statics, processed, a[1..], b);
    }
  }

  lemma RemainingSplit(statics: seq<Source>, processed: set<Id>, chain: seq<RawLog>, from: nat, mid: nat, next: nat,
                       to: nat)
    requires Ordered(chain) && from <= next && next == mid + 1 && mid <= to
    ensures Remaining(statics, processed, LogsIn(chain, from, to))
         == Remaining(statics, processed, LogsIn(chain, from, mid))
            + Remaining(statics, processed, LogsIn(chain, next, to))
  {
    LogsInSplit(chain, from, mid, to);
    RemainingConcat(statics, processed, LogsIn(chain, from, mid), LogsIn(chain, next, to));
  }

  /** Identities at other positions do not matter. */
  lemma {:induction false} RemainingSame(statics: seq<Source>, p: set<Id>, q: set<Id>, logs: seq<RawLog>)
    requires forall l: RawLog, id: Id :: l in logs && id.pos == l.pos ==> (id in p <==> id in q)
    ensures Remaining(statics, p, logs) == Remaining(statics, q, logs)
  {
    if logs != [] {
      var l := logs[0];
      assert l in logs && forall m :: m in logs[1..] ==> m in logs;
      forall x | x in ItemsAt(statics, l) ensures IdOf(x) in p <==> IdOf(x) in q {
        ItemsAtMember(statics, l, x);
        assert IdOf(x).pos == l.pos;
      }
      FreshSame(ItemsAt(statics, l), p, q);
      RemainingSame(statics, p, q, logs[1..]);
    }
  }

  /** Some item of the logs has been processed. */
  ghost predicate SomeProcessed(statics: seq<Source>, processed: set<Id>, logs: seq<RawLog>) {
    exists l, x :: l in logs && x in ItemsAt(statics, l) && IdOf(x) in processed
  }

  lemma {:induction false} FreshLess(items: seq<Item>, processed: set<Id>)
    ensures |Fresh(items, processed)| <= |items|
    ensures |Fresh(items, processed)| == |items| <==> forall x :: x in items ==> IdOf(x) !in processed
  {
    if items != [] {
      FreshLess(items[1..], processed);
      assert items == [items[0]] + items[1..] && items[0] in items;
    }
  }

  /** There is less left than there is, unless nothing has been processed. */
  lemma {:induction false} RemainingLess(statics: seq<Source>, processed: set<Id>, logs: seq<RawLog>)
    ensures Remaining(statics, processed, logs) <= Count(statics, logs)
    ensures Remaining(statics, processed, logs) == Count(statics, logs) <==> !SomeProcessed(statics, processed, logs)
  {
    if logs != [] {
      var l, rest := logs[0], logs[1..];
      assert logs == [l] + rest && l in logs && forall m :: m in rest ==> m in logs;
      RemainingLess(statics, processed, rest);
      FreshLess(ItemsAt(statics, l), processed);
      if SomeProcessed(statics, processed, logs) {
        var m, x :| m in logs && x in ItemsAt(statics, m) && IdOf(x) in processed;
        assert m == l || m in rest;
      }
    }
  }

  // ----- what the handler stores -----

  lemma {:induction false} CountItems(statics: seq<Source>, e: Engine<int>, items: seq<Item>)
    requires e.ok && e.dyn == []
    ensures var f := WalkItems(Counting(statics), e, items);
            f.ok && f.dyn == [] && f.store == e.store + |items| && f.trace == e.trace + items
    decreases items
  {
    if items != [] {
      CountItems(statics, Step(Counting(statics), e, items[0]), items[1..]);
      assert (e.trace + [items[0]]) + items[1..] == e.trace + items;
    }
  }

  /** A counting walk counts the items; it executes nothing else, and creates no source. */
  lemma {:induction false} CountWalk(statics: seq<Source>, e: Engine<int>, logs: seq<RawLog>)
    requires e.ok && e.dyn == []
    ensures var f := Walk(Counting(statics), e, logs);
            && f.ok && f.dyn == [] && f.store == e.store + Count(statics, logs)
            && forall x :: x in f.trace ==> x in e.trace || exists l :: l in logs && x in ItemsAt(statics, l)
    decreases logs
  {
    if logs != [] {
      assert statics + [] == statics;
      var g := WalkItems(Counting(statics), e, ItemsAt(statics, logs[0]));
      CountItems(statics, e, ItemsAt(statics, logs[0]));
      CountWalk(statics, g, logs[1..]);
      assert logs[0] in logs && forall l :: l in logs[1..] ==> l in logs;
      forall x | x in Walk(Counting(statics), e, logs).trace && x !in e.trace
        ensures exists l :: l in logs && x in ItemsAt(statics, l)
      {
        if x in g.trace {
          assert x in ItemsAt(statics, logs[0]);
        } else {
          var l :| l in logs[1..] && x in ItemsAt(statics, l);
        }
      }
    }
  }

  lemma ReferenceCount(statics: seq<Source>, chain: seq<RawLog>, first: nat, t: nat)
    ensures var r := Reference(Counting(statics), chain, first, 0, t);
            && r.store == Count(statics, LogsIn(chain, first, t)) && r.sources == [] && r.ok
            && forall x :: x in r.trace ==> exists l :: l in LogsIn(chain, first, t) && x in ItemsAt(statics, l)
  {
    CountWalk(statics, FreshEngine(0), LogsIn(chain, first, t));
  }

  /** Nothing is ever asked of the dynamic sources of a counting sync: there are none. */
  lemma CountingRegular(statics: seq<Source>, chain: seq<RawLog>, first: nat)
    ensures ApartChain(Counting(statics), chain, first, 0) && NoneEarlierChain(Counting(statics), chain, first, 0)
  {
    forall t: nat
      ensures Reference(Counting(statics), chain, first, 0, t).sources == []
    {
      ReferenceCount(statics, chain, first, t);
    }
  }

  /** A counting walk that skips what was processed adds what is left. */
  lemma {:induction false} CountRemaining(statics: seq<Source>, e: Engine<int>, logs: seq<RawLog>)
    requires e.ok && e.dyn == [] && Ordered(logs)
    ensures WalkP(Counting(statics), e, logs).store == e.store + Remaining(statics, e.processed, logs)
    decreases logs
  {
    if logs != [] {
      var cfg, l, rest := Counting(statics), logs[0], logs[1..];
      assert statics + [] == statics;
      var items := FreshAt(cfg, e, l);
      var f := WalkItems(cfg, e, items);
      CountItems(statics, e, items);
      CountRemaining(statics, f, rest);
      forall m: RawLog, id: Id | m in rest && id.pos == m.pos ensures id in f.processed <==> id in e.processed {
        var k :| 0 <= k < |rest| && rest[k] == m;
        assert Before(logs[0].pos, logs[k + 1].pos);
        OthersProcessed(cfg, e, items, l, id);
      }
      RemainingSame(statics, f.processed, e.processed, rest);
    }
  }

  lemma OthersProcessed(cfg: Config<int>, e: Engine<int>, items: seq<Item>, l: RawLog, id: Id)
    requires items == FreshAt(cfg, e, l) && id.pos != l.pos
    ensures id in WalkItems(cfg, e, items).processed <==> id in e.processed
  {
    ActiveAtLog(cfg, e, l);
    ProcessedItems(cfg, e, items, id);
    GrewItems(cfg, e, items, l.pos);
  }

  // ----- static sources and their logs -----

  /** Static sources make items of exactly the logs that their filters let through. */
  lemma NoItems(statics: seq<Source>, l: RawLog)
    requires forall s :: s in statics ==> s.resumed
    ensures ItemsAt(statics, l) == [] <==> forall s :: s in statics ==> !Filter(s, l)
  {
    if forall s :: s in statics ==> !Filter(s, l) {
      ItemsAtNone(statics, l);
    } else {
      var s :| s in statics && Filter(s, l);
      ItemsAtMember(statics, l, ItemOf(s, l));
      assert Matches(s, l) && ItemOf(s, l) in ItemsAt(statics, l);
    }
  }

  lemma QuietCount(statics: seq<Source>, chain: seq<RawLog>, t: nat, next: nat, last: nat, start: nat)
    requires (forall s :: s in statics ==> s.resumed) && next == t + 1 && start == last + 1
    ensures Quiet(statics, chain, t, start) <==> Count(statics, LogsIn(chain, next, last)) == 0
  {
    CountZero(statics, LogsIn(chain, next, last));
    forall l ensures l in LogsIn(chain, next, last) <==> l in chain && t < l.pos.block < start {
      LogsInMember(chain, next, last, l);
    }
    forall l ensures ItemsAt(statics, l) == [] <==> forall s :: s in statics ==> !Filter(s, l) { NoItems(statics, l); }
  }

  /** Some block lies at or after all processed identities. */
  lemma {:induction false} TopExists(processed: set<Id>) returns (b: nat)
    ensures forall id :: id in processed ==> id.pos.block <= b
    decreases |processed|
  {
    b := 0;
    if processed != {} {
      var id :| id in processed;
      var c := TopExists(processed - {id});
      b := if c < id.pos.block then id.pos.block else c;
      assert forall other :: other in processed ==> other == id || other in processed - {id};
    }
  }
}
