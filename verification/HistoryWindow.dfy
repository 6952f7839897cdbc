/** The bounded history of retained states: `push_history_snapshot` and `merge_history`. */
module HistoryWindow {
  import opened ChainModel
  import opened Streaming

  ghost predicate Increasing<S>(h: seq<Entry<S>>) {
    forall i, j :: 0 <= i < j < |h| ==> h[i].to < h[j].to
  }

  // ----- the operation, step by step -----

  /** Drops the entries of one block. */
  function Without<S>(h: seq<Entry<S>>, block: nat): seq<Entry<S>> {
    if h == [] then []
    else (if h[0].to != block then [h[0]] else []) + Without(h[1..], block)
  }

  function InsertByBlock<S>(e: Entry<S>, sorted: seq<Entry<S>>): seq<Entry<S>> {
    if sorted == [] || e.to <= sorted[0].to then [e] + sorted
    else [sorted[0]] + InsertByBlock(e, sorted[1..])
  }

  /** The stable sort by block. */
  function SortByBlock<S>(h: seq<Entry<S>>): seq<Entry<S>> {
    if h == [] then [] else InsertByBlock(h[0], SortByBlock(h[1..]))
  }

  /** The newest `limit` entries; a limit of zero keeps everything. */
  function Newest<S>(h: seq<Entry<S>>, limit: nat): seq<Entry<S>> {
    if limit > 0 && |h| > limit then h[|h| - limit..] else h
  }

  function Push<S>(h: seq<Entry<S>>, e: Entry<S>, limit: nat): seq<Entry<S>> {
    Newest(SortByBlock(Without(h, e.to) + [e]), limit)
  }

  function PushAll<S>(h: seq<Entry<S>>, es: seq<Entry<S>>, limit: nat): seq<Entry<S>>
    decreases es
  {
    if es == [] then h else PushAll(Push(h, es[0], limit), es[1..], limit)
  }

  /** The retained history, edited in place. */
  class History<S> {
    var entries: seq<Entry<S>>

    constructor (initial: seq<Entry<S>>)
      ensures entries == initial
    {
      entries := initial;
    }

    method PushSnapshot(e: Entry<S>, limit: nat)
      modifies this
      ensures entries == Push(old(entries), e, limit)
      ensures Increasing(old(entries)) ==> entries == Newest(Place(old(entries), e), limit)
    {
      if Increasing(entries) { PushIsPlace(entries, e); }
      entries := SortByBlock(Without(entries, e.to) + [e]);
      if limit > 0 && |entries| > limit {
        entries := entries[|entries| - limit..];
      }
    }

    /** Adds the previous snapshot, the entries of the pass, and the new snapshot, in that order. */
    method Merge(previous: Option<Entry<S>>, news: seq<Entry<S>>, current: Entry<S>, limit: nat)
      modifies this
      ensures entries == PushAll(old(entries), Incoming(previous, news, current), limit)
    {
      ghost var all := Incoming(previous, news, current);
      ghost var first := entries;
      if previous.Some? {
        PushSnapshot(previous.value, limit);
        assert all[0] == previous.value && all[1..] == news + [current];
      } else {
        assert all == news + [current];
      }
      assert news[0..] == news;
      for n := 0 to |news|
        invariant PushAll(entries, news[n..] + [current], limit) == PushAll(first, all, limit)
      {
        PushSnapshot(news[n], limit);
        assert (news[n..] + [current])[0] == news[n];
        assert (news[n..] + [current])[1..] == news[n + 1..] + [current];
      }
      PushSnapshot(current, limit);
      assert news[|news|..] + [current] == [current];
    }
  }

  function Incoming<S>(previous: Option<Entry<S>>, news: seq<Entry<S>>, current: Entry<S>): seq<Entry<S>> {
    (if previous.Some? then [previous.value] else []) + news + [current]
  }

  // ----- what it means -----

  /** Puts an entry at its block, replacing the entry of the same block. */
  function Place<S>(h: seq<Entry<S>>, e: Entry<S>): seq<Entry<S>>
    decreases h
  {
    if h == [] || e.to < h[0].to then [e] + h
    else if e.to == h[0].to then [e] + h[1..]
    else [h[0]] + Place(h[1..], e)
  }

  lemma {:induction false} WithoutAbsent<S>(h: seq<Entry<S>>, block: nat)
    requires forall e :: e in h ==> e.to != block
    ensures Without(h, block) == h
  {
    if h != [] {
      WithoutAbsent(h[1..], block);
    }
  }

  /** Sorting with a small head, or a list already sorted, does what one expects. */
  lemma {:induction false} SortAppended<S>(h: seq<Entry<S>>, e: Entry<S>)
    requires Increasing(h) && forall x :: x in h ==> x.to != e.to
    ensures SortByBlock(h + [e]) == Place(h, e)
    ensures forall x :: x in Place(h, e) <==> x == e || x in h
  {
    if h == [] {
      assert h + [e] == [e];
    } else {
      assert (h + [e])[1..] == h[1..] + [e];
      SortAppended(h[1..], e);
      var tail := Place(h[1..], e);
      if h[0].to < e.to {
        assert h[0].to <= tail[0].to;
      } else {
        HeadAfterPlace(h[1..], e, h[0]);
      }
    }
  }

  lemma HeadAfterPlace<S>(h: seq<Entry<S>>, e: Entry<S>, x: Entry<S>)
    requires e.to < x.to && forall y :: y in h ==> x.to < y.to
    ensures InsertByBlock(x, Place(h, e)) == [e, x] + h
  {
    assert Place(h, e) == [e] + h;
    assert ([e] + h)[1..] == h;
    assert h != [] ==> h[0] in h;
  }

  /** On a sorted history without duplicates, pushing is placing. */
  lemma {:induction false} PushIsPlace<S>(h: seq<Entry<S>>, e: Entry<S>)
    requires Increasing(h)
    ensures SortByBlock(Without(h, e.to) + [e]) == Place(h, e)
  {
    WithoutIncreasing(h, e.to);
    forall x | x in Without(h, e.to) ensures x.to != e.to { WithoutMember(h, e.to, x); }
    SortAppended(Without(h, e.to), e);
    PlaceWithout(h, e);
  }

  lemma {:induction false} WithoutIncreasing<S>(h: seq<Entry<S>>, block: nat)
    requires Increasing(h)
    ensures Increasing(Without(h, block))
  {
    if h != [] {
      WithoutIncreasing(h[1..], block);
      forall x | x in Without(h[1..], block)
        ensures h[0].to < x.to
      {
        WithoutMember(h[1..], block, x);
        var k :| 0 <= k < |h[1..]| && h[1..][k] == x;
        assert h[0].to < h[k + 1].to;
      }
    }
  }

  lemma {:induction false} WithoutMember<S>(h: seq<Entry<S>>, block: nat, x: Entry<S>)
    ensures x in Without(h, block) <==> x in h && x.to != block
  {
    if h != [] {
      WithoutMember(h[1..], block, x);
    }
  }

  lemma {:induction false} PlaceMember<S>(h: seq<Entry<S>>, e: Entry<S>, x: Entry<S>)
    requires Increasing(h)
    ensures x in Place(h, e) <==> x == e || (x in h && x.to != e.to)
    decreases h
  {
    if h != [] {
      if h[0].to < e.to {
        PlaceMember(h[1..], e, x);
      } else if x in h[1..] {
        var k :| 0 <= k < |h[1..]| && h[1..][k] == x;
        assert h[0].to < h[k + 1].to;
      }
    }
  }

  lemma {:induction false} PlaceWithout<S>(h: seq<Entry<S>>, e: Entry<S>)
    requires Increasing(h)
    ensures Place(Without(h, e.to), e) == Place(h, e)
  {
    if h != [] {
      if h[0].to < e.to {
        PlaceWithout(h[1..], e);
      } else {
        forall x | x in h[1..]
          ensures x.to != e.to && e.to < x.to
        {
          var k :| 0 <= k < |h[1..]| && h[1..][k] == x;
          assert h[0].to < h[k + 1].to;
        }
        WithoutAbsent(h[1..], e.to);
      }
    }
  }

  lemma {:induction false} PlaceIncreasing<S>(h: seq<Entry<S>>, e: Entry<S>)
    requires Increasing(h)
    ensures Increasing(Place(h, e))
    ensures |h| <= |Place(h, e)|
    decreases h
  {
    if h != [] {
      if h[0].to < e.to {
        PlaceIncreasing(h[1..], e);
        var tail := Place(h[1..], e);
        forall x | x in tail
          ensures h[0].to < x.to
        {
          PlaceMember(h[1..], e, x);
          if x != e {
            var k :| 0 <= k < |h[1..]| && h[1..][k] == x;
            assert h[0].to < h[k + 1].to;
          }
        }
      } else {
        forall x | x in h[1..]
          ensures e.to < x.to
        {
          var k :| 0 <= k < |h[1..]| && h[1..][k] == x;
          assert h[0].to < h[k + 1].to;
        }
      }
    }
  }

  /** Dropping an old entry first does not change the newest ones. */
  lemma DropOldest<S>(h: seq<Entry<S>>, e: Entry<S>, limit: nat)
    requires Increasing(h) && 0 < limit < |h|
    ensures Newest(Place(h[1..], e), limit) == Newest(Place(h, e), limit)
  {
    PlaceIncreasing(h[1..], e);
    var rest, tail := h[1..], Place(h[1..], e);
    assert h[0].to < h[1].to;
    if h[0].to < e.to {
      assert Place(h, e) == [h[0]] + tail;
      LastOf(h[0], tail, limit);
    } else if h[0].to == e.to {
      assert tail == [e] + rest;
    } else {
      assert Place(h, e) == [e, h[0]] + rest && tail == [e] + rest;
      LastTwo(e, h[0], rest, limit);
    }
  }

  /** The newest entries do not include one put in front of enough others. */
  lemma LastOf<S>(x: Entry<S>, tail: seq<Entry<S>>, limit: nat)
    requires 0 < limit <= |tail|
    ensures Newest([x] + tail, limit) == Newest(tail, limit)
  {
    var all := [x] + tail;
    assert all[|all| - limit..] == tail[|tail| - limit..];
  }

  lemma LastTwo<S>(x: Entry<S>, y: Entry<S>, rest: seq<Entry<S>>, limit: nat)
    requires 0 < limit <= |rest|
    ensures Newest([x, y] + rest, limit) == Newest([x] + rest, limit)
  {
    var two, one := [x, y] + rest, [x] + rest;
    assert two[|two| - limit..] == rest[|rest| - limit..] == one[|one| - limit..];
  }

  /** Truncating before a push and after it is the same as truncating only after it. */
  lemma {:induction false} NewestPlace<S>(h: seq<Entry<S>>, e: Entry<S>, limit: nat)
    requires Increasing(h) && limit > 0
    ensures Newest(Place(Newest(h, limit), e), limit) == Newest(Place(h, e), limit)
    decreases |h|
  {
    if |h| > limit {
      DropOldest(h, e, limit);
      NewestPlace(h[1..], e, limit);
      assert Newest(h[1..], limit) == Newest(h, limit) by {
        if |h[1..]| > limit { assert h[1..][|h| - 1 - limit..] == h[|h| - limit..]; }
        else { assert h[1..] == h[|h| - limit..]; }
      }
    }
  }

  lemma PushStep<S>(h: seq<Entry<S>>, e: Entry<S>, limit: nat)
    requires Increasing(h)
    ensures Push(Newest(h, limit), e, limit) == Newest(Push(h, e, 0), limit)
    ensures Push(h, e, 0) == Place(h, e) && Increasing(Push(h, e, 0))
  {
    PushIsPlace(h, e);
    PlaceIncreasing(h, e);
    NewestIncreasing(h, limit);
    PushIsPlace(Newest(h, limit), e);
    if limit > 0 { NewestPlace(h, e, limit); }
  }

  lemma NewestIncreasing<S>(h: seq<Entry<S>>, limit: nat)
    requires Increasing(h)
    ensures Increasing(Newest(h, limit))
  {
  }

  /** The last entry pushed for a block wins. */
  ghost predicate LastFor<S>(es: seq<Entry<S>>, e: Entry<S>) {
    exists k :: 0 <= k < |es| && es[k] == e && forall j :: k < j < |es| ==> es[j].to != e.to
  }

  /** `all` holds, for every block pushed, the last entry pushed, and otherwise what was there. */
  ghost predicate LastWriteWins<S(!new)>(all: seq<Entry<S>>, h: seq<Entry<S>>, es: seq<Entry<S>>) {
    forall e :: e in all <==> LastFor(es, e) || (e in h && NotIn(es, e.to))
  }

  lemma {:induction false} PushAllUnlimited<S(!new)>(h: seq<Entry<S>>, es: seq<Entry<S>>)
    requires Increasing(h)
    ensures Increasing(PushAll(h, es, 0))
    ensures LastWriteWins(PushAll(h, es, 0), h, es)
    decreases es
  {
    if es != [] {
      var g := Push(h, es[0], 0);
      PushStep(h, es[0], 0);
      PushAllUnlimited(g, es[1..]);
      forall e
        ensures e in PushAll(h, es, 0) <==> LastFor(es, e) || (e in h && NotIn(es, e.to))
      {
        LastForTail(es, e);
        NotInTail(es, e.to);
        PlaceMember(h, es[0], e);
      }
    }
  }

  ghost predicate NotIn<S>(es: seq<Entry<S>>, block: nat) {
    forall k :: 0 <= k < |es| ==> es[k].to != block
  }

  lemma NotInTail<S>(es: seq<Entry<S>>, block: nat)
    requires es != []
    ensures NotIn(es, block) <==> es[0].to != block && NotIn(es[1..], block)
  {
    if NotIn(es[1..], block) {
      forall k | 1 <= k < |es| ensures es[k].to != block { assert es[1..][k - 1].to != block; }
    }
  }

  lemma LastForTail<S>(es: seq<Entry<S>>, e: Entry<S>)
    requires es != []
    ensures LastFor(es, e)
       <==> (LastFor(es[1..], e) || (es[0] == e && NotIn(es[1..], e.to)))
  {
    if LastFor(es, e) {
      var k :| 0 <= k < |es| && es[k] == e && forall j :: k < j < |es| ==> es[j].to != e.to;
      if k > 0 { assert es[1..][k - 1] == e; }
    }
    if LastFor(es[1..], e) {
      var k :| 0 <= k < |es[1..]| && es[1..][k] == e && forall j :: k < j < |es[1..]| ==> es[1..][j].to != e.to;
      assert es[k + 1] == e;
      forall j | k + 1 < j < |es| ensures es[j].to != e.to { assert es[1..][j - 1].to != e.to; }
    }
    if es[0] == e && forall k :: 0 <= k < |es[1..]| ==> es[1..][k].to != e.to {
      forall j | 0 < j < |es| ensures es[j].to != e.to { assert es[1..][j - 1].to != e.to; }
    }
  }

  lemma {:induction false} PushAllNewest<S>(h: seq<Entry<S>>, es: seq<Entry<S>>, limit: nat)
    requires Increasing(h)
    ensures PushAll(Newest(h, limit), es, limit) == Newest(PushAll(h, es, 0), limit)
    decreases es
  {
    if es != [] {
      PushStep(h, es[0], limit);
      PushAllNewest(Push(h, es[0], 0), es[1..], limit);
    }
  }

  lemma KeptLimited<S>(h: seq<Entry<S>>, es: seq<Entry<S>>, limit: nat)
    requires Increasing(h) && es != []
    ensures PushAll(h, es, limit) == Newest(PushAll(h, es, 0), limit)
  {
    PushStep(h, es[0], limit);
    PushAllNewest(Push(h, es[0], 0), es[1..], limit);
    assert Push(h, es[0], limit) == Newest(Push(h, es[0], 0), limit);
  }

  /** Truncating on every push equals building the whole last-write-wins history and keeping its newest
      `limit` entries: strictly increasing blocks, never more than the limit, nothing newer dropped. */
  lemma StreamingEqualsBatch<S(!new)>(h: seq<Entry<S>>, es: seq<Entry<S>>, limit: nat)
    requires Increasing(h) && es != []
    ensures var all := PushAll(h, es, 0);
            var kept := PushAll(h, es, limit);
            && Increasing(all) && LastWriteWins(all, h, es)
            && Increasing(kept)
            && |kept| == (if limit > 0 && |all| > limit then limit else |all|)
            && kept == all[|all| - |kept|..]
  {
    PushAllUnlimited(h, es);
    PushedKept(h, es, limit);
  }

  lemma {:induction false} PushedIncreasing<S>(h: seq<Entry<S>>, es: seq<Entry<S>>)
    requires Increasing(h)
    ensures Increasing(PushAll(h, es, 0))
    decreases es
  {
    if es != [] {
      PushStep(h, es[0], 0);
      PushedIncreasing(Push(h, es[0], 0), es[1..]);
    }
  }

  lemma PushedKept<S>(h: seq<Entry<S>>, es: seq<Entry<S>>, limit: nat)
    requires Increasing(h) && es != []
    ensures var all := PushAll(h, es, 0);
            var kept := PushAll(h, es, limit);
            && Increasing(kept)
            && |kept| == (if limit > 0 && |all| > limit then limit else |all|)
            && kept == all[|all| - |kept|..]
  {
    PushedIncreasing(h, es);
    KeptLimited(h, es, limit);
    NewestKept(PushAll(h, es, 0), limit);
  }

  lemma NewestKept<S>(all: seq<Entry<S>>, limit: nat)
    requires Increasing(all)
    ensures var kept := Newest(all, limit);
            && Increasing(kept)
            && |kept| == (if limit > 0 && |all| > limit then limit else |all|)
            && kept == all[|all| - |kept|..]
  {
    NewestIncreasing(all, limit);
    NewestShape(all, limit);
  }

  lemma NewestShape<S>(all: seq<Entry<S>>, limit: nat)
    ensures var kept := Newest(all, limit);
            && |kept| == (if limit > 0 && |all| > limit then limit else |all|)
            && kept == all[|all| - |kept|..]
  {
  }

  // ----- what a push may bring -----

  lemma {:induction false} WithoutSubset<S>(h: seq<Entry<S>>, block: nat, x: Entry<S>)
    ensures x in Without(h, block) ==> x in h
  {
    if h != [] { WithoutSubset(h[1..], block, x); }
  }

  lemma {:induction false} SortSubset<S>(h: seq<Entry<S>>, x: Entry<S>)
    ensures x in SortByBlock(h) ==> x in h
  {
    if h != [] {
      SortSubset(h[1..], x);
      InsertSubset(h[0], SortByBlock(h[1..]), x);
    }
  }

  lemma {:induction false} InsertSubset<S>(e: Entry<S>, sorted: seq<Entry<S>>, x: Entry<S>)
    ensures x in InsertByBlock(e, sorted) ==> x == e || x in sorted
  {
    if sorted != [] && sorted[0].to < e.to { InsertSubset(e, sorted[1..], x); }
  }

  lemma {:induction false} PushAllSubset<S>(h: seq<Entry<S>>, es: seq<Entry<S>>, limit: nat, x: Entry<S>)
    ensures x in PushAll(h, es, limit) ==> x in h || x in es
    decreases es
  {
    if es != [] {
      PushAllSubset(Push(h, es[0], limit), es[1..], limit, x);
      var whole := Without(h, es[0].to) + [es[0]];
      SortSubset(whole, x);
      WithoutSubset(h, es[0].to, x);
      if x in Push(h, es[0], limit) { assert x in SortByBlock(whole); }
    }
  }

  /** Newer and newer entries are appended. */
  lemma {:induction false} PushAllAppends<S>(h: seq<Entry<S>>, es: seq<Entry<S>>)
    requires Increasing(h + es)
    ensures PushAll(h, es, 0) == h + es
    decreases es
  {
    if es != [] {
      var x := es[0];
      assert h + es == (h + [x]) + es[1..];
      forall i, j | 0 <= i < j < |h| ensures h[i].to < h[j].to { assert (h + es)[i].to < (h + es)[j].to; }
      forall i | 0 <= i < |h| ensures h[i].to < x.to { assert (h + es)[i].to < (h + es)[|h|].to; }
      PushStep(h, x, 0);
      PlaceLast(h, x);
      PushAllAppends(h + [x], es[1..]);
    }
  }

  lemma {:induction false} PlaceLast<S>(h: seq<Entry<S>>, e: Entry<S>)
    requires forall i :: 0 <= i < |h| ==> h[i].to < e.to
    ensures Place(h, e) == h + [e]
    decreases h
  {
    if h != [] { PlaceLast(h[1..], e); }
  }
}
