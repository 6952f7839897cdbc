/** The chain as the indexer sees it: a finite sequence of logs, the sources that watch it, and the
    logs a source matches.  Names, addresses, topics and block hashes are numbers; the order of names
    and addresses stands for the byte order that the snapshot's sorted maps use.  Addresses are the
    lower-cased ones. */
module ChainModel {

  // ----- integer widths -----

  const U64_MAX: nat := 0xFFFF_FFFF_FFFF_FFFF
  const I64_LIMIT := 0x8000_0000_0000_0000
  const I32_LIMIT := 0x8000_0000

  function SaturatingAdd(a: nat, b: nat): nat {
    if a + b > U64_MAX then U64_MAX else a + b
  }

  // ----- the chain -----

  datatype Option<+T> = None | Some(value: T)

  datatype Result<+T> = Ok(value: T) | Err

  /** The key logs are ordered by: block, transaction index, log index. */
  datatype Pos = Pos(block: nat, tx: nat, index: nat)

  predicate Before(a: Pos, b: Pos) {
    a.block < b.block
    || (a.block == b.block && (a.tx < b.tx || (a.tx == b.tx && a.index < b.index)))
  }

  datatype RawLog = RawLog(pos: Pos, address: nat, topic: nat, data: nat)

  /** A data source.  `born` is the position of the log whose handler created it; `resumed` says that
      the source was loaded from a checkpoint, which remembers only the block of that position
      (`start`).  Static sources are always `resumed`. */
  datatype Source = Source(name: nat, dynamic: bool, address: nat, start: nat, topics: set<nat>,
                           context: nat, born: Pos, resumed: bool)

  /** A log matched by a source: what a handler is run on. */
  datatype Item = Item(source: nat, dynamic: bool, context: nat, log: RawLog)

  /** The identity under which an executed item is remembered. */
  datatype Id = Id(source: nat, dynamic: bool, address: nat, pos: Pos, topic: nat)

  function IdOf(x: Item): Id {
    Id(x.source, x.dynamic, x.log.address, x.log.pos, x.log.topic)
  }

  ghost predicate DistinctIds(items: seq<Item>) {
    forall i, j :: 0 <= i < j < |items| ==> IdOf(items[i]) != IdOf(items[j])
  }

  function ItemOf(s: Source, l: RawLog): Item {
    Item(s.name, s.dynamic, s.context, l)
  }

  /** Chain logs come in strictly increasing order, as the chain numbers them. */
  ghost predicate Ordered(logs: seq<RawLog>) {
    forall i, j :: 0 <= i < j < |logs| ==> Before(logs[i].pos, logs[j].pos)
  }

  predicate InRange(l: RawLog, from: nat, to: nat) {
    from <= l.pos.block <= to
  }

  /** The chain's logs of the blocks `from` to `to`. */
  function LogsIn(chain: seq<RawLog>, from: nat, to: nat): (logs: seq<RawLog>)
  {
    if chain == [] then []
    else (if InRange(chain[0], from, to) then [chain[0]] else []) + LogsIn(chain[1..], from, to)
  }

  /** What an `eth_getLogs` filter for the source lets through. */
  predicate Filter(s: Source, l: RawLog) {
    l.address == s.address && l.topic in s.topics && s.start <= l.pos.block
  }

  /** The logs the source is active for: a source created in this pass only sees later logs. */
  predicate Matches(s: Source, l: RawLog) {
    Filter(s, l) && (s.resumed || Before(s.born, l.pos))
  }

  /** The items one source makes of a sequence of logs. */
  function ScanSource(s: Source, logs: seq<RawLog>): (items: seq<Item>)
  {
    if logs == [] then []
    else (if Filter(s, logs[0]) then [ItemOf(s, logs[0])] else []) + ScanSource(s, logs[1..])
  }

  /** The items several sources make of one log, in source order. */
  function ItemsAt(sources: seq<Source>, l: RawLog): (items: seq<Item>)
  {
    if sources == [] then []
    else (if Matches(sources[0], l) then [ItemOf(sources[0], l)] else []) + ItemsAt(sources[1..], l)
  }

  predicate SameKey(a: Source, b: Source) {
    a.name == b.name && a.dynamic == b.dynamic && a.address == b.address
  }

  ghost predicate DistinctKeys(sources: seq<Source>) {
    forall i, j :: 0 <= i < j < |sources| ==> !SameKey(sources[i], sources[j])
  }

  // ----- positions and ranges -----

  lemma BeforeTotal(a: Pos, b: Pos)
    ensures a == b || Before(a, b) || Before(b, a)
  {
  }

  lemma {:induction false} LogsInMember(chain: seq<RawLog>, from: nat, to: nat, l: RawLog)
    ensures l in LogsIn(chain, from, to) <==> l in chain && InRange(l, from, to)
  {
    if chain != [] {
      LogsInMember(chain[1..], from, to, l);
    }
  }

  lemma {:induction false} LogsInOrdered(chain: seq<RawLog>, from: nat, to: nat)
    requires Ordered(chain)
    ensures Ordered(LogsIn(chain, from, to))
  {
    if chain != [] {
      LogsInOrdered(chain[1..], from, to);
      var rest := LogsIn(chain[1..], from, to);
      forall j | 0 <= j < |rest|
        ensures Before(chain[0].pos, rest[j].pos)
      {
        LogsInMember(chain[1..], from, to, rest[j]);
      }
    }
  }

  /** A range splits at any block. */
  lemma {:induction false} LogsInSplit(chain: seq<RawLog>, from: nat, mid: nat, to: nat)
    requires Ordered(chain)
    requires from <= mid + 1 && mid <= to
    ensures LogsIn(chain, from, to) == LogsIn(chain, from, mid) + LogsIn(chain, mid + 1, to)
  {
    if chain != [] {
      LogsInSplit(chain[1..], from, mid, to);
      if mid + 1 <= chain[0].pos.block {
        LogsInEmpty(chain[1..], from, mid, chain[0].pos.block);
      }
    }
  }

  lemma {:induction false} LogsInEmpty(chain: seq<RawLog>, from: nat, mid: nat, least: nat)
    requires forall l :: l in chain ==> least <= l.pos.block
    requires mid < least
    ensures LogsIn(chain, from, mid) == []
  {
    if chain != [] {
      LogsInEmpty(chain[1..], from, mid, least);
    }
  }

  lemma {:induction false} LogsInBackwards(chain: seq<RawLog>, from: nat, to: nat)
    requires to < from
    ensures LogsIn(chain, from, to) == []
  {
    if chain != [] {
      LogsInBackwards(chain[1..], from, to);
    }
  }

  // ----- items -----

  lemma {:induction false} ItemsAtConcat(a: seq<Source>, b: seq<Source>, l: RawLog)
    ensures ItemsAt(a + b, l) == ItemsAt(a, l) + ItemsAt(b, l)
  {
    if a == [] {
      assert a + b == b;
    } else {
      assert (a + b)[1..] == a[1..] + b;
      ItemsAtConcat(a[1..], b, l);
    }
  }

  lemma {:induction false} ItemsAtMember(sources: seq<Source>, l: RawLog, x: Item)
    ensures x in ItemsAt(sources, l) <==> exists s :: s in sources && Matches(s, l) && x == ItemOf(s, l)
  {
    if sources != [] {
      ItemsAtMember(sources[1..], l, x);
      assert sources == [sources[0]] + sources[1..];
    }
  }

  lemma {:induction false} ItemsAtNone(sources: seq<Source>, l: RawLog)
    requires forall s :: s in sources ==> !Matches(s, l)
    ensures ItemsAt(sources, l) == []
  {
    if sources != [] {
      ItemsAtNone(sources[1..], l);
    }
  }

  /** Items of one log made by sources with distinct keys have distinct identities. */
  lemma {:induction false} ItemsAtDistinct(sources: seq<Source>, l: RawLog)
    requires DistinctKeys(sources)
    ensures DistinctIds(ItemsAt(sources, l))
  {
    if sources != [] {
      ItemsAtDistinct(sources[1..], l);
      var rest := ItemsAt(sources[1..], l);
      forall j | 0 <= j < |rest| && Matches(sources[0], l)
        ensures IdOf(rest[j]) != IdOf(ItemOf(sources[0], l))
      {
        ItemsAtMember(sources[1..], l, rest[j]);
        var s :| s in sources[1..] && Matches(s, l) && rest[j] == ItemOf(s, l);
        var k :| 0 <= k < |sources[1..]| && sources[1..][k] == s;
        assert !SameKey(sources[0], sources[k + 1]);
      }
    }
  }
}
