/** Fetching logs over RPC: a range is cut into chunks, a chunk whose request fails because it is too wide
    is halved and tried again, and a request for one block is retried.  A request may fail at any time,
    for any reason; when it succeeds it returns the matching logs of its range. */
module Scan {
  import opened ChainModel

  /** What an error allows: asking for less, or asking again. */
  datatype Outcome = Success | Failure(tooWide: bool, retryable: bool)

  /** The logs of one address with one of the topics. */
  function Select(logs: seq<RawLog>, address: nat, topics: set<nat>): seq<RawLog> {
    if logs == [] then []
    else
      (if logs[0].address == address && logs[0].topic in topics then [logs[0]] else [])
      + Select(logs[1..], address, topics)
  }

  /** What the chain holds for a request. */
  function Answer(chain: seq<RawLog>, address: nat, topics: set<nat>, from: nat, to: nat): seq<RawLog> {
    Select(LogsIn(chain, from, to), address, topics)
  }

  lemma {:induction false} SelectConcat(a: seq<RawLog>, b: seq<RawLog>, address: nat, topics: set<nat>)
    ensures Select(a + b, address, topics) == Select(a, address, topics) + Select(b, address, topics)
  {
    if a == [] {
      assert a + b == b;
    } else {
      assert (a + b)[1..] == a[1..] + b;
      SelectConcat(a[1..], b, address, topics);
    }
  }

  lemma AnswerSplit(chain: seq<RawLog>, address: nat, topics: set<nat>, from: nat, mid: nat, next: nat, to: nat)
    requires Ordered(chain) && from <= next && mid <= to && next == mid + 1
    ensures Answer(chain, address, topics, from, to)
         == Answer(chain, address, topics, from, mid) + Answer(chain, address, topics, next, to)
  {
    LogsInSplit(chain, from, mid, to);
    SelectConcat(LogsIn(chain, from, mid), LogsIn(chain, next, to), address, topics);
  }

  // ----- chunks -----

  /** The chunks cover the range without gap or overlap; all but the last are `width` blocks wide. */
  ghost predicate Tiles(chunks: seq<(nat, nat)>, from: nat, to: nat, width: nat) {
    && chunks != [] && chunks[0].0 == from && chunks[|chunks| - 1].1 == to
    && (forall i :: 0 <= i < |chunks| ==> from <= chunks[i].0 <= chunks[i].1 <= to && chunks[i].1 - chunks[i].0 < width)
    && (forall i :: 0 <= i < |chunks| - 1 ==>
          chunks[i + 1].0 == chunks[i].1 + 1 && chunks[i].1 - chunks[i].0 + 1 == width)
  }

  /** The blocks before `cursor` are covered by chunks of full width. */
  ghost predicate Tiled(chunks: seq<(nat, nat)>, from: nat, cursor: nat, width: nat) {
    if chunks == [] then cursor == from
    else
      var last := chunks[|chunks| - 1];
      cursor > from && Tiles(chunks, from, cursor - 1, width) && last.1 - last.0 + 1 == width
  }

  lemma TilesNext(chunks: seq<(nat, nat)>, from: nat, cursor: nat, end: nat, width: nat)
    requires Tiled(chunks, from, cursor, width) && from <= cursor <= end && end - cursor < width
    ensures Tiles(chunks + [(cursor, end)], from, end, width)
  {
    var last := (cursor, end);
    if chunks == [] {
      assert chunks + [last] == [last];
    } else {
      TilesMore(chunks, from, cursor - 1, last, width);
    }
  }

  lemma TilesMore(chunks: seq<(nat, nat)>, from: nat, to: nat, last: (nat, nat), width: nat)
    requires Tiles(chunks, from, to, width) && last.0 == to + 1 <= last.1 && last.1 - last.0 < width
    requires chunks[|chunks| - 1].1 - chunks[|chunks| - 1].0 + 1 == width
    ensures Tiles(chunks + [last], from, last.1, width)
  {
    var all, n := chunks + [last], |chunks|;
    assert all[n] == last && all[n - 1] == chunks[n - 1];
    forall i | 0 <= i < n ensures all[i] == chunks[i] { }
  }

  method BlockChunks(from: nat, to: nat, maxRange: nat) returns (chunks: seq<(nat, nat)>)
    requires from <= U64_MAX && to <= U64_MAX && maxRange <= U64_MAX
    ensures from > to ==> chunks == []
    ensures from <= to ==> Tiles(chunks, from, to, if maxRange == 0 then 1 else maxRange)
  {
    if from > to { return []; }
    var width := if maxRange == 0 then 1 else maxRange;
    chunks := [];
    var cursor := from;
    while true
      invariant from <= cursor <= to && Tiled(chunks, from, cursor, width)
      decreases if cursor <= to then to - cursor else 0
    {
      var end := SaturatingAdd(cursor, width - 1);
      if end > to { end := to; }
      TilesNext(chunks, from, cursor, end, width);
      chunks := chunks + [(cursor, end)];
      if end == to { break; }
      cursor := SaturatingAdd(end, 1);
    }
  }

  /** Every block of the range is in exactly one chunk. */
  lemma {:induction false} TilesOnce(chunks: seq<(nat, nat)>, from: nat, to: nat, width: nat, b: nat)
    requires Tiles(chunks, from, to, width) && from <= b <= to
    ensures exists i :: 0 <= i < |chunks| && chunks[i].0 <= b <= chunks[i].1
    ensures forall i, j :: 0 <= i < j < |chunks| ==> chunks[i].1 < chunks[j].0
  {
    TilesApart(chunks, from, to, width, |chunks| - 1);
    if forall i :: 0 <= i < |chunks| ==> b < chunks[i].0 || chunks[i].1 < b {
      TilesBefore(chunks, from, to, width, b, |chunks| - 1);
    }
  }

  lemma {:induction false} TilesApart(chunks: seq<(nat, nat)>, from: nat, to: nat, width: nat, n: nat)
    requires Tiles(chunks, from, to, width) && n < |chunks|
    ensures forall i, j :: 0 <= i < j <= n ==> chunks[i].1 < chunks[j].0
  {
    if n > 0 {
      var m := n - 1;
      TilesApart(chunks, from, to, width, m);
      assert chunks[m + 1].0 == chunks[m].1 + 1;
    }
  }

  lemma {:induction false} TilesBefore(chunks: seq<(nat, nat)>, from: nat, to: nat, width: nat, b: nat, n: nat)
    requires Tiles(chunks, from, to, width) && from <= b && n < |chunks|
    requires forall i :: 0 <= i <= n ==> b < chunks[i].0 || chunks[i].1 < b
    ensures chunks[n].1 < b
  {
    if n > 0 {
      var m := n - 1;
      TilesBefore(chunks, from, to, width, b, m);
      assert chunks[m + 1].0 == chunks[m].1 + 1;
    }
  }

  // ----- requests -----

  class Rpc {
    const chain: seq<RawLog>
    /** How each request ends, by its number and its range. */
    const outcome: (nat, nat, nat) -> Outcome
    var calls: nat

    constructor (chain: seq<RawLog>, outcome: (nat, nat, nat) -> Outcome)
      ensures this.chain == chain && this.outcome == outcome && calls == 0
    {
      this.chain, this.outcome, calls := chain, outcome, 0;
    }

    /** One request, tried again while errors allow it. */
    method WithRetries(address: nat, topics: set<nat>, from: nat, to: nat, retries: nat)
      returns (r: Result<seq<RawLog>>, error: Outcome)
      modifies this
      ensures calls > old(calls) && calls <= old(calls) + if retries == 0 then 1 else retries
      ensures r.Ok? ==> r.value == Answer(chain, address, topics, from, to)
      ensures r.Ok? <==> outcome(calls - 1, from, to).Success?
      ensures r.Err? ==> error == outcome(calls - 1, from, to)
      ensures forall i :: old(calls) <= i < calls - 1 ==>
                outcome(i, from, to).Failure? && outcome(i, from, to).retryable
      ensures r.Err? ==> !error.retryable || calls == old(calls) + if retries == 0 then 1 else retries
    {
      var attempts := if retries == 0 then 1 else retries;
      var attempt := 0;
      error := Success;
      while true
        invariant attempt < attempts && calls == old(calls) + attempt
        invariant forall i :: old(calls) <= i < calls ==>
                    outcome(i, from, to).Failure? && outcome(i, from, to).retryable
        decreases attempts - attempt
      {
        error := outcome(calls, from, to);
        calls := calls + 1;
        if error.Success? { return Ok(Answer(chain, address, topics, from, to)), error; }
        if attempt + 1 >= attempts || !error.retryable { return Err, error; }
        attempt := attempt + 1;
      }
    }

    /** A range that proves too wide is halved.  Whatever fails in between, a result is exactly the
        chain's answer; and if only width ever makes a request fail, there is a result. */
    method Resilient(address: nat, topics: set<nat>, from: nat, to: nat, retries: nat) returns (r: Result<seq<RawLog>>)
      requires Ordered(chain) && from <= to <= U64_MAX
      modifies this
      ensures r.Ok? ==> r.value == Answer(chain, address, topics, from, to)
      ensures calls > old(calls) && (r.Err? ==> Refused(outcome, old(calls), calls, retries))
      ensures OnlyWidthFails(outcome) ==> r.Ok?
      decreases if from <= to then to - from else 0
    {
      var error;
      r, error := WithRetries(address, topics, from, to, if from < to then 1 else retries);
      assert r.Err? && !(from < to && error.tooWide) ==> GivesUp(outcome, calls - 1, from, to, retries);
      if r.Err? && from < to && error.tooWide {
        var mid := from + (to - from) / 2;
        var next := SaturatingAdd(mid, 1);
        var left := Resilient(address, topics, from, mid, retries);
        if left.Err? { return Err; }
        var right := Resilient(address, topics, next, to, retries);
        if right.Err? { return Err; }
        AnswerSplit(chain, address, topics, from, mid, next, to);
        r := Ok(left.value + right.value);
      }
    }

    method Chunked(address: nat, topics: set<nat>, from: nat, to: nat, maxRange: nat, retries: nat)
      returns (r: Result<seq<RawLog>>)
      requires Ordered(chain) && from <= U64_MAX && to <= U64_MAX && maxRange <= U64_MAX
      modifies this
      ensures r.Ok? ==> r.value == Answer(chain, address, topics, from, to)
      ensures calls >= old(calls) && (r.Err? ==> Refused(outcome, old(calls), calls, retries))
      ensures OnlyWidthFails(outcome) ==> r.Ok?
    {
      if topics == {} || from > to {
        NoAnswer(chain, address, topics, from, to);
        return Ok([]);
      }
      var chunks := BlockChunks(from, to, maxRange);
      var logs := [];
      for i := 0 to |chunks|
        invariant calls >= old(calls)
        invariant i > 0 ==> logs == Answer(chain, address, topics, from, chunks[i - 1].1)
        invariant i == 0 ==> logs == []
      {
        var part := Resilient(address, topics, chunks[i].0, chunks[i].1, retries);
        if part.Err? { return Err; }
        if i > 0 { AnswerSplit(chain, address, topics, from, chunks[i - 1].1, chunks[i].0, chunks[i].1); }
        logs := logs + part.value;
      }
      r := Ok(logs);
    }

    /** A source's scan: no address or an empty range scans nothing; otherwise every answered log whose
        first topic has a trigger becomes an item.  A log whose parameters cannot be decoded fails the scan. */
    method ScanSourceRange(s: Source, from: Option<nat>, to: nat, maxRange: nat, retries: nat, decodes: Item -> bool)
      returns (r: Result<seq<Item>>)
      requires Ordered(chain) && s.start <= U64_MAX && to <= U64_MAX && maxRange <= U64_MAX
      requires from.Some? ==> from.value <= U64_MAX
      modifies this
      ensures var items := ScanSource(s, LogsIn(chain, if from.Some? then from.value else s.start, to));
              && (r.Ok? ==> r.value == items && forall x :: x in items ==> decodes(x))
              && (r.Err? ==> Refused(outcome, old(calls), calls, retries) || exists x :: x in items && !decodes(x))
              && (OnlyWidthFails(outcome) ==> (r.Ok? <==> forall x :: x in items ==> decodes(x)))
    {
      var start := if from.Some? && from.value > s.start then from.value else s.start;
      ghost var asked := if from.Some? then from.value else s.start;
      if start > to {
        NothingActive(s, chain, asked, to);
        return Ok([]);
      }
      var logs := Chunked(s.address, s.topics, start, to, maxRange, retries);
      if logs.Err? { return Err; }
      AnswerIsScan(s, chain, asked, start, to);
      var items := [];
      for i := 0 to |logs.value|
        invariant items == ItemsOf(s, logs.value[..i]) && forall x :: x in items ==> decodes(x)
      {
        var x := ItemOf(s, logs.value[i]);
        if !decodes(x) {
          ItemsOfHas(s, logs.value, i);
          return Err;
        }
        assert logs.value[..i + 1] == logs.value[..i] + [logs.value[i]];
        items := items + [x];
      }
      assert logs.value[..|logs.value|] == logs.value;
      r := Ok(items);
    }
  }

  /** A request for more than one block fails, and not for being too wide; or one block cannot be had: an error does
      not allow asking again, or all attempts have failed. */
  ghost predicate GivesUp(outcome: (nat, nat, nat) -> Outcome, i: nat, from: nat, to: nat, retries: nat) {
    var attempts := if retries == 0 then 1 else retries;
    && outcome(i, from, to).Failure?
    && if from < to then !outcome(i, from, to).tooWide
       else !outcome(i, from, to).retryable
            || (attempts <= i + 1 && forall j :: i + 1 - attempts <= j <= i ==> outcome(j, from, to).Failure?)
  }

  /** One of the requests from number `first` to before `last` is given up. */
  ghost predicate Refused(outcome: (nat, nat, nat) -> Outcome, first: nat, last: nat, retries: nat) {
    exists i: nat, from: nat, to: nat :: first <= i < last && GivesUp(outcome, i, from, to, retries)
  }

  /** One block can always be had, and a wider range fails only for being wide. */
  ghost predicate OnlyWidthFails(outcome: (nat, nat, nat) -> Outcome) {
    forall i: nat, a: nat, b: nat :: outcome(i, a, b).Failure? ==> a < b && outcome(i, a, b).tooWide
  }

  lemma {:induction false} SelectNone(logs: seq<RawLog>, address: nat)
    ensures Select(logs, address, {}) == []
  {
    if logs != [] { SelectNone(logs[1..], address); }
  }

  lemma NoAnswer(chain: seq<RawLog>, address: nat, topics: set<nat>, from: nat, to: nat)
    requires topics == {} || from > to
    ensures Answer(chain, address, topics, from, to) == []
  {
    if topics == {} {
      SelectNone(LogsIn(chain, from, to), address);
    } else {
      LogsInBackwards(chain, from, to);
    }
  }

  function ItemsOf(s: Source, logs: seq<RawLog>): seq<Item> {
    if logs == [] then [] else ItemsOf(s, logs[..|logs| - 1]) + [ItemOf(s, logs[|logs| - 1])]
  }

  lemma {:induction false} ItemsOfHas(s: Source, logs: seq<RawLog>, i: nat)
    requires i < |logs|
    ensures ItemOf(s, logs[i]) in ItemsOf(s, logs)
  {
    if i < |logs| - 1 { ItemsOfHas(s, logs[..|logs| - 1], i); }
  }

  lemma {:induction false} ItemsOfCons(s: Source, l: RawLog, logs: seq<RawLog>)
    ensures ItemsOf(s, [l] + logs) == [ItemOf(s, l)] + ItemsOf(s, logs)
  {
    var all := [l] + logs;
    if logs == [] {
      assert all[..0] == [];
    } else {
      var n := |logs| - 1;
      assert all[..n + 1] == [l] + logs[..n];
      ItemsOfCons(s, l, logs[..n]);
    }
  }

  /** Asking from the later of the two start blocks finds what the source is active for. */
  lemma {:induction false} AnswerIsScan(s: Source, chain: seq<RawLog>, asked: nat, start: nat, to: nat)
    requires start == if asked > s.start then asked else s.start
    ensures ItemsOf(s, Answer(chain, s.address, s.topics, start, to)) == ScanSource(s, LogsIn(chain, asked, to))
  {
    if chain != [] {
      AnswerIsScan(s, chain[1..], asked, start, to);
      var l, near, far := chain[0], LogsIn(chain[1..], start, to), LogsIn(chain[1..], asked, to);
      var rest := Select(near, s.address, s.topics);
      FirstLog(chain, s.address, s.topics, start, to);
      if InRange(l, asked, to) {
        assert ([l] + far)[1..] == far && ([l] + far)[0] == l;
      } else {
        assert [] + far == far;
      }
      if InRange(l, start, to) && l.address == s.address && l.topic in s.topics {
        ItemsOfCons(s, l, rest);
      } else {
        assert [] + rest == rest;
      }
    }
  }

  lemma FirstLog(chain: seq<RawLog>, address: nat, topics: set<nat>, from: nat, to: nat)
    requires chain != []
    ensures var l := chain[0];
            Answer(chain, address, topics, from, to)
            == (if InRange(l, from, to) && l.address == address && l.topic in topics then [l] else [])
               + Answer(chain[1..], address, topics, from, to)
  {
    var l, logs := chain[0], LogsIn(chain[1..], from, to);
    if InRange(l, from, to) {
      assert ([l] + logs)[1..] == logs;
    } else {
      assert [] + logs == logs;
    }
  }

  lemma NothingActive(s: Source, chain: seq<RawLog>, asked: nat, to: nat)
    requires asked > to || s.start > to
    ensures ScanSource(s, LogsIn(chain, asked, to)) == []
  {
    var start := if asked > s.start then asked else s.start;
    AnswerIsScan(s, chain, asked, start, to);
    LogsInBackwards(chain, start, to);
  }
}
