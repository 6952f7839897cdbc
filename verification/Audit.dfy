/** The audit trail: for every synced block, which entities were created, updated or removed, with the
    data before and after.  Writing a pass's activity replaces the rows from its first block on, and takes
    the differences against a baseline state. */
module Audit {
  import opened ChainModel
  import opened DeltaHistory

  datatype Action = Created | Updated | Removed

  datatype Logged = Logged(action: Action, change: Change)

  type Rows = map<Key, Logged>

  /** Change rows by block. */
  type Trail = map<nat, Rows>

  function ActionOf(before: Entities, c: Change, k: Key): Action {
    if c.removed then Removed else if k in before then Updated else Created
  }

  function Mark(before: Entities, changes: Changes): Rows {
    map k | k in changes :: Logged(ActionOf(before, changes[k], k), changes[k])
  }

  function ChangesIn(rows: Rows): Changes {
    map k | k in rows :: rows[k].change
  }

  lemma MarkKeeps(before: Entities, changes: Changes)
    ensures ChangesIn(Mark(before, changes)) == changes
  {
  }

  /** Labels tell apart what was there before and what is there now. */
  lemma LabelsRight(before: Entities, after: Entities, k: Key)
    ensures k in Mark(before, Delta(before, after)) <==> Get(before, k) != Get(after, k)
    ensures k in Mark(before, Delta(before, after)) ==>
              RightlyLabelled(before, after, k, Mark(before, Delta(before, after))[k])
  {
    DeltaAt(before, after, k);
  }

  predicate RightlyLabelled(before: Entities, after: Entities, k: Key, row: Logged) {
    && (row.action == Created <==> k !in before && k in after)
    && (row.action == Updated <==> k in before && k in after)
    && (row.action == Removed <==> k in before && k !in after)
    && row.change.previous == Get(before, k)
    && (k in after ==> row.change.data == after[k])
  }

  // ----- a pass's activity, in block order -----

  /** The state after the last step, or the baseline. */
  function StateAfter(base: Entities, steps: seq<Snapshot>): Entities {
    if steps == [] then base else Latest(steps).entities
  }

  /** What a pass's steps are logged as. */
  function TrailOf(base: Entities, steps: seq<Snapshot>): Trail {
    if steps == [] then map[]
    else
      var before := StateAfter(base, Earlier(steps));
      TrailOf(base, Earlier(steps))[Latest(steps).block := Mark(before, Delta(before, Latest(steps).entities))]
  }

  /** How many entities each step changed. */
  function CountsOf(base: Entities, steps: seq<Snapshot>): map<nat, nat> {
    if steps == [] then map[]
    else
      var before := StateAfter(base, Earlier(steps));
      CountsOf(base, Earlier(steps))[Latest(steps).block := |Delta(before, Latest(steps).entities)|]
  }

  /** The activity by block; a later entry for a block replaces an earlier one. */
  function ByBlock(activity: seq<Snapshot>): map<nat, Snapshot> {
    if activity == [] then map[] else ByBlock(Earlier(activity))[Latest(activity).block := Latest(activity)]
  }

  ghost predicate InOrder(steps: seq<Snapshot>, m: map<nat, Snapshot>) {
    && Increasing(steps) && BlocksOf(steps) == m.Keys
    && forall i :: 0 <= i < |steps| ==> steps[i].block in m && m[steps[i].block] == steps[i]
  }

  function FirstBlock(activity: seq<Snapshot>): nat
    requires activity != []
  {
    var rest := Earlier(activity);
    if rest == [] || Latest(activity).block <= FirstBlock(rest) then Latest(activity).block else FirstBlock(rest)
  }

  /** The rows from this block on are replaced; no activity replaces none. */
  function CutAt(activity: seq<Snapshot>, replace: bool): Option<nat> {
    if replace then Some(0) else if activity == [] then None else Some(FirstBlock(activity))
  }

  function Kept<T>(table: map<nat, T>, cut: Option<nat>): map<nat, T> {
    map b | b in table && (cut.Some? ==> b < cut.value) :: table[b]
  }

  lemma {:induction false} FirstBlockBelow(activity: seq<Snapshot>, b: nat)
    requires activity != []
    ensures b < FirstBlock(activity) <==> forall s :: s in activity ==> b < s.block
  {
    var rest, last := Earlier(activity), Latest(activity);
    if rest != [] { FirstBlockBelow(rest, b); }
    assert activity == rest + [last];
    assert forall s :: s in activity <==> s in rest || s == last;
  }

  /** Replacing the whole trail keeps nothing; otherwise just the rows of the blocks below every new one stay, and
      they stay as they are. */
  lemma KeptRows<T>(table: map<nat, T>, activity: seq<Snapshot>, replace: bool, b: nat)
    ensures var kept := Kept(table, CutAt(activity, replace));
            && (b in kept <==> b in table && !replace && forall s :: s in activity ==> b < s.block)
            && (b in kept ==> kept[b] == table[b])
  {
    if activity != [] { FirstBlockBelow(activity, b); }
  }

  /** A block is logged once, with its last state. */
  lemma {:induction false} LastForBlock(activity: seq<Snapshot>, i: nat)
    requires i < |activity| && forall j :: i < j < |activity| ==> activity[j].block != activity[i].block
    ensures activity[i].block in ByBlock(activity) && ByBlock(activity)[activity[i].block] == activity[i]
  {
    if i < |activity| - 1 { LastForBlock(Earlier(activity), i); }
  }

  class AuditStore {
    var trail: Trail
    var counts: map<nat, nat>
    var current: Entities

    constructor (trail: Trail, counts: map<nat, nat>, current: Entities)
      ensures this.trail == trail && this.counts == counts && this.current == current
    {
      this.trail, this.counts, this.current := trail, counts, current;
    }

    /** One transaction.  A block or a count that does not fit leaves everything as it was. */
    method WriteActivity(activity: seq<Snapshot>, baseline: Option<Entities>, replace: bool, entities: Entities)
      returns (ok: bool, ghost base: Entities, ghost steps: seq<Snapshot>)
      modifies this
      ensures base == if replace then map[] else if baseline.Some? then baseline.value else old(current)
      ensures ok ==> InOrder(steps, ByBlock(activity)) && current == entities
      ensures ok ==> trail == Kept(old(trail), CutAt(activity, replace)) + TrailOf(base, steps)
      ensures ok ==> counts == Kept(old(counts), CutAt(activity, replace)) + CountsOf(base, steps)
      ensures ok ==> AllFit(ByBlock(activity).Keys, counts)
      ensures !ok ==> exists b :: Overflows(base, steps, ByBlock(activity), b) && StepsTo(steps, ByBlock(activity), b)
      ensures !ok ==> trail == old(trail) && counts == old(counts) && current == old(current)
    {
      var cut := CutAt(activity, replace);
      var start := if replace then map[] else if baseline.Some? then baseline.value else current;
      var rows, sizes;
      AllOwn(activity);
      ok, rows, sizes, steps := LogSteps(start, ByBlock(activity));
      base := start;
      if ok {
        trail, counts, current := Kept(trail, cut) + rows, Kept(counts, cut) + sizes, entities;
      }
    }
  }

  ghost predicate OwnBlocks(ordered: map<nat, Snapshot>) {
    forall b :: b in ordered ==> ordered[b].block == b
  }

  /** Blocks and counts that the columns can hold. */
  predicate AllFit(blocks: set<nat>, sizes: map<nat, nat>) {
    forall b :: b in blocks ==> b < I64_LIMIT && b in sizes && sizes[b] < I32_LIMIT
  }

  predicate Overflows(base: Entities, steps: seq<Snapshot>, ordered: map<nat, Snapshot>, b: nat) {
    b in ordered && (b >= I64_LIMIT || |Delta(StateAfter(base, steps), ordered[b].entities)| >= I32_LIMIT)
  }

  /** The steps before block `b`, in order. */
  ghost predicate StepsTo(steps: seq<Snapshot>, ordered: map<nat, Snapshot>, b: nat) {
    && Increasing(steps) && (forall c :: c in BlocksOf(steps) <==> c in ordered && c < b)
    && forall i :: 0 <= i < |steps| ==> steps[i].block in ordered && ordered[steps[i].block] == steps[i]
  }

  /** The rows of all steps, each against the state before it. */
  method LogSteps(start: Entities, ordered: map<nat, Snapshot>)
    returns (ok: bool, rows: Trail, sizes: map<nat, nat>, ghost steps: seq<Snapshot>)
    requires OwnBlocks(ordered)
    ensures ok ==> InOrder(steps, ordered) && rows == TrailOf(start, steps) && sizes == CountsOf(start, steps)
    ensures ok ==> AllFit(ordered.Keys, sizes)
    ensures !ok ==> exists b :: Overflows(start, steps, ordered, b) && StepsTo(steps, ordered, b)
  {
    var previous := start;
    steps, rows, sizes := [], map[], map[];
    var todo: set<nat> := ordered.Keys;
    while todo != {}
      invariant todo <= ordered.Keys && Walking(ordered, todo, start, steps, previous, rows, sizes)
      decreases |todo|
    {
      LeastExists(todo);
      var b: nat :| Least(todo, b);
      assert b in ordered;
      var changes := ChangedEntityVersions(previous, ordered[b].entities);
      if b >= I64_LIMIT || |changes| >= I32_LIMIT {
        assert Overflows(start, steps, ordered, b) && StepsTo(steps, ordered, b);
        return false, rows, sizes, steps;
      }
      WalkNext(ordered, todo, start, steps, previous, rows, sizes, b);
      rows := rows[b := Mark(previous, changes)];
      sizes := sizes[b := |changes|];
      previous := ordered[b].entities;
      steps := steps + [ordered[b]];
      todo := todo - {b};
    }
    ok := true;
  }

  lemma AllOwn(activity: seq<Snapshot>)
    ensures OwnBlocks(ByBlock(activity))
  {
    forall b | b in ByBlock(activity) ensures ByBlock(activity)[b].block == b { ByBlockAt(activity, b); }
  }

  ghost predicate Walking(ordered: map<nat, Snapshot>, todo: set<nat>, base: Entities, steps: seq<Snapshot>,
                          previous: Entities, rows: Trail, sizes: map<nat, nat>)
  {
    && BlocksOf(steps) == ordered.Keys - todo
    && (forall a, b :: a in BlocksOf(steps) && b in todo ==> a < b)
    && (forall i :: 0 <= i < |steps| ==> steps[i].block in ordered && ordered[steps[i].block] == steps[i])
    && Increasing(steps) && previous == StateAfter(base, steps)
    && rows == TrailOf(base, steps) && sizes == CountsOf(base, steps)
    && AllFit(ordered.Keys - todo, sizes)
  }

  lemma {:induction false} ByBlockAt(activity: seq<Snapshot>, b: nat)
    requires b in ByBlock(activity)
    ensures ByBlock(activity)[b].block == b
  {
    if b != Latest(activity).block { ByBlockAt(Earlier(activity), b); }
  }

  lemma WalkNext(ordered: map<nat, Snapshot>, todo: set<nat>, base: Entities, steps: seq<Snapshot>, previous: Entities,
                 rows: Trail, sizes: map<nat, nat>, b: nat)
    requires todo <= ordered.Keys && Walking(ordered, todo, base, steps, previous, rows, sizes) && Least(todo, b)
    requires ordered[b].block == b < I64_LIMIT && |Delta(previous, ordered[b].entities)| < I32_LIMIT
    ensures var delta := Delta(previous, ordered[b].entities);
            Walking(ordered, todo - {b}, base, steps + [ordered[b]], ordered[b].entities,
                    rows[b := Mark(previous, delta)], sizes[b := |delta|])
  {
    var more, delta := steps + [ordered[b]], Delta(previous, ordered[b].entities);
    WalkOrder(ordered, todo, steps, b, more);
    WalkListed(ordered, steps, b, more);
    WalkRows(base, steps, previous, ordered[b], delta, more);
    WalkFits(ordered, todo, sizes, b, |delta|);
  }

  lemma WalkRows(base: Entities, steps: seq<Snapshot>, previous: Entities, s: Snapshot, delta: Changes,
                 more: seq<Snapshot>)
    requires previous == StateAfter(base, steps) && delta == Delta(previous, s.entities) && more == steps + [s]
    ensures StateAfter(base, more) == s.entities
    ensures TrailOf(base, more) == TrailOf(base, steps)[s.block := Mark(previous, delta)]
    ensures CountsOf(base, more) == CountsOf(base, steps)[s.block := |delta|]
  {
    Snoc(steps, s);
  }

  lemma WalkFits(ordered: map<nat, Snapshot>, todo: set<nat>, sizes: map<nat, nat>, b: nat, size: nat)
    requires todo <= ordered.Keys && b in todo && AllFit(ordered.Keys - todo, sizes)
    requires b < I64_LIMIT && size < I32_LIMIT
    ensures AllFit(ordered.Keys - (todo - {b}), sizes[b := size])
  {
    forall c | c in ordered.Keys - (todo - {b}) && c != b ensures c in ordered.Keys - todo { }
  }

  lemma WalkOrder(ordered: map<nat, Snapshot>, todo: set<nat>, steps: seq<Snapshot>, b: nat, more: seq<Snapshot>)
    requires todo <= ordered.Keys && Least(todo, b) && ordered[b].block == b && more == steps + [ordered[b]]
    requires BlocksOf(steps) == ordered.Keys - todo && Increasing(steps)
    requires forall a, c :: a in BlocksOf(steps) && c in todo ==> a < c
    ensures BlocksOf(more) == ordered.Keys - (todo - {b}) && Increasing(more)
    ensures forall a, c :: a in BlocksOf(more) && c in todo - {b} ==> a < c
  {
    Snoc(steps, ordered[b]);
    assert BlocksOf(more) == BlocksOf(steps) + {b};
  }

  lemma WalkListed(ordered: map<nat, Snapshot>, steps: seq<Snapshot>, b: nat, more: seq<Snapshot>)
    requires b in ordered && ordered[b].block == b && more == steps + [ordered[b]]
    requires forall i :: 0 <= i < |steps| ==> steps[i].block in ordered && ordered[steps[i].block] == steps[i]
    ensures forall i :: 0 <= i < |more| ==> more[i].block in ordered && ordered[more[i].block] == more[i]
  {
    forall i | 0 <= i < |steps| ensures more[i] == steps[i] { }
  }

  // ----- reading the trail -----

  /** All rows below block `n`, applied in order to nothing. */
  function FoldBelow(trail: Trail, n: nat): Entities {
    if n == 0 then map[]
    else if n - 1 in trail then Apply(FoldBelow(trail, n - 1), ChangesIn(trail[n - 1]))
    else FoldBelow(trail, n - 1)
  }

  /** Rows from block `hi` down to block `lo`, taken back. */
  function UndoDown(trail: Trail, state: Entities, hi: nat, lo: nat): Entities
    decreases hi
  {
    if hi <= lo then state
    else if hi - 1 in trail then UndoDown(trail, Undo(state, ChangesIn(trail[hi - 1])), hi - 1, lo)
    else UndoDown(trail, state, hi - 1, lo)
  }

  /** The steps below block `n`. */
  function StepsBelow(steps: seq<Snapshot>, n: nat): seq<Snapshot> {
    if steps == [] || Latest(steps).block < n then steps else StepsBelow(Earlier(steps), n)
  }

  /** Some step changes the entity. */
  predicate Touched(base: Entities, steps: seq<Snapshot>, k: Key) {
    steps != []
    && (Touched(base, Earlier(steps), k) || Differs(StateAfter(base, Earlier(steps)), Latest(steps).entities, k))
  }

  lemma {:induction false} TrailKeys(base: Entities, steps: seq<Snapshot>)
    ensures TrailOf(base, steps).Keys == BlocksOf(steps) == CountsOf(base, steps).Keys
  {
    if steps != [] { TrailKeys(base, Earlier(steps)); }
  }

  /** The state that a step is compared with: the one of the step before it, and the baseline for the first. */
  function Before(base: Entities, steps: seq<Snapshot>, i: nat): Entities
    requires i < |steps|
  {
    if i == 0 then base else steps[i - 1].entities
  }

  lemma {:induction false} StepAt(base: Entities, steps: seq<Snapshot>, i: nat, before: Entities)
    requires Increasing(steps) && i < |steps| && before == Before(base, steps, i)
    ensures var b, delta := steps[i].block, Delta(before, steps[i].entities);
            && b in TrailOf(base, steps) && TrailOf(base, steps)[b] == Mark(before, delta)
            && b in CountsOf(base, steps) && CountsOf(base, steps)[b] == |delta|
  {
    var rest, last := Earlier(steps), Latest(steps);
    if i < |steps| - 1 {
      StepAt(base, rest, i, before);
      TrailKeys(base, rest);
      assert steps[i] == rest[i] && steps[i].block < last.block;
    } else {
      assert before == StateAfter(base, rest) && steps[i] == last;
    }
  }

  /** Each step has a row for every entity that it changes, rightly labelled, and its count is the number of rows. */
  lemma StepRows(base: Entities, steps: seq<Snapshot>, i: nat, k: Key)
    requires Increasing(steps) && i < |steps|
    ensures var b, before, after := steps[i].block, Before(base, steps, i), steps[i].entities;
            && b in TrailOf(base, steps) && b in CountsOf(base, steps)
            && CountsOf(base, steps)[b] == |TrailOf(base, steps)[b].Keys|
            && (k in TrailOf(base, steps)[b] <==> Get(before, k) != Get(after, k))
            && (k in TrailOf(base, steps)[b] ==> RightlyLabelled(before, after, k, TrailOf(base, steps)[b][k]))
  {
    var before, after := Before(base, steps, i), steps[i].entities;
    StepAt(base, steps, i, before);
    LabelsRight(before, after, k);
    assert Mark(before, Delta(before, after)).Keys == Delta(before, after).Keys;
  }

  lemma {:induction false} UntouchedStays(base: Entities, steps: seq<Snapshot>, k: Key)
    requires !Touched(base, steps, k)
    ensures Get(StateAfter(base, steps), k) == Get(base, k)
  {
    if steps != [] { UntouchedStays(base, Earlier(steps), k); }
  }

  /** The rows that were kept lie below the steps. */
  ghost predicate Below(kept: Trail, steps: seq<Snapshot>, cut: nat) {
    (forall b :: b in kept ==> b < cut) && forall b :: b in BlocksOf(steps) ==> b >= cut
  }

  lemma {:induction false} FoldKept(kept: Trail, more: Trail, n: nat, cut: nat)
    requires n <= cut && forall b :: b in more ==> b >= cut
    ensures FoldBelow(kept + more, n) == FoldBelow(kept, n)
  {
    if n > 0 { FoldKept(kept, more, n - 1, cut); }
  }

  lemma {:induction false} StepsBelowAll(steps: seq<Snapshot>, n: nat)
    requires Increasing(steps)
    ensures Increasing(StepsBelow(steps, n))
    ensures forall b :: b in BlocksOf(StepsBelow(steps, n)) <==> b in BlocksOf(steps) && b < n
  {
    if steps != [] && Latest(steps).block >= n { StepsBelowAll(Earlier(steps), n); }
  }

  /** Passing a block no step is at. */
  lemma {:induction false} StepsSkip(steps: seq<Snapshot>, n: nat)
    requires Increasing(steps) && n !in BlocksOf(steps)
    ensures StepsBelow(steps, n + 1) == StepsBelow(steps, n)
  {
    if steps != [] && Latest(steps).block >= n { StepsSkip(Earlier(steps), n); }
  }

  /** Passing a block with a step: that step is the last one below. */
  lemma {:induction false} StepsTake(base: Entities, steps: seq<Snapshot>, n: nat)
    requires Increasing(steps) && n in BlocksOf(steps)
    ensures var some := StepsBelow(steps, n + 1);
            && some != [] && Latest(some).block == n && Earlier(some) == StepsBelow(steps, n)
            && n in TrailOf(base, steps) && TrailOf(base, steps)[n] == TrailOf(base, some)[n]
  {
    TrailKeys(base, steps);
    if Latest(steps).block == n {
      var before := Earlier(steps);
      StepsAllBelow(before, n);
    } else {
      StepsTake(base, Earlier(steps), n);
    }
  }

  lemma StepsAllBelow(steps: seq<Snapshot>, n: nat)
    requires Increasing(steps) && forall b :: b in BlocksOf(steps) ==> b < n
    ensures StepsBelow(steps, n) == steps
  {
    if steps != [] { assert Latest(steps).block in BlocksOf(steps); }
  }

  /** What the trail says of one entity: a touched one is as the steps left it, an untouched one as the
      rows that were kept have it. */
  lemma {:induction false} FoldAt(kept: Trail, base: Entities, steps: seq<Snapshot>, cut: nat, n: nat, k: Key)
    requires Increasing(steps) && Below(kept, steps, cut) && n >= cut
    ensures var some := StepsBelow(steps, n);
            Get(FoldBelow(kept + TrailOf(base, steps), n), k)
            == if Touched(base, some, k) then Get(StateAfter(base, some), k) else Get(FoldBelow(kept, cut), k)
    decreases n
  {
    var trail := kept + TrailOf(base, steps);
    TrailKeys(base, steps);
    if n == cut {
      FoldKept(kept, TrailOf(base, steps), n, cut);
      StepsBelowAll(steps, n);
      NoSteps(StepsBelow(steps, n));
    } else {
      var m := n - 1;
      FoldAt(kept, base, steps, cut, m, k);
      if m in BlocksOf(steps) {
        StepsTake(base, steps, m);
        var some := StepsBelow(steps, n);
        FoldStep(kept, base, steps, some, trail, m, n, k);
      } else {
        StepsSkip(steps, m);
      }
    }
  }

  lemma NoSteps(steps: seq<Snapshot>)
    requires BlocksOf(steps) == {}
    ensures steps == []
  {
  }

  lemma FoldStep(kept: Trail, base: Entities, steps: seq<Snapshot>, some: seq<Snapshot>, trail: Trail, m: nat, n: nat,
                 k: Key)
    requires some != [] && n == m + 1 && Latest(some).block == m && m in trail && trail[m] == TrailOf(base, some)[m]
    ensures Get(FoldBelow(trail, n), k)
         == if Differs(StateAfter(base, Earlier(some)), Latest(some).entities, k) then Get(Latest(some).entities, k)
            else Get(FoldBelow(trail, m), k)
  {
    var before, after := StateAfter(base, Earlier(some)), Latest(some).entities;
    MarkKeeps(before, Delta(before, after));
    ApplyAt(FoldBelow(trail, m), Delta(before, after), k);
    DeltaAt(before, after, k);
  }

  /** Folding the trail forward gives the state of every block exactly when the kept rows agree with the
      baseline on every entity that no step up to there touches. */
  lemma FoldExact(kept: Trail, base: Entities, steps: seq<Snapshot>, cut: nat, n: nat)
    requires Increasing(steps) && Below(kept, steps, cut) && n >= cut
    ensures var some := StepsBelow(steps, n);
            FoldBelow(kept + TrailOf(base, steps), n) == StateAfter(base, some)
            <==> forall k :: !Touched(base, some, k) ==> Get(FoldBelow(kept, cut), k) == Get(base, k)
  {
    var some, fold := StepsBelow(steps, n), FoldBelow(kept + TrailOf(base, steps), n);
    forall k
      ensures Get(fold, k)
           == if Touched(base, some, k) then Get(StateAfter(base, some), k) else Get(FoldBelow(kept, cut), k)
    {
      FoldAt(kept, base, steps, cut, n, k);
    }
    forall k | !Touched(base, some, k)
      ensures Get(StateAfter(base, some), k) == Get(base, k)
    {
      UntouchedStays(base, some, k);
    }
    if forall k :: !Touched(base, some, k) ==> Get(FoldBelow(kept, cut), k) == Get(base, k) {
      SameEntities(fold, StateAfter(base, some));
    }
  }

  /** When the kept rows fold to the baseline, every block from the cut on is right. */
  lemma FoldRight(kept: Trail, base: Entities, steps: seq<Snapshot>, cut: nat, n: nat)
    requires Increasing(steps) && Below(kept, steps, cut) && n >= cut && FoldBelow(kept, cut) == base
    ensures FoldBelow(kept + TrailOf(base, steps), n) == StateAfter(base, StepsBelow(steps, n))
  {
    FoldExact(kept, base, steps, cut, n);
  }

  lemma UndoTake(base: Entities, some: seq<Snapshot>, rows: Rows)
    requires some != []
    requires rows
             == Mark(StateAfter(base, Earlier(some)), Delta(StateAfter(base, Earlier(some)), Latest(some).entities))
    ensures Undo(StateAfter(base, some), ChangesIn(rows)) == StateAfter(base, Earlier(some))
  {
    var before, after := StateAfter(base, Earlier(some)), Latest(some).entities;
    MarkKeeps(before, Delta(before, after));
    DeltaMeaning(before, after);
  }

  /** Taking rows back from the newest state gives the state before any block of the pass, whatever the
      kept rows are. */
  lemma {:induction false} UndoRight(kept: Trail, base: Entities, steps: seq<Snapshot>, cut: nat, hi: nat, lo: nat)
    requires Increasing(steps) && Below(kept, steps, cut) && cut <= lo <= hi
    ensures UndoDown(kept + TrailOf(base, steps), StateAfter(base, StepsBelow(steps, hi)), hi, lo)
         == StateAfter(base, StepsBelow(steps, lo))
    decreases hi
  {
    if hi > lo {
      var m := hi - 1;
      var trail := kept + TrailOf(base, steps);
      UndoUnroll(trail, StateAfter(base, StepsBelow(steps, hi)), m, hi, lo);
      UndoOne(kept, base, steps, cut, m, hi, trail);
      UndoRight(kept, base, steps, cut, m, lo);
    }
  }

  lemma UndoOne(kept: Trail, base: Entities, steps: seq<Snapshot>, cut: nat, m: nat, hi: nat, trail: Trail)
    requires Increasing(steps) && Below(kept, steps, cut) && cut <= m
    requires hi == m + 1 && trail == kept + TrailOf(base, steps)
    ensures var state := StateAfter(base, StepsBelow(steps, hi));
            (if m in trail then Undo(state, ChangesIn(trail[m])) else state) == StateAfter(base, StepsBelow(steps, m))
  {
    TrailKeys(base, steps);
    if m in BlocksOf(steps) {
      StepsTake(base, steps, m);
      UndoTake(base, StepsBelow(steps, hi), trail[m]);
    } else {
      StepsSkip(steps, m);
    }
  }

  lemma UndoUnroll(trail: Trail, state: Entities, m: nat, hi: nat, lo: nat)
    requires hi == m + 1 && hi > lo
    ensures UndoDown(trail, state, hi, lo)
         == UndoDown(trail, if m in trail then Undo(state, ChangesIn(trail[m])) else state, m, lo)
  {
  }

  /** The invariant a passing write keeps: the rows fold to the current entities, and none lies past the
      checkpoint. */
  ghost predicate Audited(trail: Trail, current: Entities, top: nat) {
    (forall b :: b in trail ==> b < top) && FoldBelow(trail, top) == current
  }

  lemma {:induction false} FoldPast(trail: Trail, top: nat, n: nat)
    requires (forall b :: b in trail ==> b < top) && n >= top
    ensures FoldBelow(trail, n) == FoldBelow(trail, top)
    decreases n
  {
    if n > top { FoldPast(trail, top, n - 1); }
  }

  lemma {:induction false} FirstBlockLeast(activity: seq<Snapshot>)
    requires activity != []
    ensures FirstBlock(activity) in ByBlock(activity)
    ensures forall b :: b in ByBlock(activity) ==> FirstBlock(activity) <= b
  {
    if Earlier(activity) != [] { FirstBlockLeast(Earlier(activity)); }
  }

  /** A pass that starts from the current entities and only adds blocks past the checkpoint keeps the
      trail right: folding it gives the state after every one of its blocks. */
  lemma PassAudited(trail: Trail, current: Entities, top: nat, activity: seq<Snapshot>, steps: seq<Snapshot>, n: nat)
    requires Audited(trail, current, top) && InOrder(steps, ByBlock(activity)) && activity != []
    requires FirstBlock(activity) >= top && steps != [] && n > Latest(steps).block
    ensures Audited(Kept(trail, CutAt(activity, false)) + TrailOf(current, steps), Latest(steps).entities, n)
  {
    var cut := FirstBlock(activity);
    FirstBlockLeast(activity);
    KeptAll(trail, top, cut);
    FoldPast(trail, top, cut);
    assert Latest(steps).block in BlocksOf(steps);
    LatestTop(steps, n);
    FoldRight(trail, current, steps, cut, n);
    TrailKeys(current, steps);
  }

  lemma KeptAll(trail: Trail, top: nat, cut: nat)
    requires (forall b :: b in trail ==> b < top) && top <= cut
    ensures Kept(trail, Some(cut)) == trail
  {
  }

  lemma LatestTop(steps: seq<Snapshot>, n: nat)
    requires steps != [] && Increasing(steps) && Latest(steps).block < n
    ensures StepsBelow(steps, n) == steps && forall b :: b in BlocksOf(steps) ==> b < n
  {
  }

  /** After a rollback, rows between the rollback block and the first new block stay in the trail: an
      entity that was created there, and that no new step touches, is still in the fold. */
  lemma StaleRowStays(kept: Trail, base: Entities, steps: seq<Snapshot>, cut: nat, n: nat, k: Key)
    requires Increasing(steps) && Below(kept, steps, cut) && n >= cut && !Touched(base, StepsBelow(steps, n), k)
    requires k !in base && k in FoldBelow(kept, cut)
    ensures k in FoldBelow(kept + TrailOf(base, steps), n) && k !in StateAfter(base, StepsBelow(steps, n))
  {
    FoldAt(kept, base, steps, cut, n, k);
    UntouchedStays(base, StepsBelow(steps, n), k);
  }
}
