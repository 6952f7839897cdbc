/** History in the database: each retained block holds only what changed since the block before it, with
    tombstones for what was removed; older rows may still hold a whole snapshot.  A stored block carries
    its version rows, so deleting the block deletes them. */
module DeltaHistory {
  import opened ChainModel

  datatype Key = Key(entity: nat, id: nat)

  type Fields = map<nat, nat>

  type Entities = map<Key, Fields>

  /** What happened to one entity: its new data, what it was before, and whether it is gone. */
  datatype Change = Change(data: Fields, previous: Option<Fields>, removed: bool)

  type Changes = map<Key, Change>

  function Get(m: Entities, k: Key): Option<Fields> {
    if k in m then Some(m[k]) else None
  }

  // ----- changes between two states -----

  predicate Differs(before: Entities, after: Entities, k: Key) {
    Get(before, k) != Get(after, k)
  }

  function ChangeOf(before: Entities, after: Entities, k: Key): Change {
    Change(if k in after then after[k] else map[], Get(before, k), k !in after)
  }

  function Delta(before: Entities, after: Entities): Changes {
    map k | k in before.Keys + after.Keys && Differs(before, after, k) :: ChangeOf(before, after, k)
  }

  function Apply(state: Entities, rows: Changes): Entities {
    map k | k in state.Keys + rows.Keys && (k in rows ==> !rows[k].removed) ::
      if k in rows then rows[k].data else state[k]
  }

  /** Takes the changes back. */
  function Undo(state: Entities, rows: Changes): Entities {
    map k | k in state.Keys + rows.Keys && (k in rows ==> rows[k].previous.Some?) ::
      if k in rows && rows[k].previous.Some? then rows[k].previous.value else state[k]
  }

  /** One entity after the changes. */
  function Applied(was: Option<Fields>, rows: Changes, k: Key): Option<Fields> {
    if k !in rows then was else if rows[k].removed then None else Some(rows[k].data)
  }

  lemma ApplyAt(state: Entities, rows: Changes, k: Key)
    ensures Get(Apply(state, rows), k) == Applied(Get(state, k), rows, k)
  {
  }

  lemma UndoAt(state: Entities, rows: Changes, k: Key)
    ensures Get(Undo(state, rows), k) == if k in rows then rows[k].previous else Get(state, k)
  {
  }

  lemma DeltaAt(before: Entities, after: Entities, k: Key)
    ensures k in Delta(before, after) <==> Differs(before, after, k)
    ensures k in Delta(before, after) ==> Delta(before, after)[k] == ChangeOf(before, after, k)
  {
  }

  lemma SameEntities(a: Entities, b: Entities)
    requires forall k :: Get(a, k) == Get(b, k)
    ensures a == b
  {
    forall k ensures k in a <==> k in b { assert Get(a, k) == Get(b, k); }
    forall k | k in a ensures a[k] == b[k] { assert Get(a, k) == Get(b, k); }
  }

  /** A delta names exactly the entities that differ, carries one state to the other, and back. */
  lemma DeltaMeaning(before: Entities, after: Entities)
    ensures Apply(before, Delta(before, after)) == after
    ensures Undo(after, Delta(before, after)) == before
    ensures forall k :: k in Delta(before, after) <==> Differs(before, after, k)
  {
    var d := Delta(before, after);
    forall k ensures Get(Apply(before, d), k) == Get(after, k) && Get(Undo(after, d), k) == Get(before, k) {
      DeltaAt(before, after, k);
      ApplyAt(before, d, k);
      UndoAt(after, d, k);
    }
    SameEntities(Apply(before, d), after);
    SameEntities(Undo(after, d), before);
    forall k ensures k in d <==> Differs(before, after, k) { DeltaAt(before, after, k); }
  }

  /** Any rows that lead to the same state name at least the entities of the delta. */
  lemma DeltaSmallest(before: Entities, after: Entities, rows: Changes)
    requires Apply(before, rows) == after
    ensures Delta(before, after).Keys <= rows.Keys
  {
    forall k | k in Delta(before, after) ensures k in rows {
      DeltaAt(before, after, k);
      ApplyAt(before, rows, k);
    }
  }

  lemma DeltaIs(before: Entities, after: Entities, rows: Changes)
    requires forall k :: k in rows <==> Differs(before, after, k)
    requires forall k :: k in rows ==> rows[k] == ChangeOf(before, after, k)
    ensures rows == Delta(before, after)
  {
    forall k ensures k in rows <==> k in Delta(before, after) { DeltaAt(before, after, k); }
  }

  /** The two passes that collect the rows: over the new state, then over what is gone. */
  method ChangedEntityVersions(before: Entities, after: Entities) returns (rows: Changes)
    ensures rows == Delta(before, after)
  {
    rows := map[];
    var todo := after.Keys;
    while todo != {}
      invariant todo <= after.Keys
      invariant forall k :: k in rows <==> k in after && k !in todo && Differs(before, after, k)
      invariant forall k :: k in rows ==> rows[k] == ChangeOf(before, after, k)
      decreases |todo|
    {
      var k :| k in todo;
      if Get(before, k) != Some(after[k]) {
        rows := rows[k := Change(after[k], Get(before, k), false)];
      }
      todo := todo - {k};
    }
    todo := before.Keys;
    while todo != {}
      invariant todo <= before.Keys
      invariant forall k :: k in rows <==> (k in after || (k in before && k !in todo)) && Differs(before, after, k)
      invariant forall k :: k in rows ==> rows[k] == ChangeOf(before, after, k)
      decreases |todo|
    {
      var k :| k in todo;
      if k !in after {
        rows := rows[k := Change(map[], Some(before[k]), true)];
      }
      todo := todo - {k};
    }
    DeltaIs(before, after, rows);
  }

  /** Applying rows one at a time, as the loader does. */
  method ApplyRows(state: Entities, rows: Changes) returns (r: Entities)
    ensures r == Apply(state, rows)
  {
    r := state;
    var todo := rows.Keys;
    while todo != {}
      invariant todo <= rows.Keys
      invariant forall k :: Get(r, k) == if k in todo then Get(state, k) else Applied(Get(state, k), rows, k)
      decreases |todo|
    {
      var k :| k in todo;
      ghost var r0 := r;
      if rows[k].removed { r := r - {k}; } else { r := r[k := rows[k].data]; }
      assert forall j :: j != k ==> Get(r, j) == Get(r0, j);
      todo := todo - {k};
    }
    forall k ensures Get(r, k) == Get(Apply(state, rows), k) { ApplyAt(state, rows, k); }
    SameEntities(r, Apply(state, rows));
  }

  // ----- the table -----

  datatype Mode = DeltaRows | FullRows

  datatype Stored = Stored(meta: nat, mode: Mode, count: nat, rows: Changes)

  type Table = map<nat, Stored>

  /** A history entry: its block, its checkpoint and sources (`meta`), and its full entities. */
  datatype Snapshot = Snapshot(block: nat, meta: nat, entities: Entities)

  /** Blocks and counts that the columns can hold. */
  predicate Storable(history: seq<Snapshot>) {
    forall i :: 0 <= i < |history| ==> Fits(history[i])
  }

  predicate Fits(s: Snapshot) {
    s.block < I64_LIMIT && |s.entities| < I32_LIMIT
  }

  function Earlier(history: seq<Snapshot>): seq<Snapshot>
    requires history != []
  {
    history[..|history| - 1]
  }

  function Latest(history: seq<Snapshot>): Snapshot
    requires history != []
  {
    history[|history| - 1]
  }

  function LastEntities(history: seq<Snapshot>): Entities {
    if history == [] then map[] else Latest(history).entities
  }

  function BlocksOf(history: seq<Snapshot>): set<nat> {
    if history == [] then {} else BlocksOf(Earlier(history)) + {Latest(history).block}
  }

  function RowFor(before: Entities, s: Snapshot): Stored {
    Stored(s.meta, DeltaRows, |s.entities|, Delta(before, s.entities))
  }

  /** What a history is stored as. */
  function TableOf(history: seq<Snapshot>): Table {
    if history == [] then map[]
    else TableOf(Earlier(history))[Latest(history).block := RowFor(LastEntities(Earlier(history)), Latest(history))]
  }

  ghost predicate Increasing(history: seq<Snapshot>) {
    history == []
    || (Increasing(Earlier(history)) && forall b :: b in BlocksOf(Earlier(history)) ==> b < Latest(history).block)
  }

  /** The entities a stored block stands for, given those of the block before it. */
  function EntitiesAt(row: Stored, before: Entities): Entities {
    if row.mode.DeltaRows? then Apply(before, row.rows) else Apply(map[], row.rows)
  }

  ghost predicate RowHolds(table: Table, before: Entities, s: Snapshot) {
    s.block in table && table[s.block].meta == s.meta && s.entities == EntitiesAt(table[s.block], before)
  }

  ghost predicate RowsHold(table: Table, history: seq<Snapshot>) {
    history == []
    || (RowsHold(table, Earlier(history)) && RowHolds(table, LastEntities(Earlier(history)), Latest(history)))
  }

  /** The table holds this history: a full row has the entities, a delta row leads to them from the
      entry before it. */
  ghost predicate Represents(table: Table, history: seq<Snapshot>) {
    Increasing(history) && table.Keys == BlocksOf(history) && RowsHold(table, history)
  }

  /** What a stored block says of one entity, given what it was in the block before: a whole-snapshot row holds exactly
      its own rows that are not removed; a delta row changes what it has a row for. */
  function EntityFrom(row: Stored, was: Option<Fields>, k: Key): Option<Fields> {
    match row.mode
    case FullRows => if k in row.rows && !row.rows[k].removed then Some(row.rows[k].data) else None
    case DeltaRows => if k !in row.rows then was else if row.rows[k].removed then None else Some(row.rows[k].data)
  }

  ghost predicate EntryHeld(table: Table, before: Entities, s: Snapshot) {
    && s.block in table && table[s.block].meta == s.meta
    && forall k :: Get(s.entities, k) == EntityFrom(table[s.block], Get(before, k), k)
  }

  /** In a history that a table represents, every entry is what its row says, entity by entity. */
  lemma {:induction false} RepresentedEntry(table: Table, history: seq<Snapshot>, i: nat)
    requires Represents(table, history) && i < |history|
    ensures EntryHeld(table, if i > 0 then history[i - 1].entities else map[], history[i])
    decreases history
  {
    RowsOfPrefix(table, history, i);
    var row, before := table[history[i].block], if i > 0 then history[i - 1].entities else map[];
    forall k
      ensures Get(history[i].entities, k) == EntityFrom(row, Get(before, k), k)
    {
      ApplyAt(before, row.rows, k);
      ApplyAt(map[], row.rows, k);
    }
  }

  lemma {:induction false} RowsOfPrefix(table: Table, history: seq<Snapshot>, i: nat)
    requires RowsHold(table, history) && i < |history|
    ensures RowHolds(table, if i > 0 then history[i - 1].entities else map[], history[i])
    decreases history
  {
    var before := Earlier(history);
    if i == |history| - 1 {
      assert i > 0 ==> LastEntities(before) == history[i - 1].entities;
    } else {
      RowsOfPrefix(table, before, i);
    }
  }

  /** Two whole-snapshot rows: the entity of the first is gone in the second. */
  lemma FullRowReplaces(meta: nat, a: Key, b: Key, f: Fields, history: seq<Snapshot>)
    requires a != b
    requires var one, two := Stored(meta, FullRows, 1, map[a := Change(f, None, false)]),
                             Stored(meta, FullRows, 1, map[b := Change(f, None, false)]);
             Represents(map[1 := one, 2 := two], history)
    ensures |history| == 2 && history[1].block == 2 && history[1].entities == map[b := f]
  {
    var rows := map[b := Change(f, None, false)];
    var table := map[1 := Stored(meta, FullRows, 1, map[a := Change(f, None, false)]),
                     2 := Stored(meta, FullRows, 1, rows)];
    TwoBlocks(history);
    RepresentedEntry(table, history, 1);
    forall k ensures Get(history[1].entities, k) == Get(map[b := f], k) { }
    SameEntities(history[1].entities, map[b := f]);
  }

  lemma TwoBlocks(history: seq<Snapshot>)
    requires Increasing(history) && BlocksOf(history) == {1, 2}
    ensures |history| == 2 && history[0].block == 1 && history[1].block == 2
  {
    var before := Earlier(history);
    assert BlocksOf(history) == BlocksOf(before) + {Latest(history).block};
    assert 1 in BlocksOf(history) && 2 in BlocksOf(history);
    assert Latest(history).block == 2 && BlocksOf(before) == {1};
    assert BlocksOf(before) == BlocksOf(Earlier(before)) + {Latest(before).block};
    assert Latest(before).block == 1;
    assert BlocksOf(Earlier(before)) == {};
    LatestListed(Earlier(before));
  }

  lemma LatestListed(history: seq<Snapshot>)
    ensures history != [] ==> Latest(history).block in BlocksOf(history)
  {
  }

  lemma {:induction false} TableKeys(history: seq<Snapshot>)
    ensures TableOf(history).Keys == BlocksOf(history)
  {
    if history != [] { TableKeys(Earlier(history)); }
  }

  lemma {:induction false} RowsKept(table: Table, other: Table, history: seq<Snapshot>)
    requires RowsHold(table, history)
    requires forall b :: b in BlocksOf(history) ==> b in table && b in other && other[b] == table[b]
    ensures RowsHold(other, history)
  {
    if history != [] { RowsKept(table, other, Earlier(history)); }
  }

  /** What is written holds the history, in strictly increasing blocks. */
  lemma {:induction false} TableRepresents(history: seq<Snapshot>)
    requires Increasing(history)
    ensures Represents(TableOf(history), history)
  {
    TableKeys(history);
    if history != [] {
      var before, s := Earlier(history), Latest(history);
      TableRepresents(before);
      RowsKept(TableOf(before), TableOf(history), before);
      DeltaMeaning(LastEntities(before), s.entities);
    }
  }

  lemma Snoc(history: seq<Snapshot>, s: Snapshot)
    ensures history + [s] != [] && Earlier(history + [s]) == history && Latest(history + [s]) == s
  {
  }

  class HistoryStore {
    var table: Table

    constructor (table: Table)
      ensures this.table == table
    {
      this.table := table;
    }

    /** One transaction: drops the blocks that are no longer kept, then writes every entry's delta over
        whatever was stored for its block.  An entry that does not fit leaves the table as it was. */
    method WriteHistory(history: seq<Snapshot>) returns (ok: bool)
      modifies this
      ensures ok <==> forall i :: 0 <= i < |history| ==>
                        history[i].block < I64_LIMIT && |history[i].entities| < I32_LIMIT
      ensures table == if ok then TableOf(history) else old(table)
    {
      var kept := BlocksOf(history);
      var draft := map b | b in table && b in kept :: table[b];
      var previous: Entities := map[];
      ghost var done: seq<Snapshot> := [];
      for i := 0 to |history|
        invariant done == history[..i] && Storable(done) && table == old(table)
        invariant draft.Keys <= kept && Drafted(draft, done, previous)
      {
        var s := history[i];
        BlockListed(history, i);
        Prefix(history, i);
        if !Fits(s) { return false; }
        var rows := ChangedEntityVersions(previous, s.entities);
        DraftStep(draft, done, previous, s);
        draft := draft[s.block := Stored(s.meta, DeltaRows, |s.entities|, rows)];
        previous := s.entities;
        done := done + [s];
      }
      assert done == history;
      DraftDone(draft, history, previous, kept);
      table := draft;
      ok := true;
    }

    /** All entries in block order, with full entities: a running state follows the deltas and is
        replaced by a full row. */
    method LoadHistory() returns (history: seq<Snapshot>)
      ensures Represents(table, history)
      ensures forall other :: Represents(table, other) ==> history == other
    {
      var stored := table;
      history := [];
      var state: Entities := map[];
      var todo := stored.Keys;
      while todo != {}
        invariant todo <= stored.Keys && Loading(stored, todo, history, state)
        decreases |todo|
      {
        LeastExists(todo);
        var b :| Least(todo, b);
        var row := stored[b];
        ghost var before := state;
        state := ApplyRows(if row.mode.DeltaRows? then state else map[], row.rows);
        LoadNext(stored, todo, history, before, b, state);
        history := history + [Snapshot(b, row.meta, state)];
        todo := todo - {b};
      }
      LoadDone(stored, history, state);
    }
  }

  lemma LoadDone(table: Table, history: seq<Snapshot>, state: Entities)
    requires Loading(table, {}, history, state)
    ensures Represents(table, history)
    ensures forall other :: Represents(table, other) ==> history == other
  {
    OnlyOne(table, history);
  }

  lemma OnlyOne(table: Table, history: seq<Snapshot>)
    requires Represents(table, history)
    ensures forall other :: Represents(table, other) ==> history == other
  {
    forall other | Represents(table, other) ensures history == other { RowsOne(table, history, other); }
  }

  lemma Prefix(history: seq<Snapshot>, i: nat)
    requires i < |history|
    ensures history[..i + 1] == history[..i] + [history[i]]
    ensures Storable(history[..i]) && Fits(history[i]) ==> Storable(history[..i + 1])
    ensures !Fits(history[i]) ==> !Storable(history)
  {
  }

  ghost predicate Loading(table: Table, todo: set<nat>, history: seq<Snapshot>, state: Entities) {
    && BlocksOf(history) == table.Keys - todo
    && (forall a, b :: a in BlocksOf(history) && b in todo ==> a < b)
    && Increasing(history) && RowsHold(table, history) && state == LastEntities(history)
  }

  lemma LoadNext(table: Table, todo: set<nat>, history: seq<Snapshot>, before: Entities, b: nat, state: Entities)
    requires todo <= table.Keys && Loading(table, todo, history, before) && Least(todo, b)
    requires state == EntitiesAt(table[b], before)
    ensures Loading(table, todo - {b}, history + [Snapshot(b, table[b].meta, state)], state)
  {
    LoadStep(table, history, Snapshot(b, table[b].meta, state));
  }

  lemma LoadStep(table: Table, history: seq<Snapshot>, s: Snapshot)
    requires Increasing(history) && RowsHold(table, history) && RowHolds(table, LastEntities(history), s)
    requires forall b :: b in BlocksOf(history) ==> b < s.block
    ensures Increasing(history + [s]) && RowsHold(table, history + [s]) && LastEntities(history + [s]) == s.entities
    ensures BlocksOf(history + [s]) == BlocksOf(history) + {s.block}
  {
    Snoc(history, s);
  }

  lemma TableSnoc(done: seq<Snapshot>, s: Snapshot)
    ensures TableOf(done + [s]) == TableOf(done)[s.block := RowFor(LastEntities(done), s)]
    ensures LastEntities(done + [s]) == s.entities
  {
    Snoc(done, s);
  }

  lemma DraftStep(draft: Table, done: seq<Snapshot>, previous: Entities, s: Snapshot)
    requires Drafted(draft, done, previous)
    ensures Drafted(draft[s.block := RowFor(previous, s)], done + [s], s.entities)
  {
    TableSnoc(done, s);
  }

  lemma DraftDone(draft: Table, history: seq<Snapshot>, previous: Entities, kept: set<nat>)
    requires Drafted(draft, history, previous) && draft.Keys <= kept && kept == BlocksOf(history)
    ensures draft == TableOf(history)
  {
    TableKeys(history);
  }

  /** The draft has what the entries so far are stored as; other blocks are still to be replaced. */
  ghost predicate Drafted(draft: Table, done: seq<Snapshot>, previous: Entities) {
    && previous == LastEntities(done)
    && forall b :: b in TableOf(done) ==> b in draft && draft[b] == TableOf(done)[b]
  }

  lemma {:induction false} BlockListed(history: seq<Snapshot>, i: nat)
    requires i < |history|
    ensures history[i].block in BlocksOf(history)
  {
    if i < |history| - 1 { BlockListed(Earlier(history), i); }
  }

  predicate Least(s: set<nat>, b: nat) {
    b in s && forall c :: c in s ==> b <= c
  }

  lemma {:induction false} LeastExists(s: set<nat>)
    requires s != {}
    ensures exists b :: Least(s, b)
    decreases |s|
  {
    var b :| b in s;
    var rest := s - {b};
    if rest == {} {
      assert s == {b};
      assert Least(s, b);
    } else {
      LeastExists(rest);
      var m :| Least(rest, m);
      var least := if b < m then b else m;
      forall c | c in s ensures least <= c { if c != b { assert c in rest; } }
      assert Least(s, least);
    }
  }

  // ----- a table holds one history -----

  lemma TopBlock(a: seq<Snapshot>, b: seq<Snapshot>)
    requires a != [] && b != [] && Increasing(a) && BlocksOf(a) == BlocksOf(b)
    ensures Latest(b).block <= Latest(a).block
  {
    assert Latest(b).block in BlocksOf(a);
  }

  /** Two histories that a table holds are the same. */
  lemma {:induction false} RowsOne(table: Table, a: seq<Snapshot>, b: seq<Snapshot>)
    requires Increasing(a) && Increasing(b) && BlocksOf(a) == BlocksOf(b) && RowsHold(table, a) && RowsHold(table, b)
    ensures a == b
  {
    if a == [] || b == [] {
      assert a == [] && b == [];
    } else {
      TopBlock(a, b);
      TopBlock(b, a);
      assert BlocksOf(Earlier(a)) == BlocksOf(a) - {Latest(a).block};
      assert BlocksOf(Earlier(b)) == BlocksOf(b) - {Latest(b).block};
      RowsOne(table, Earlier(a), Earlier(b));
      assert a == Earlier(a) + [Latest(a)] && b == Earlier(b) + [Latest(b)];
    }
  }

  /** Writing and loading: whatever was stored before, every full entity set comes back. */
  method WriteThenLoad(store: HistoryStore, history: seq<Snapshot>) returns (loaded: seq<Snapshot>)
    requires Increasing(history) && Storable(history)
    modifies store
    ensures loaded == history
  {
    var ok := store.WriteHistory(history);
    TableRepresents(history);
    loaded := store.LoadHistory();
  }

  /** Two entries at one block do not survive: the later delta is taken against the earlier entry, whose
      rows it replaces. */
  lemma RepeatedBlockLoses(e: Entities, b: nat, meta: nat)
    requires e != map[]
    ensures var table := TableOf([Snapshot(b, meta, e)] + [Snapshot(b, meta, e)]);
            Represents(table, [] + [Snapshot(b, meta, map[])]) && !Represents(table, [] + [Snapshot(b, meta, e)])
  {
    var s, lost, row := Snapshot(b, meta, e), Snapshot(b, meta, map[]), RowFor(e, Snapshot(b, meta, e));
    var table := TableOf([s] + [s]);
    TableSnoc([], s);
    TableSnoc([s], s);
    assert [] + [s] == [s];
    assert table == map[b := RowFor(map[], s)][b := row];
    Snoc([], s);
    NothingChanged(e, row.rows);
    LoadStep(table, [], lost);
    Snoc([], lost);
  }

  lemma NothingChanged(e: Entities, rows: Changes)
    requires rows == Delta(e, e)
    ensures Apply(map[], rows) == map[]
  {
    forall k ensures Get(Apply(map[], rows), k) == None {
      ApplyAt(map[], rows, k);
      DeltaAt(e, e, k);
    }
    SameEntities(Apply(map[], rows), map[]);
  }
}
