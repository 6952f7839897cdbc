/** Any number of reorganizations: whatever happens to the chain, a deployment that rolls back to complete entries
    ends with what a sync of the last chain from scratch holds. */
module Reorgs {
  import opened ChainModel
  import opened Streaming
  import opened Sync
  import opened Runs
  import opened Reorg

  /** A deployment, the chain it follows, and that chain's block hashes. */
  datatype Following<!S> = Following(chain: seq<RawLog>, hash: nat -> nat, st: Stored<S>)

  /** A cycle on the chain; a cycle that stores nothing, on whatever chain; or the cycle that meets another chain and
      rolls back to an entry. */
  datatype Event<!S> = Follows(args: SyncArgs, fails: bool)
                     | Stalls(chain: seq<RawLog>, args: SyncArgs, fails: bool)
                     | Reorganizes(chain: seq<RawLog>, hash: nat -> nat, entry: Entry<S>, args: SyncArgs, fails: bool)

  function Play<S>(cfg: Config<S>, initial: S, d: Following<S>, ev: Event<S>): Following<S> {
    match ev
    case Follows(args, fails) => d.(st := Cycle(cfg, initial, d.chain, d.st, args, fails))
    case Stalls(chain, args, fails) => d.(st := Cycle(cfg, initial, chain, d.st, args, fails))
    case Reorganizes(chain, hash, _, args, fails) =>
      Following(chain, hash, Cycle(cfg, initial, chain, d.st, args, fails))
  }

  function PlayAll<S>(cfg: Config<S>, initial: S, d: Following<S>, events: seq<Event<S>>): Following<S>
    decreases events
  {
    if events == [] then d else PlayAll(cfg, initial, Play(cfg, initial, d, events[0]), events[1..])
  }

  /** A chain on which the cycle that ends like this may be made. */
  ghost predicate FitChain<S>(cfg: Config<S>, chain: seq<RawLog>, first: nat, initial: S, next: Stored<S>) {
    && Ordered(chain) && ApartChain(cfg, chain, first, initial)
    && (NoneEarlierChain(cfg, chain, first, initial) || Completed(next))
  }

  /** What is asked of an event: of a cycle, what the split theorem asks; of a reorganization, that it rolls back to a
      complete entry up to which the chains agree, and goes on from there as a cycle may. */
  ghost predicate Allowed<S>(cfg: Config<S>, initial: S, first: nat, d: Following<S>, ev: Event<S>) {
    match ev
    case Follows(args, fails) =>
      && !args.reset && Honest(args, d.hash) && Forward(cfg, initial, d.chain, d.st, args, first)
      && FitChain(cfg, d.chain, first, initial, Cycle(cfg, initial, d.chain, d.st, args, fails))
    case Stalls(chain, args, fails) => Cycle(cfg, initial, chain, d.st, args, fails) == d.st
    case Reorganizes(chain, hash, e, args, fails) =>
      && RollsBack(d.st, args, e) && e.complete && Honest(args, hash)
      && Agree(d.chain, chain, e.to) && e.hash == Some(hash(e.to))
      && !StoresNothing(cfg, initial, chain, RolledBack(d.st.snapshot.value, e), args, fails)
      && Forward(cfg, initial, chain, Rolled(cfg, chain, first, initial, d.st.snapshot.value, e), args, first)
      && FitChain(cfg, chain, first, initial, Cycle(cfg, initial, chain, d.st, args, fails))
  }

  ghost predicate AllAllowed<S>(cfg: Config<S>, initial: S, first: nat, d: Following<S>, events: seq<Event<S>>)
    decreases events
  {
    events == []
    || (Allowed(cfg, initial, first, d, events[0])
        && AllAllowed(cfg, initial, first, Play(cfg, initial, d, events[0]), events[1..]))
  }

  /** The stored snapshot is on its way on the chain, had the deployment executed this trace. */
  ghost predicate OnItsWay<S(!new)>(cfg: Config<S>, first: nat, initial: S, d: Following<S>, trace: seq<Item>) {
    && Ordered(d.chain) && Sound(cfg, d.chain, first, initial, Stored(d.st.snapshot, trace), d.hash)
    && HistoryExact(cfg, d.chain, first, initial, d.st)
  }

  lemma FollowOn<S(!new)>(cfg: Config<S>, first: nat, initial: S, d: Following<S>, trace: seq<Item>, args: SyncArgs,
                          fails: bool)
    returns (after: seq<Item>)
    requires OnItsWay(cfg, first, initial, d, trace) && Allowed(cfg, initial, first, d, Follows(args, fails))
    ensures OnItsWay(cfg, first, initial, Play(cfg, initial, d, Follows(args, fails)), after)
  {
    var st := Stored(d.st.snapshot, trace);
    var next := Cycle(cfg, initial, d.chain, st, args, fails);
    CycleIgnoresTrace(cfg, initial, d.chain, d.st, st, args, fails);
    CycleKeepsGood(cfg, d.chain, first, initial, st, args, fails, d.hash);
    CycleKeepsHistory(cfg, d.chain, first, initial, st, args, fails, d.hash);
    after := next.trace;
  }

  lemma Reorganized<S(!new)>(cfg: Config<S>, first: nat, initial: S, d: Following<S>, trace: seq<Item>,
                             chain: seq<RawLog>, hash: nat -> nat, e: Entry<S>, args: SyncArgs, fails: bool)
    returns (after: seq<Item>)
    requires OnItsWay(cfg, first, initial, d, trace)
    requires Allowed(cfg, initial, first, d, Reorganizes(chain, hash, e, args, fails))
    ensures OnItsWay(cfg, first, initial, Play(cfg, initial, d, Reorganizes(chain, hash, e, args, fails)), after)
  {
    var s := d.st.snapshot.value;
    assert e in s.history;
    var rolled := Rolled(cfg, chain, first, initial, s, e);
    var next := Cycle(cfg, initial, chain, rolled, args, fails);
    RollbackGood(cfg, d.chain, chain, first, initial, s, e);
    ReorgCycle(cfg, chain, initial, d.st, args, fails, e, rolled.trace);
    CycleKeepsGood(cfg, chain, first, initial, rolled, args, fails, hash);
    CycleKeepsHistory(cfg, chain, first, initial, rolled, args, fails, hash);
    after := next.trace;
  }

  lemma {:induction false} StaysOnItsWay<S(!new)>(cfg: Config<S>, first: nat, initial: S, d: Following<S>,
                                                  trace: seq<Item>, events: seq<Event<S>>)
    returns (after: seq<Item>)
    requires OnItsWay(cfg, first, initial, d, trace) && AllAllowed(cfg, initial, first, d, events)
    ensures OnItsWay(cfg, first, initial, PlayAll(cfg, initial, d, events), after)
    decreases events
  {
    after := trace;
    if events != [] {
      match events[0] {
        case Follows(args, fails) => after := FollowOn(cfg, first, initial, d, trace, args, fails);
        case Stalls(chain, args, fails) =>
        case Reorganizes(chain, hash, e, args, fails) =>
          after := Reorganized(cfg, first, initial, d, trace, chain, hash, e, args, fails);
      }
      after := StaysOnItsWay(cfg, first, initial, Play(cfg, initial, d, events[0]), after, events[1..]);
    }
  }

  /** After any number of cycles and reorganizations, in any order: whenever the checkpoint is complete, it holds what
      a sync of the chain as it then is, from scratch, holds; and so does every complete entry of the history. */
  lemma AnyReorganizations<S(!new)>(cfg: Config<S>, first: nat, initial: S, chain: seq<RawLog>, hash: nat -> nat,
                                    events: seq<Event<S>>)
    requires Ordered(chain) && WfSources(cfg.statics, [])
    requires AllAllowed(cfg, initial, first, Following(chain, hash, Stored(None, [])), events)
    ensures var end := PlayAll(cfg, initial, Following(chain, hash, Stored(None, [])), events);
            && HoldsReference(cfg, end.chain, first, initial, end.st)
            && HistoryExact(cfg, end.chain, first, initial, end.st)
  {
    var d: Following<S> := Following(chain, hash, Stored(None, []));
    var trace := StaysOnItsWay(cfg, first, initial, d, [], events);
    var end := PlayAll(cfg, initial, d, events);
    GoodIsFaithful(cfg, end.chain, first, initial, Stored(end.st.snapshot, trace));
  }
}
