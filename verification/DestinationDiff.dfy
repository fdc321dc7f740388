/** The destination-level diff of one service (the specification of reconcileDestinations in pkg/lvs/reconciler.go). */
module DestinationDiff {
  import opened LvsTypes
  import opened Diff
  import opened CallLog
  import opened FakeHandle

  /** A call that the destinations `cur` of service `k` still need. */
  ghost predicate DestNeeded(op: Op, k: ServiceKey, cur: DestinationMap, want: DestinationMap) {
    && op.OnDestination() && op.k == k
    && match op
       case CreateDestination(_, d) => d in want && d !in cur
       case UpdateDestination(_, d) => d in want && d in cur && cur[d].weight != want[d].weight
       case DeleteDestination(_, d) => d in cur && d !in want
       case _ => false
  }

  /** One more successful call changes the outcome at its own destination only. */
  lemma DestStep(k: ServiceKey, cur: DestinationMap, want: DestinationMap, done: set<Op>, op: Op)
    requires DestNeeded(op, k, cur, want)
    requires forall o | o in done :: o.OnDestination() && o.d != op.d
    ensures var before := DestOutcome(k, cur, want, done);
      && (op.d in before <==> op.d in cur)
      && DestOutcome(k, cur, want, done + {op}) ==
         if op.DeleteDestination? then before - {op.d} else before[op.d := want[op.d]]
  {
  }

  /** What a destination diff did: the calls tried, those that succeeded, and those listed as failed. */
  datatype DestWork = DestWork(done: set<Op>, tried: set<Op>, failed: seq<Op>) {
    function And(c: Call): DestWork {
      DestWork(if c.ok then done + {c.op} else done, tried + {c.op}, if c.ok then failed else failed + [c.op])
    }
  }

  const NO_DEST_WORK := DestWork({}, {}, [])

  /**
   The calls of a destination diff part-way: destinations in `open` have not been looked at; of the others exactly the
   needed calls were tried, those in `done` succeeded and the rest is listed as failed, each once.
   */
  ghost predicate DestCalls(k: ServiceKey, cur: DestinationMap, want: DestinationMap, work: DestWork,
    open: set<DestinationKey>)
  {
    && work.done <= work.tried
    && (forall op :: op in work.tried <==> DestNeeded(op, k, cur, want) && op.d !in open)
    && (forall op :: op in work.failed <==> op in work.tried && op !in work.done)
    && (forall i, j | 0 <= i < j < |work.failed| :: work.failed[i] != work.failed[j])
  }

  /**
   The calls made on the destinations of service `k` are those that the two tables differ by, and the ones listed as
   failed are those made without success, each once.
   */
  ghost predicate ExactCalls(k: ServiceKey, actual: DestinationMap, desired: DestinationMap, work: DestWork) {
    && (forall op | op in work.tried :: op.OnDestination() && op.k == k)
    && (forall d :: CreateDestination(k, d) in work.tried <==> d in desired && d !in actual)
    && (forall d :: DeleteDestination(k, d) in work.tried <==> d in actual && d !in desired)
    && (forall d :: UpdateDestination(k, d) in work.tried <==>
          d in desired && d in actual && actual[d].weight != desired[d].weight)
    && (forall op :: op in work.failed <==> op in work.tried && op !in work.done)
    && (forall i, j | 0 <= i < j < |work.failed| :: work.failed[i] != work.failed[j])
  }

  lemma AllLookedAt(k: ServiceKey, actual: DestinationMap, desired: DestinationMap, work: DestWork)
    requires DestCalls(k, actual, desired, work, {})
    ensures ExactCalls(k, actual, desired, work)
  {
  }

  /** The table a destination diff has made of service `k` of table `s`. */
  ghost function DestTable(k: ServiceKey, s: Store, want: DestinationMap, done: set<Op>): Store
    requires k in s.dests
  {
    Store(s.services, s.dests[k := DestOutcome(k, s.dests[k], want, done)])
  }

  /** A destination not looked at yet is still as it was. */
  lemma StillOpen(k: ServiceKey, cur: DestinationMap, want: DestinationMap, work: DestWork, open: set<DestinationKey>,
    d: DestinationKey)
    requires DestCalls(k, cur, want, work, open) && d in open
    ensures d in DestOutcome(k, cur, want, work.done) <==> d in cur
  {
  }

  /** Trying the call a destination needs. */
  lemma Attempt(k: ServiceKey, cur: DestinationMap, want: DestinationMap, work: DestWork, open: set<DestinationKey>,
    c: Call)
    requires DestCalls(k, cur, want, work, open)
    requires DestNeeded(c.op, k, cur, want) && c.op.d in open
    ensures c.op !in work.tried && DestCalls(k, cur, want, work.And(c), open - {c.op.d})
  {
  }

  /** A destination that needs no call can be passed over. */
  lemma Skip(k: ServiceKey, cur: DestinationMap, want: DestinationMap, work: DestWork, open: set<DestinationKey>,
    d: DestinationKey)
    requires DestCalls(k, cur, want, work, open)
    requires forall op | DestNeeded(op, k, cur, want) :: op.d != d
    ensures DestCalls(k, cur, want, work, open - {d})
  {
  }

  /** A successful call moves the table from one outcome to the next. */
  lemma StoreStep(k: ServiceKey, s: Store, want: DestinationMap, done: set<Op>, op: Op)
    requires k in s.dests && DestNeeded(op, k, s.dests[k], want) && FiledUnderKey(want)
    requires forall o | o in done :: o.OnDestination() && o.d != op.d
    ensures DestTable(k, s, want, done + {op}) ==
      if op.DeleteDestination? then DropDestination(DestTable(k, s, want, done), k, op.d)
      else SetDestination(DestTable(k, s, want, done), k, want[op.d])
  {
    DestStep(k, s.dests[k], want, done, op);
  }

  /** A destination diff part-way, as seen from the handle, which was at `start` when it began. */
  ghost predicate Progress(k: ServiceKey, want: DestinationMap, start: View, work: DestWork,
    open: set<DestinationKey>, now: View)
  {
    && k in start.store.dests
    && Tracks(start.calls, now.calls, work.done, work.tried)
    && DestCalls(k, start.store.dests[k], want, work, open)
    && now.store == DestTable(k, start.store, want, work.done)
  }

  lemma Starts(k: ServiceKey, want: DestinationMap, start: View, open: set<DestinationKey>)
    requires k in start.store.dests && open == start.store.dests[k].Keys + want.Keys
    ensures Progress(k, want, start, NO_DEST_WORK, open, start)
  {
    DestOutcomeUntouched(k, start.store.dests[k], want, {});
    assert start.store.dests[k := start.store.dests[k]] == start.store.dests;
  }

  /** The step every iteration of the two loops takes when a call is needed. */
  lemma Advance(k: ServiceKey, want: DestinationMap, start: View, work: DestWork, open: set<DestinationKey>,
    now: View, c: Call, next: View)
    requires Progress(k, want, start, work, open, now)
    requires DestNeeded(c.op, k, start.store.dests[k], want) && c.op.d in open && FiledUnderKey(want)
    requires next.calls == now.calls + [c]
    requires next.store ==
      if !c.ok then now.store
      else if c.op.DeleteDestination? then DropDestination(now.store, k, c.op.d)
      else SetDestination(now.store, k, want[c.op.d])
    ensures Progress(k, want, start, work.And(c), open - {c.op.d}, next)
  {
    Attempt(k, start.store.dests[k], want, work, open, c);
    TracksStep(start.calls, now.calls, work.done, work.tried, c);
    if c.ok {
      StoreStep(k, start.store, want, work.done, c.op);
    }
  }

  /** What one iteration finds at an open destination, and what is left of the open ones. */
  lemma AtOpen(k: ServiceKey, want: DestinationMap, start: View, work: DestWork, open: set<DestinationKey>, now: View,
    d: DestinationKey)
    requires Progress(k, want, start, work, open, now) && d in open
    ensures k in now.store.dests && (d in now.store.dests[k] <==> d in start.store.dests[k])
    ensures (forall op | DestNeeded(op, k, start.store.dests[k], want) :: op.d != d) ==>
      Progress(k, want, start, work, open - {d}, now)
  {
    StillOpen(k, start.store.dests[k], want, work, open, d);
    if forall op | DestNeeded(op, k, start.store.dests[k], want) :: op.d != d {
      Skip(k, start.store.dests[k], want, work, open, d);
    }
  }

  /** In the first loop the open destinations are those in `todo` and the stale ones. */
  ghost predicate StillToDo(open: set<DestinationKey>, todo: set<DestinationKey>, actual: set<DestinationKey>,
    desired: set<DestinationKey>)
  {
    todo <= desired && forall d :: d in open <==> d in todo || (d in actual && d !in desired)
  }

  lemma StillToDoStep(open: set<DestinationKey>, todo: set<DestinationKey>, actual: set<DestinationKey>,
    desired: set<DestinationKey>, d: DestinationKey)
    requires StillToDo(open, todo, actual, desired) && d in todo
    ensures d in open && d in desired && StillToDo(open - {d}, todo - {d}, actual, desired)
  {
  }
}
