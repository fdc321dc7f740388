/**
 The two-level difference between an IPVS table and a desired state, as the set of handle calls that
 would close it, and the table that results when some of those calls have been made.
 */
module Diff {
  import opened LvsTypes
  import opened LastWins

  type DestinationMap = map<DestinationKey, Destination>

  /** The contents of an IPVS handle. */
  datatype Store = Store(services: map<ServiceKey, Service>, dests: map<ServiceKey, DestinationMap>)

  /** One service with the destinations that survived health filtering, in listed order. */
  datatype DesiredService = DesiredService(service: Service, destinations: seq<Destination>)

  type Desired = map<ServiceKey, DesiredService>

  datatype Op =
    | CreateService(k: ServiceKey)
    | UpdateService(k: ServiceKey)
    | DeleteService(k: ServiceKey)
    | CreateDestination(k: ServiceKey, d: DestinationKey)
    | UpdateDestination(k: ServiceKey, d: DestinationKey)
    | DeleteDestination(k: ServiceKey, d: DestinationKey)
  {
    predicate OnDestination() {
      CreateDestination? || UpdateDestination? || DeleteDestination?
    }
  }

  /** A call made on the handle, and whether it succeeded. */
  datatype Call = Call(op: Op, ok: bool)

  ghost predicate FiledUnderKey(m: DestinationMap) {
    forall d | d in m :: KeyOfDestination(m[d]) == d
  }

  /** Every entry is filed under its own key, and a service exists exactly when its destination table does. */
  ghost predicate WellFormed(s: Store) {
    && s.services.Keys == s.dests.Keys
    && (forall k | k in s.services :: KeyOfService(s.services[k]) == k)
    && (forall k | k in s.dests :: FiledUnderKey(s.dests[k]))
  }

  function Keyed(dsts: seq<Destination>): (entries: seq<(DestinationKey, Destination)>)
    ensures |entries| == |dsts| && forall i | 0 <= i < |dsts| :: entries[i] == (KeyOfDestination(dsts[i]), dsts[i])
  {
    seq(|dsts|, i requires 0 <= i < |dsts| => (KeyOfDestination(dsts[i]), dsts[i]))
  }

  /** The destinations wanted for a service: of several entries with one key the last listed counts. */
  function Wanted(want: DesiredService): (m: DestinationMap)
    ensures FiledUnderKey(m)
  {
    var entries := Keyed(want.destinations);
    TableMeaning(entries, |entries|);
    Table(entries)
  }

  lemma WantedKeys(want: DesiredService, d: DestinationKey)
    ensures var dsts := want.destinations;
      d in Wanted(want) <==> exists t :: 0 <= t < |dsts| && KeyOfDestination(dsts[t]) == d
  {
    var entries := Keyed(want.destinations);
    TableMeaning(entries, |entries|);
    if t :| 0 <= t < |entries| && KeyOfDestination(want.destinations[t]) == d {
      assert entries[t].0 == d;
    }
  }

  lemma WantedLast(want: DesiredService, t: nat)
    requires t < |want.destinations|
    requires forall t' | t < t' < |want.destinations| ::
      KeyOfDestination(want.destinations[t']) != KeyOfDestination(want.destinations[t])
    ensures var dst := want.destinations[t];
      KeyOfDestination(dst) in Wanted(want) && Wanted(want)[KeyOfDestination(dst)] == dst
  {
    var entries := Keyed(want.destinations);
    TableMeaning(entries, |entries|);
    assert IsLast(entries, |entries|, t);
  }

  ghost function DestsAt(s: Store, k: ServiceKey): DestinationMap {
    if k in s.dests then s.dests[k] else map[]
  }

  ghost function WantedAt(want: Desired, k: ServiceKey): DestinationMap {
    if k in want then Wanted(want[k]) else map[]
  }

  /** Is `op` part of the difference between the table `s` and the desired state `want`? */
  ghost predicate Needed(op: Op, s: Store, managed: set<ServiceKey>, want: Desired) {
    match op
    case CreateService(k) => k in want && k !in s.services
    case UpdateService(k) => k in want && k in s.services && s.services[k].schedName != want[k].service.schedName
    case DeleteService(k) => k in s.services && k in managed && k !in want
    case CreateDestination(k, d) => k in want && d in Wanted(want[k]) && (k !in s.dests || d !in s.dests[k])
    case UpdateDestination(k, d) =>
      && k in want && k in s.dests && d in Wanted(want[k]) && d in s.dests[k]
      && s.dests[k][d].weight != Wanted(want[k])[d].weight
    case DeleteDestination(k, d) => k in want && k in s.dests && d in s.dests[k] && d !in Wanted(want[k])
  }

  ghost function OpsAt(k: ServiceKey, ds: set<DestinationKey>): (ops: set<Op>)
    ensures forall op: Op :: op in ops <==> op.k == k && (op.OnDestination() ==> op.d in ds)
  {
    {CreateService(k), UpdateService(k), DeleteService(k)} +
    (set d | d in ds :: CreateDestination(k, d)) +
    (set d | d in ds :: UpdateDestination(k, d)) +
    (set d | d in ds :: DeleteDestination(k, d))
  }

  /** The difference as a finite set: its size is the disagreement measure. */
  ghost function DiffOf(s: Store, managed: set<ServiceKey>, want: Desired): (ops: set<Op>)
    ensures forall op :: op in ops <==> Needed(op, s, managed, want)
  {
    var candidates := set k, op | k in s.services.Keys + s.dests.Keys + want.Keys
      && op in OpsAt(k, DestsAt(s, k).Keys + WantedAt(want, k).Keys) :: op;
    assert forall op: Op | Needed(op, s, managed, want) ::
        op in OpsAt(op.k, DestsAt(s, op.k).Keys + WantedAt(want, op.k).Keys);
    set op | op in candidates && Needed(op, s, managed, want)
  }

  /** The destinations of service `k` once the calls in `done` have succeeded. */
  ghost function DestOutcome(k: ServiceKey, cur: DestinationMap, want: DestinationMap, done: set<Op>): DestinationMap {
    map d | d in cur.Keys + want.Keys
      && (if d in cur then DeleteDestination(k, d) !in done else CreateDestination(k, d) in done)
      :: if d in cur && !(UpdateDestination(k, d) in done && d in want) then cur[d] else want[d]
  }

  ghost function KeysAfter(s: Store, want: Desired, done: set<Op>): set<ServiceKey> {
    set k | k in s.services.Keys + want.Keys
      && (if k in s.services then DeleteService(k) !in done else CreateService(k) in done)
  }

  /** The table once exactly the calls in `done` have succeeded, in whatever order. */
  ghost function Outcome(s: Store, want: Desired, done: set<Op>): Store {
    Store(
      map k | k in KeysAfter(s, want, done)
        :: if k in s.services && !(UpdateService(k) in done && k in want) then s.services[k] else want[k].service,
      map k | k in KeysAfter(s, want, done) :: DestOutcome(k, DestsAt(s, k), WantedAt(want, k), done))
  }

  /** Calls that can all have succeeded: each was needed, and destinations are only added to existing services. */
  ghost predicate Feasible(s: Store, managed: set<ServiceKey>, want: Desired, done: set<Op>) {
    && (forall op | op in done :: Needed(op, s, managed, want))
    && (forall op | op in done && op.CreateDestination? :: op.k in s.services || CreateService(op.k) in done)
  }

  /** Desired services are filed under the key the kernel will report for them. */
  ghost predicate Canonical(want: Desired) {
    forall k | k in want :: KeyOfService(want[k].service) == k
  }

  /**
   Making the calls in `done` removes exactly those calls from the difference: each successful call
   lowers the disagreement by one and none raises it.
   */
  lemma DiffAfter(s: Store, managed: set<ServiceKey>, want: Desired, done: set<Op>, s': Store,
    managed': set<ServiceKey>)
    requires WellFormed(s) && Feasible(s, managed, want, done) && s' == Outcome(s, want, done)
    requires forall k | k !in want && k in s'.services :: k in managed' <==> k in managed
    ensures DiffOf(s', managed', want) == DiffOf(s, managed, want) - done
    ensures |DiffOf(s', managed', want)| == |DiffOf(s, managed, want)| - |done|
  {
    var before, after := DiffOf(s, managed, want), DiffOf(s', managed', want);
    forall op ensures op in after <==> op in before && op !in done {
      NeededAfter(s, managed, want, done, s', managed', op);
    }
    SizeOfDifference(before, done, after);
  }

  lemma SizeOfDifference(before: set<Op>, done: set<Op>, after: set<Op>)
    requires done <= before
    requires forall op :: op in after <==> op in before && op !in done
    ensures after == before - done && |after| == |before| - |done|
  {
  }

  lemma NeededAfter(s: Store, managed: set<ServiceKey>, want: Desired, done: set<Op>, s': Store,
    managed': set<ServiceKey>, op: Op)
    requires WellFormed(s) && Feasible(s, managed, want, done) && s' == Outcome(s, want, done)
    requires forall k | k !in want && k in s'.services :: k in managed' <==> k in managed
    ensures Needed(op, s', managed', want) <==> Needed(op, s, managed, want) && op !in done
  {
    if op.OnDestination() {
      DestinationNeededAfter(s, managed, want, done, s', managed', op);
    } else {
      ServiceNeededAfter(s, managed, want, done, s', managed', op);
    }
  }

  lemma ServiceNeededAfter(s: Store, managed: set<ServiceKey>, want: Desired, done: set<Op>, s': Store,
    managed': set<ServiceKey>, op: Op)
    requires WellFormed(s) && Feasible(s, managed, want, done) && s' == Outcome(s, want, done) && !op.OnDestination()
    requires op.k !in want && op.k in s'.services ==> (op.k in managed' <==> op.k in managed)
    ensures Needed(op, s', managed', want) <==> Needed(op, s, managed, want) && op !in done
  {
    assert op.k in s'.services <==> op.k in KeysAfter(s, want, done);
    assert op.k in want ==> DeleteService(op.k) !in done;
  }

  lemma DestinationNeededAfter(s: Store, managed: set<ServiceKey>, want: Desired, done: set<Op>, s': Store,
    managed': set<ServiceKey>, op: Op)
    requires WellFormed(s) && Feasible(s, managed, want, done) && s' == Outcome(s, want, done) && op.OnDestination()
    ensures Needed(op, s', managed', want) <==> Needed(op, s, managed, want) && op !in done
  {
    var k, d := op.k, op.d;
    assert k in s'.services <==> k in KeysAfter(s, want, done);
    if k in want {
      assert DeleteService(k) !in done;
      assert d in DestsAt(s', k) <==> k in s'.services && d in DestOutcome(k, DestsAt(s, k), WantedAt(want, k), done);
    }
  }

  /** The result keeps the table well formed. */
  lemma OutcomeWellFormed(s: Store, want: Desired, done: set<Op>)
    requires WellFormed(s) && Canonical(want)
    ensures WellFormed(Outcome(s, want, done))
  {
    var s' := Outcome(s, want, done);
    forall k | k in s'.dests ensures FiledUnderKey(s'.dests[k]) {
      FiledOutcome(k, DestsAt(s, k), WantedAt(want, k), done);
    }
  }

  lemma FiledOutcome(k: ServiceKey, cur: DestinationMap, want: DestinationMap, done: set<Op>)
    requires FiledUnderKey(cur) && FiledUnderKey(want)
    ensures FiledUnderKey(DestOutcome(k, cur, want, done))
  {
  }

  /** Everything outside the desired keys and the deleted services is left exactly as it was. */
  lemma Frame(s: Store, managed: set<ServiceKey>, want: Desired, done: set<Op>, k: ServiceKey)
    requires WellFormed(s) && Feasible(s, managed, want, done)
    requires k !in want && k !in managed
    ensures var s' := Outcome(s, want, done);
      && (k in s'.services <==> k in s.services) && (k in s'.dests <==> k in s.dests)
      && (k in s.services ==> s'.services[k] == s.services[k] && s'.dests[k] == s.dests[k])
  {
    assert DeleteService(k) !in done;
    if k in s.services {
      DestOutcomeUntouched(k, s.dests[k], map[], done);
    }
  }

  lemma DestOutcomeUntouched(k: ServiceKey, cur: DestinationMap, want: DestinationMap, done: set<Op>)
    requires forall op | op in done && op.OnDestination() && op.k == k :: op.UpdateDestination? && op.d !in want
    ensures DestOutcome(k, cur, want, done) == cur
  {
  }
}
