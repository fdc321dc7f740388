/**
 The service loops of Reconcile (pkg/lvs/reconciler.go) as sequences of turns, whatever order the keys are taken in
 and whichever calls fail.  With canonical listen hosts a sequence of turns is a pass over the services it took.
 */
module ReconcileLoops {
  import opened Wrappers
  import opened LvsTypes
  import opened Diff
  import opened CallLog
  import opened Pass
  import opened FakeHandle
  import opened DestinationDiff
  import opened ServicePass

  type Services = map<ServiceKey, Service>

  /** The table, the log of calls on it, and the keys the reconciler answers for. */
  datatype Situation = Situation(store: Store, calls: seq<Call>, managed: set<ServiceKey>) {
    function Seen(): View {
      View(store, calls)
    }
  }

  // ----- One turn of the service loop -----

  /** The service call a turn makes, under the key the kernel reports for the service. */
  function CallFor(want: DesiredService, actual: Option<Service>): Option<Op> {
    match actual
    case None => Some(CreateService(KeyOfService(want.service)))
    case Some(found) =>
      if found.schedName != want.service.schedName then Some(UpdateService(KeyOfService(want.service))) else None
  }

  function Calls(op: Option<Op>): set<Op> {
    if op.Some? then {op.value} else {}
  }

  /** Errors name the service by its configured key. */
  function Renamed(op: Op, key: ServiceKey): Op {
    if op.CreateService? then CreateService(key) else UpdateService(key)
  }

  ghost function Served(want: DesiredService, actual: Option<Service>, s: Store): Store {
    match CallFor(want, actual)
    case None => s
    case Some(op) => if op.CreateService? then AddService(s, want.service) else ReplaceService(s, want.service)
  }

  /**
   What the service call of a turn reports: a create succeeds only for a service that is not there, an update only
   for one that is, and unless calls may be refused these are the only reasons to fail.
   */
  ghost predicate ServiceCalled(key: ServiceKey, want: DesiredService, actual: Option<Service>, a: Situation,
    err: Option<ReconcileError>, b: Situation, faults: Faults)
  {
    var op, kernelKey := CallFor(want, actual), KeyOfService(want.service);
    var possible := op.None? || (op.value.CreateService? <==> kernelKey !in a.store.services);
    && Tracks(a.calls, b.calls, if err.None? then Calls(op) else {}, Calls(op))
    && b.store == (if err.None? then Served(want, actual, a.store) else a.store)
    && b.managed == (if actual.Some? || err.None? then a.managed + {key} else a.managed)
    && (err.None? ==> possible) && (!faults.refusals && possible ==> err.None?)
    && (err.Some? ==> op.Some? && err.value == ServiceCall(Renamed(op.value, key)))
  }

  /** The three ways a service call can go. */
  lemma CreateCalled(key: ServiceKey, want: DesiredService, a: Situation, ok: bool, b: Situation, faults: Faults)
    requires b.calls == a.calls + [Call(CreateService(KeyOfService(want.service)), ok)]
    requires b.store == if ok then AddService(a.store, want.service) else a.store
    requires b.managed == if ok then a.managed + {key} else a.managed
    requires ok ==> KeyOfService(want.service) !in a.store.services
    requires !faults.refusals && KeyOfService(want.service) !in a.store.services ==> ok
    ensures ServiceCalled(key, want, None, a, if ok then None else Some(ServiceCall(CreateService(key))), b, faults)
  {
    TracksNothing(a.calls);
    TracksStep(a.calls, a.calls, {}, {}, Call(CreateService(KeyOfService(want.service)), ok));
  }

  lemma UpdateCalled(key: ServiceKey, want: DesiredService, found: Service, a: Situation, ok: bool, b: Situation,
    faults: Faults)
    requires found.schedName != want.service.schedName
    requires b.calls == a.calls + [Call(UpdateService(KeyOfService(want.service)), ok)]
    requires b.store == if ok then ReplaceService(a.store, want.service) else a.store
    requires b.managed == a.managed + {key}
    requires ok ==> KeyOfService(want.service) in a.store.services
    requires !faults.refusals && KeyOfService(want.service) in a.store.services ==> ok
    ensures ServiceCalled(key, want, Some(found), a, if ok then None else Some(ServiceCall(UpdateService(key))), b,
              faults)
  {
    TracksNothing(a.calls);
    TracksStep(a.calls, a.calls, {}, {}, Call(UpdateService(KeyOfService(want.service)), ok));
  }

  lemma NoneCalled(key: ServiceKey, want: DesiredService, found: Service, a: Situation, b: Situation, faults: Faults)
    requires found.schedName == want.service.schedName && b == a.(managed := a.managed + {key})
    ensures ServiceCalled(key, want, Some(found), a, None, b, faults)
  {
    TracksNothing(a.calls);
  }

  /**
   What reconcileDestinations does: if the destinations can be read every needed call is made, whatever fails on the
   way, and the failures are reported together.
   */
  ghost predicate DestinationsDiffed(want: DesiredService, a: Situation, work: DestWork, err: Option<ReconcileError>,
    b: Situation, faults: Faults)
  {
    var k := KeyOfService(want.service);
    && Tracks(a.calls, b.calls, work.done, work.tried) && b.managed == a.managed
    && if k !in a.store.dests || k in faults.unread then
         err == Some(DestinationsUnread(k)) && work == NO_DEST_WORK && b.store == a.store
       else
         && DestCalls(k, a.store.dests[k], Wanted(want), work, {})
         && b.store == DestTable(k, a.store, Wanted(want), work.done)
         && err == (if work.failed == [] then None else Some(DestinationCalls(k, work.failed)))
         && (!faults.refusals ==> work.failed == [])
  }

  /** The errors of a turn, and the service of which the destinations could not be read. */
  function Errors(err: Option<ReconcileError>): seq<ReconcileError> {
    if err.Some? then [err.value] else []
  }

  function Unread(err: Option<ReconcileError>): set<ServiceKey> {
    if err.Some? && err.value.DestinationsUnread? then {err.value.k} else {}
  }

  /** One turn: the service call, and unless it failed the destinations. */
  ghost predicate TurnBy(key: ServiceKey, want: DesiredService, actual: Option<Service>, a: Situation, work: Work,
    b: Situation, faults: Faults, mid: Situation, called: Option<ReconcileError>, dests: DestWork,
    err: Option<ReconcileError>)
  {
    var calls := Calls(CallFor(want, actual));
    && ServiceCalled(key, want, actual, a, called, mid, faults)
    && if called.Some? then b == mid && work == Work({}, calls, [called.value], {})
       else
         && DestinationsDiffed(want, mid, dests, err, b, faults)
         && work == Work(calls + dests.done, calls + dests.tried, Errors(err), Unread(err))
  }

  ghost predicate ServiceTurn(key: ServiceKey, want: DesiredService, actual: Option<Service>, a: Situation,
    work: Work, b: Situation, faults: Faults)
  {
    exists mid, called, dests, err :: TurnBy(key, want, actual, a, work, b, faults, mid, called, dests, err)
  }

  ghost predicate SameServiceAt(a: Services, b: Services, k: ServiceKey) {
    (k in a <==> k in b) && (k in a ==> a[k] == b[k])
  }

  /** The listing shows every desired service as the table has it. */
  ghost predicate ShowsAll(actual: Services, services: Services, want: Desired) {
    forall k | k in want :: SameServiceAt(actual, services, k)
  }

  /** The tables agree except perhaps at `key`. */
  ghost predicate OnlyAt(a: Store, b: Store, key: ServiceKey) {
    forall k | k != key :: SameAt(b, a, k)
  }

  function Found(actual: Services, key: ServiceKey): Option<Service> {
    if key in actual then Some(actual[key]) else None
  }

  /** The kernel reports the service under another key than the configuration files it under, and has it already. */
  ghost predicate Hidden(k: ServiceKey, w: DesiredService, services: Services) {
    k !in services && KeyOfService(w.service) in services
  }

  /** No service was removed, and none touched but the one the kernel reports under `kernelKey`. */
  ghost predicate Keeps(key: ServiceKey, kernelKey: ServiceKey, a: Situation, b: Situation) {
    && a.store.services.Keys <= b.store.services.Keys && OnlyAt(a.store, b.store, kernelKey)
    && a.managed <= b.managed <= a.managed + {key}
  }

  lemma KeepsTwice(key: ServiceKey, kernelKey: ServiceKey, a: Situation, b: Situation, c: Situation)
    requires Keeps(key, kernelKey, a, b) && Keeps(key, kernelKey, b, c)
    ensures Keeps(key, kernelKey, a, c)
  {
    forall k | k != kernelKey ensures SameAt(c.store, a.store, k) {
      assert SameAt(b.store, a.store, k) && SameAt(c.store, b.store, k);
    }
  }

  lemma CallTouches(key: ServiceKey, want: DesiredService, actual: Option<Service>, a: Situation,
    err: Option<ReconcileError>, b: Situation, faults: Faults)
    requires ServiceCalled(key, want, actual, a, err, b, faults)
    requires a.store.services.Keys == a.store.dests.Keys
    ensures Keeps(key, KeyOfService(want.service), a, b) && b.store.services.Keys == b.store.dests.Keys
    ensures actual.None? && KeyOfService(want.service) in a.store.services ==>
      err == Some(ServiceCall(CreateService(key))) && b.store == a.store && b.managed == a.managed
  {
  }

  lemma DestinationsTouch(key: ServiceKey, want: DesiredService, a: Situation, work: DestWork,
    err: Option<ReconcileError>, b: Situation, faults: Faults)
    requires DestinationsDiffed(want, a, work, err, b, faults)
    requires a.store.services.Keys == a.store.dests.Keys
    ensures Keeps(key, KeyOfService(want.service), a, b) && b.store.services.Keys == b.store.dests.Keys
    ensures err.None? ==> KeyOfService(want.service) in b.store.services
  {
  }

  /**
   Whatever the listing says, a turn touches no other service and removes none; if it records no error the service is
   in the table afterwards.  A hidden service makes its create call fail.
   */
  lemma TurnTouches(key: ServiceKey, want: DesiredService, actual: Option<Service>, a: Situation, work: Work,
    b: Situation, faults: Faults)
    requires ServiceTurn(key, want, actual, a, work, b, faults) && a.store.services.Keys == a.store.dests.Keys
    ensures Keeps(key, KeyOfService(want.service), a, b) && b.store.services.Keys == b.store.dests.Keys
    ensures work.errs == [] ==> KeyOfService(want.service) in b.store.services
    ensures actual.None? && KeyOfService(want.service) in a.store.services ==>
      work.errs == [ServiceCall(CreateService(key))] && b.store == a.store && b.managed == a.managed
  {
    var mid, called, dests, err :| TurnBy(key, want, actual, a, work, b, faults, mid, called, dests, err);
    CallTouches(key, want, actual, a, called, mid, faults);
    if called.None? {
      DestinationsTouch(key, want, mid, dests, err, b, faults);
      KeepsTwice(key, KeyOfService(want.service), a, mid, b);
    }
  }

  /** The destinations left unread are those that could not be read, of the services whose service call succeeded. */
  ghost predicate UnreadAre(s: Store, want: Desired, work: Work, faults: Faults) {
    forall k :: k in work.unread <==> k in faults.unread && Ready(k, s, want, work.done)
  }

  /** With a canonical host and a listing that shows the service as it is, a turn is a pass over this service. */
  lemma TurnIsPass(key: ServiceKey, want: DesiredService, a: Situation, work: Work, b: Situation, faults: Faults)
    requires WellFormed(a.store) && KeyOfService(want.service) == key
    requires ServiceTurn(key, want, Found(a.store.services, key), a, work, b, faults)
    ensures Tracks(a.calls, b.calls, work.done, work.tried) && PassEffect(a.store, {}, map[key := want], work, b.store)
    ensures b.managed ==
      if key in a.store.services || CreateService(key) in work.done then a.managed + {key} else a.managed
    ensures UnreadAre(a.store, map[key := want], work, faults)
    ensures faults.Absent() ==> work.errs == []
  {
    var actual := Found(a.store.services, key);
    var mid, called, dests, err :| TurnBy(key, want, actual, a, work, b, faults, mid, called, dests, err);
    if called.Some? {
      FailedTurn(key, want, a, work, b, faults, called);
    } else {
      ServedTurn(key, want, a, work, b, faults, mid, dests, err);
    }
  }

  lemma FailedTurn(key: ServiceKey, want: DesiredService, a: Situation, work: Work, b: Situation, faults: Faults,
    called: Option<ReconcileError>)
    requires WellFormed(a.store) && KeyOfService(want.service) == key && called.Some?
    requires ServiceCalled(key, want, Found(a.store.services, key), a, called, b, faults)
    requires work == Work({}, Calls(CallFor(want, Found(a.store.services, key))), [called.value], {})
    ensures PassEffect(a.store, {}, map[key := want], work, b.store)
    ensures UnreadAre(a.store, map[key := want], work, faults) && faults.refusals
    ensures b.managed == if key in a.store.services then a.managed + {key} else a.managed
  {
    CallsAgree(key, want, a.store);
    ServiceCallFailed(key, want, a.store, CallFor(want, Found(a.store.services, key)).value);
  }

  lemma ServedTurn(key: ServiceKey, want: DesiredService, a: Situation, work: Work, b: Situation, faults: Faults,
    mid: Situation, dests: DestWork, err: Option<ReconcileError>)
    requires WellFormed(a.store) && KeyOfService(want.service) == key
    requires TurnBy(key, want, Found(a.store.services, key), a, work, b, faults, mid, None, dests, err)
    ensures Tracks(a.calls, b.calls, work.done, work.tried) && PassEffect(a.store, {}, map[key := want], work, b.store)
    ensures UnreadAre(a.store, map[key := want], work, faults) && (faults.Absent() ==> work.errs == [])
    ensures b.managed == a.managed + {key} && (key !in a.store.services ==> CreateService(key) in work.done)
  {
    var calls := Calls(CallFor(want, Found(a.store.services, key)));
    CallsAgree(key, want, a.store);
    DestinationsPass(key, want, a.store, mid, dests, err, b, faults,
      Work(dests.done, dests.tried, Errors(err), Unread(err)), work);
    TracksCompose(a.calls, mid.calls, b.calls, calls, calls, dests.done, dests.tried);
  }

  lemma CallsAgree(key: ServiceKey, want: DesiredService, s: Store)
    requires KeyOfService(want.service) == key
    ensures Calls(CallFor(want, Found(s.services, key))) == ServiceCallsFor(key, want, s)
    ensures Served(want, Found(s.services, key), s) == AfterServiceCall(key, want, s)
  {
  }

  lemma DestinationsPass(key: ServiceKey, want: DesiredService, s: Store, mid: Situation, dests: DestWork,
    err: Option<ReconcileError>, b: Situation, faults: Faults, work: Work, all: Work)
    requires WellFormed(s) && KeyOfService(want.service) == key && mid.store == AfterServiceCall(key, want, s)
    requires DestinationsDiffed(want, mid, dests, err, b, faults)
    requires work == Work(dests.done, dests.tried, Errors(err), Unread(err)) && all == WithCalls(key, want, s, work)
    ensures ServiceCallsFor(key, want, s) !! dests.tried
    ensures PassEffect(s, {}, map[key := want], all, b.store) && UnreadAre(s, map[key := want], all, faults)
  {
    assert DestsAt(mid.store, key) == DestsAt(s, key);
    if key in faults.unread {
      DestOutcomeUntouched(key, DestsAt(s, key), Wanted(want), {});
      assert mid.store.dests[key := mid.store.dests[key]] == mid.store.dests;
    }
    DestinationsAccount(key, DestsAt(s, key), Wanted(want), dests, err, key in faults.unread);
    ServiceAndDestinations(key, want, s, mid.store, work, b.store);
    UnreadHere(key, want, s, err, key in faults.unread, all, faults);
  }

  lemma UnreadHere(k: ServiceKey, w: DesiredService, s: Store, err: Option<ReconcileError>, unread: bool, all: Work,
    faults: Faults)
    requires all.unread == Unread(err) && ServiceCallsFor(k, w, s) <= all.done && (unread <==> k in faults.unread)
    requires if unread then err == Some(DestinationsUnread(k)) else err.None? || !err.value.DestinationsUnread?
    ensures UnreadAre(s, map[k := w], all, faults)
  {
  }

  lemma DestinationsAccount(k: ServiceKey, cur: DestinationMap, want: DestinationMap, dests: DestWork,
    err: Option<ReconcileError>, unread: bool)
    requires unread ==> err == Some(DestinationsUnread(k)) && dests == NO_DEST_WORK
    requires !unread ==> DestCalls(k, cur, want, dests, {})
    requires !unread ==> err == if dests.failed == [] then None else Some(DestinationCalls(k, dests.failed))
    ensures DestinationsTried(k, cur, want, Work(dests.done, dests.tried, Errors(err), Unread(err)))
  {
    var work := Work(dests.done, dests.tried, Errors(err), Unread(err));
    forall op | DestNeeded(op, k, cur, want) && op !in work.done ensures Covered(op, work.errs) {
      assert !unread ==> op in dests.failed;
      assert err.value in work.errs && Covers(err.value, op);
    }
  }

  // ----- The whole service loop -----

  datatype Turn = Turn(key: ServiceKey, before: Situation, work: Work, after: Situation)

  function KeysOf(ts: seq<Turn>): (keys: set<ServiceKey>) {
    if ts == [] then {} else KeysOf(ts[..|ts| - 1]) + {ts[|ts| - 1].key}
  }

  function WorkOf(ts: seq<Turn>): Work {
    if ts == [] then NO_WORK else WorkOf(ts[..|ts| - 1]).Plus(ts[|ts| - 1].work)
  }

  /** The turns `ts` lead from one situation to the other, each for another desired key, under one listing. */
  ghost predicate Trail(ts: seq<Turn>, want: Desired, actual: Services, start: Situation, now: Situation,
    faults: Faults)
  {
    if ts == [] then now == start else
      var n := |ts| - 1;
      && ts[n].key in want && ts[n].key !in KeysOf(ts[..n]) && ts[n].after == now
      && ServiceTurn(ts[n].key, want[ts[n].key], Found(actual, ts[n].key), ts[n].before, ts[n].work, now, faults)
      && Trail(ts[..n], want, actual, start, ts[n].before, faults)
  }

  lemma TrailGrows(ts: seq<Turn>, t: Turn, want: Desired, actual: Services, start: Situation, faults: Faults)
    requires Trail(ts, want, actual, start, t.before, faults) && t.key in want && t.key !in KeysOf(ts)
    requires ServiceTurn(t.key, want[t.key], Found(actual, t.key), t.before, t.work, t.after, faults)
    ensures Trail(ts + [t], want, actual, start, t.after, faults)
    ensures KeysOf(ts + [t]) == KeysOf(ts) + {t.key} && WorkOf(ts + [t]) == WorkOf(ts).Plus(t.work)
  {
    assert (ts + [t])[..|ts|] == ts;
  }

  /** The service loop part-way, with the keys in `todo` still to be taken. */
  ghost predicate UnderWay(ts: seq<Turn>, want: Desired, actual: Services, start: Situation, now: Situation,
    todo: set<ServiceKey>, errs: seq<ReconcileError>, faults: Faults)
  {
    && todo <= want.Keys && (forall k :: k in KeysOf(ts) <==> k in want && k !in todo)
    && Trail(ts, want, actual, start, now, faults) && errs == WorkOf(ts).errs
  }

  lemma OneTaken(ts: seq<Turn>, t: Turn, want: Desired, actual: Services, start: Situation, todo: set<ServiceKey>,
    errs: seq<ReconcileError>, faults: Faults)
    requires UnderWay(ts, want, actual, start, t.before, todo, errs, faults) && t.key in todo
    requires ServiceTurn(t.key, want[t.key], Found(actual, t.key), t.before, t.work, t.after, faults)
    ensures UnderWay(ts + [t], want, actual, start, t.after, todo - {t.key}, errs + t.work.errs, faults)
  {
    TrailGrows(ts, t, want, actual, start, faults);
  }

  lemma AllTaken(ts: seq<Turn>, want: Desired, actual: Services, start: Situation, now: Situation,
    errs: seq<ReconcileError>, faults: Faults)
    requires UnderWay(ts, want, actual, start, now, {}, errs, faults)
    ensures Trail(ts, want, actual, start, now, faults) && KeysOf(ts) == want.Keys && errs == WorkOf(ts).errs
  {
  }

  /** Every service that the table hides from the loop has been reported. */
  ghost predicate HiddenReported(keys: set<ServiceKey>, want: Desired, services: Services, errs: seq<ReconcileError>) {
    forall k | k in want && k in keys && Hidden(k, want[k], services) :: ServiceCall(CreateService(k)) in errs
  }

  /** The kernel reports one of the services taken under `q`. */
  ghost predicate Taken(q: ServiceKey, want: Desired, keys: set<ServiceKey>) {
    exists k :: k in want && k in keys && KeyOfService(want[k].service) == q
  }

  /** A service in the table was there before or is one of those taken. */
  ghost predicate Explained(q: ServiceKey, before: Services, want: Desired, keys: set<ServiceKey>) {
    q in before || Taken(q, want, keys)
  }

  /** Only the services taken have been touched. */
  ghost predicate TouchedOnly(a: Store, b: Store, want: Desired, keys: set<ServiceKey>) {
    forall q :: Taken(q, want, keys) || SameAt(b, a, q)
  }

  ghost predicate Landed(keys: set<ServiceKey>, want: Desired, services: Services) {
    forall k | k in want && k in keys :: KeyOfService(want[k].service) in services
  }

  /**
   For any configuration: nothing is removed, nothing foreign is touched, and without errors every service is there.
   */
  lemma {:induction false} TrailTouches(ts: seq<Turn>, want: Desired, actual: Services, start: Situation,
    now: Situation, faults: Faults)
    requires Trail(ts, want, actual, start, now, faults) && start.store.services.Keys == start.store.dests.Keys
    requires ShowsAll(actual, start.store.services, want)
    ensures now.store.services.Keys == now.store.dests.Keys
    ensures start.store.services.Keys <= now.store.services.Keys && KeysOf(ts) <= want.Keys
    ensures start.managed <= now.managed <= start.managed + KeysOf(ts)
    ensures TouchedOnly(start.store, now.store, want, KeysOf(ts))
    ensures HiddenReported(KeysOf(ts), want, start.store.services, WorkOf(ts).errs)
    ensures WorkOf(ts).errs == [] ==> Landed(KeysOf(ts), want, now.store.services)
  {
    if ts != [] {
      var n := |ts| - 1;
      var t := ts[n];
      TrailTouches(ts[..n], want, actual, start, t.before, faults);
      TurnTouches(t.key, want[t.key], Found(actual, t.key), t.before, t.work, now, faults);
      assert SameServiceAt(actual, start.store.services, t.key);
      TouchedMore(start.store, t.before.store, now.store, want, KeysOf(ts[..n]), t.key);
    }
  }

  lemma TouchedMore(a: Store, b: Store, c: Store, want: Desired, keys: set<ServiceKey>, key: ServiceKey)
    requires TouchedOnly(a, b, want, keys) && key in want && OnlyAt(b, c, KeyOfService(want[key].service))
    ensures TouchedOnly(a, c, want, keys + {key})
  {
    forall q ensures Taken(q, want, keys + {key}) || SameAt(c, a, q) {
      if !Taken(q, want, keys) && q != KeyOfService(want[key].service) {
        assert SameAt(b, a, q) && SameAt(c, b, q);
      }
    }
  }

  /** Without errors no two of the services that the listing does not show share a kernel key. */
  lemma {:induction false} TrailCreatesOnce(ts: seq<Turn>, want: Desired, actual: Services, start: Situation,
    now: Situation, faults: Faults, k1: ServiceKey, k2: ServiceKey)
    requires Trail(ts, want, actual, start, now, faults) && ShowsAll(actual, start.store.services, want)
    requires start.store.services.Keys == start.store.dests.Keys
    requires WorkOf(ts).errs == [] && k1 in KeysOf(ts) && k2 in KeysOf(ts) && k1 != k2
    requires k1 !in actual && k2 !in actual
    ensures k1 in want && k2 in want && KeyOfService(want[k1].service) != KeyOfService(want[k2].service)
  {
    var n := |ts| - 1;
    var t := ts[n];
    TrailTouches(ts[..n], want, actual, start, t.before, faults);
    TurnTouches(t.key, want[t.key], Found(actual, t.key), t.before, t.work, now, faults);
    if t.key != k1 && t.key != k2 {
      TrailCreatesOnce(ts[..n], want, actual, start, t.before, faults, k1, k2);
    }
  }

  /** The same for a whole run. */
  lemma RunCreatesOnce(start: Situation, want: Desired, work: Work, end: Situation, faults: Faults, k1: ServiceKey,
    k2: ServiceKey)
    requires TableRun(start, want, work, end, faults) && work.errs == []
    requires start.store.services.Keys == start.store.dests.Keys
    requires k1 in want && k2 in want && k1 != k2 && k1 !in start.store.services && k2 !in start.store.services
    ensures KeyOfService(want[k1].service) != KeyOfService(want[k2].service)
  {
    var trail, mid, gone, errs :| RunBy(start, want, work, end, faults, trail, mid, gone, errs);
    var actual := Listing(start.store.services, start.managed, want);
    ListingShowsAll(actual, start.store.services, start.managed, want, actual.Keys - want.Keys);
    TrailCreatesOnce(trail, want, actual, start, mid, faults, k1, k2);
  }

  /** The services of the starting table stay while the loop runs. */
  lemma {:induction false} TrailKeeps(ts: seq<Turn>, want: Desired, actual: Services, start: Situation,
    now: Situation, faults: Faults)
    requires Trail(ts, want, actual, start, now, faults) && start.store.services.Keys == start.store.dests.Keys
    ensures start.store.services.Keys <= now.store.services.Keys && now.store.services.Keys == now.store.dests.Keys
  {
    if ts != [] {
      var t := ts[|ts| - 1];
      TrailKeeps(ts[..|ts| - 1], want, actual, start, t.before, faults);
      TurnTouches(t.key, want[t.key], Found(actual, t.key), t.before, t.work, now, faults);
    }
  }

  ghost function Restricted(want: Desired, keys: set<ServiceKey>): Desired {
    map k | k in want && k in keys :: want[k]
  }

  ghost function BroughtAbout(s: Store, want: Desired, done: set<Op>): set<ServiceKey> {
    set k | k in want && (k in s.services || CreateService(k) in done)
  }

  /** The service loop part-way, seen as a pass over the services taken. */
  ghost predicate LoopState(start: Situation, passed: Desired, work: Work, now: Situation, faults: Faults) {
    && Tracks(start.calls, now.calls, work.done, work.tried)
    && PassEffect(start.store, {}, passed, work, now.store)
    && now.managed == start.managed + BroughtAbout(start.store, passed, work.done)
    && UnreadAre(start.store, passed, work, faults)
  }

  lemma LoopStart(start: Situation, none: Desired, faults: Faults)
    requires WellFormed(start.store) && none == map[]
    ensures LoopState(start, none, NO_WORK, start, faults)
  {
    TracksNothing(start.calls);
    NothingDone(start.store, none);
  }

  /** The calls concern services of `keys` only. */
  ghost predicate Within(done: set<Op>, keys: set<ServiceKey>) {
    forall op | op in done :: op.k in keys
  }

  lemma BroughtAboutStep(s0: Store, want1: Desired, done1: set<Op>, s1: Store, key: ServiceKey, want: Desired,
    done2: set<Op>)
    requires key !in want1 && (key in s1.services <==> key in s0.services)
    requires want.Keys == want1.Keys + {key} && Within(done1, want1.Keys) && Within(done2, {key})
    ensures BroughtAbout(s0, want, done1 + done2) ==
      BroughtAbout(s0, want1, done1) + (if key in s1.services || CreateService(key) in done2 then {key} else {})
  {
  }

  /** Passing over one more service: the tables. */
  lemma PassStep(s0: Store, passed: Desired, work1: Work, s1: Store, key: ServiceKey, single: Desired, work2: Work,
    s2: Store, all: Desired)
    requires WellFormed(s0) && key !in passed && single.Keys == {key} && all == passed + single
    requires PassEffect(s0, {}, passed, work1, s1) && PassEffect(s1, {}, single, work2, s2)
    ensures PassEffect(s0, {}, all, work1.Plus(work2), s2) && work1.tried !! work2.tried && SameAt(s1, s0, key)
    ensures Within(work1.done, passed.Keys) && Within(work2.done, {key}) && all.Keys == passed.Keys + {key}
  {
    ComposeTo(s0, {}, passed, work1, s1, {}, single, work2, s2, {}, all);
    NotYet(s0, passed, work1, s1, key);
  }

  /** A service not passed over yet is as it was. */
  lemma NotYet(s0: Store, want1: Desired, work1: Work, s1: Store, key: ServiceKey)
    requires WellFormed(s0) && key !in want1 && PassEffect(s0, {}, want1, work1, s1)
    ensures SameAt(s1, s0, key)
  {
    OutcomeUntouched(s0, want1, work1.done, key);
  }

  /** Passing over one more service. */
  lemma LoopStep(start: Situation, passed: Desired, work1: Work, mid: Situation, key: ServiceKey, single: Desired,
    work2: Work, now: Situation, all: Desired, faults: Faults)
    requires WellFormed(start.store) && key !in passed && single.Keys == {key} && all == passed + single
    requires LoopState(start, passed, work1, mid, faults) && Tracks(mid.calls, now.calls, work2.done, work2.tried)
    requires PassEffect(mid.store, {}, single, work2, now.store) && UnreadAre(mid.store, single, work2, faults)
    requires now.managed ==
      if key in mid.store.services || CreateService(key) in work2.done then mid.managed + {key} else mid.managed
    ensures LoopState(start, all, work1.Plus(work2), now, faults)
  {
    PassStep(start.store, passed, work1, mid.store, key, single, work2, now.store, all);
    TracksCompose(start.calls, mid.calls, now.calls, work1.done, work1.tried, work2.done, work2.tried);
    ManagedStep(start, passed, work1.done, mid, key, all, work2.done, now);
    UnreadStep(start.store, passed, work1, mid.store, key, single, work2, all, faults);
  }

  lemma UnreadStep(s0: Store, passed: Desired, work1: Work, s1: Store, key: ServiceKey, single: Desired, work2: Work,
    all: Desired, faults: Faults)
    requires key !in passed && single.Keys == {key} && all == passed + single && SameAt(s1, s0, key)
    requires Within(work1.done, passed.Keys) && Within(work2.done, {key})
    requires UnreadAre(s0, passed, work1, faults) && UnreadAre(s1, single, work2, faults)
    ensures UnreadAre(s0, all, work1.Plus(work2), faults)
  {
    forall k
      ensures k in work1.Plus(work2).unread <==> k in faults.unread && Ready(k, s0, all, work1.Plus(work2).done)
    {
      if k == key {
        ReadyLocal(k, s1, single, work2.done, s0, all, work1.Plus(work2).done);
      } else {
        ReadyLocal(k, s0, passed, work1.done, s0, all, work1.Plus(work2).done);
      }
    }
  }

  lemma ManagedStep(start: Situation, passed: Desired, done1: set<Op>, mid: Situation, key: ServiceKey, all: Desired,
    done2: set<Op>, now: Situation)
    requires key !in passed && SameAt(mid.store, start.store, key) && all.Keys == passed.Keys + {key}
    requires Within(done1, passed.Keys) && Within(done2, {key})
    requires mid.managed == start.managed + BroughtAbout(start.store, passed, done1)
    requires now.managed ==
      if key in mid.store.services || CreateService(key) in done2 then mid.managed + {key} else mid.managed
    ensures now.managed == start.managed + BroughtAbout(start.store, all, done1 + done2)
  {
    BroughtAboutStep(start.store, passed, done1, mid.store, key, all, done2);
  }

  lemma OneMore(want: Desired, keys: set<ServiceKey>, key: ServiceKey, single: Desired)
    requires key in want && key !in keys && single == map[key := want[key]]
    ensures Restricted(want, keys + {key}) == Restricted(want, keys) + single && single.Keys == {key}
  {
  }

  /** With canonical listen hosts the turns are one pass over the services taken. */
  lemma {:induction false} TrailIsPass(ts: seq<Turn>, want: Desired, actual: Services, start: Situation,
    now: Situation, faults: Faults)
    requires WellFormed(start.store) && Canonical(want) && Trail(ts, want, actual, start, now, faults)
    requires ShowsAll(actual, start.store.services, want)
    ensures LoopState(start, Restricted(want, KeysOf(ts)), WorkOf(ts), now, faults) && WellFormed(now.store)
    ensures faults.Absent() ==> WorkOf(ts).errs == []
  {
    var passed := Restricted(want, KeysOf(ts));
    if ts == [] {
      LoopStart(start, passed, faults);
    } else {
      var n := |ts| - 1;
      var t := ts[n];
      TrailIsPass(ts[..n], want, actual, start, t.before, faults);
      TurnJoins(want, KeysOf(ts[..n]), actual, start, WorkOf(ts[..n]), t, faults);
      OutcomeWellFormed(start.store, passed, WorkOf(ts).done);
    }
  }

  lemma TurnJoins(want: Desired, keys: set<ServiceKey>, actual: Services, start: Situation, work: Work, t: Turn,
    faults: Faults)
    requires WellFormed(start.store) && WellFormed(t.before.store) && t.key in want && t.key !in keys
    requires KeyOfService(want[t.key].service) == t.key && SameServiceAt(actual, start.store.services, t.key)
    requires LoopState(start, Restricted(want, keys), work, t.before, faults)
    requires ServiceTurn(t.key, want[t.key], Found(actual, t.key), t.before, t.work, t.after, faults)
    ensures LoopState(start, Restricted(want, keys + {t.key}), work.Plus(t.work), t.after, faults)
    ensures faults.Absent() ==> t.work.errs == []
  {
    var single := map[t.key := want[t.key]];
    OneMore(want, keys, t.key, single);
    NotYet(start.store, Restricted(want, keys), work, t.before.store, t.key);
    TurnIsPass(t.key, want[t.key], t.before, t.work, t.after, faults);
    LoopStep(start, Restricted(want, keys), work, t.before, t.key, single, t.work, t.after,
      Restricted(want, keys + {t.key}), faults);
  }

  // ----- Deletions -----

  ghost function Deletes(keys: set<ServiceKey>): (ops: set<Op>)
    ensures forall op :: op in ops <==> op.DeleteService? && op.k in keys
  {
    set k | k in keys :: DeleteService(k)
  }

  /** The calls of a loop of deletions. */
  ghost function DeletionWork(gone: set<ServiceKey>, stale: set<ServiceKey>, errs: seq<ReconcileError>): Work {
    Work(Deletes(gone), Deletes(stale), errs, {})
  }

  ghost function Without(s: Store, gone: set<ServiceKey>): Store {
    Store(s.services - gone, s.dests - gone)
  }

  /**
   What a loop of deletions leads to: the services in `gone` of those in `stale` were deleted, the others reported.
   */
  ghost predicate Deleted(a: View, stale: set<ServiceKey>, gone: set<ServiceKey>, errs: seq<ReconcileError>, b: View,
    faults: Faults)
  {
    && gone <= stale && (!faults.refusals ==> gone == stale && errs == [])
    && b.store == Without(a.store, gone)
    && Tracks(a.calls, b.calls, Deletes(gone), Deletes(stale))
    && Reported(stale, gone, errs)
  }

  ghost predicate Reported(stale: set<ServiceKey>, gone: set<ServiceKey>, errs: seq<ReconcileError>) {
    && (forall k | k in stale && k !in gone :: ServiceCall(DeleteService(k)) in errs)
    && (forall e | e in errs ::
          e.ServiceCall? && e.op.DeleteService? && e.op.k in stale && e.op.k !in gone)
    && NoRepeats(errs)
  }

  lemma NothingDeleted(a: View, none: set<ServiceKey>, faults: Faults)
    requires none == {}
    ensures Deleted(a, none, none, [], a, faults)
  {
    TracksNothing(a.calls);
    assert Deletes(none) == {};
    assert Without(a.store, none) == a.store;
  }

  lemma DeletedStep(a: View, stale: set<ServiceKey>, gone: set<ServiceKey>, errs: seq<ReconcileError>, b: View,
    faults: Faults, key: ServiceKey, ok: bool, c: View)
    requires Deleted(a, stale, gone, errs, b, faults) && key !in stale && (!faults.refusals ==> ok)
    requires c.store == (if ok then DropService(b.store, key) else b.store)
    requires c.calls == b.calls + [Call(DeleteService(key), ok)]
    ensures Deleted(a, stale + {key}, if ok then gone + {key} else gone,
              if ok then errs else errs + [ServiceCall(DeleteService(key))], c, faults)
  {
    TracksStep(a.calls, b.calls, Deletes(gone), Deletes(stale), Call(DeleteService(key), ok));
    DeletesMore(stale, key);
    DeletesMore(gone, key);
    WithoutMore(a.store, gone, key);
    StillReported(stale, gone, errs, key, ok);
  }

  lemma DeletesMore(keys: set<ServiceKey>, key: ServiceKey)
    ensures Deletes(keys + {key}) == Deletes(keys) + {DeleteService(key)}
  {
  }

  lemma StillReported(stale: set<ServiceKey>, gone: set<ServiceKey>, errs: seq<ReconcileError>, key: ServiceKey,
    ok: bool)
    requires Reported(stale, gone, errs) && key !in stale && key !in gone
    ensures Reported(stale + {key}, if ok then gone + {key} else gone,
              if ok then errs else errs + [ServiceCall(DeleteService(key))])
  {
  }

  lemma WithoutMore(s: Store, gone: set<ServiceKey>, key: ServiceKey)
    ensures DropService(Without(s, gone), key) == Without(s, gone + {key})
  {
    assert s.services - gone - {key} == s.services - (gone + {key});
    assert s.dests - gone - {key} == s.dests - (gone + {key});
  }

  /** Deletions are a pass that has nothing to bring about. */
  lemma DeletionsArePass(a: View, stale: set<ServiceKey>, gone: set<ServiceKey>, errs: seq<ReconcileError>, b: View,
    faults: Faults, none: Desired, work: Work)
    requires a.store.services.Keys == a.store.dests.Keys && stale <= a.store.services.Keys && none == map[]
    requires Deleted(a, stale, gone, errs, b, faults) && work == DeletionWork(gone, stale, errs)
    ensures PassEffect(a.store, stale, none, work, b.store)
  {
    DeletionsOutcome(a.store, gone, none, work.done);
    DeletionsTried(a.store, stale, gone, errs, none, work);
    DeletionsAccount(a.store, stale, gone, errs, none, work);
  }

  lemma DeletionsTried(s: Store, stale: set<ServiceKey>, gone: set<ServiceKey>, errs: seq<ReconcileError>,
    none: Desired, work: Work)
    requires none == map[] && stale <= s.services.Keys && gone <= stale && work == DeletionWork(gone, stale, errs)
    ensures forall op :: op in work.tried <==> Needed(op, s, stale, none) && Reached(op, s, none, work)
    ensures work.done <= work.tried && Feasible(s, stale, none, work.done)
  {
  }

  lemma DeletionsOutcome(s: Store, gone: set<ServiceKey>, none: Desired, done: set<Op>)
    requires s.services.Keys == s.dests.Keys && gone <= s.services.Keys && none == map[] && done == Deletes(gone)
    ensures Outcome(s, none, done) == Without(s, gone)
  {
    forall k ensures SameAt(Outcome(s, none, done), Without(s, gone), k) {
      if k !in gone {
        OutcomeUntouched(s, none, done, k);
      }
    }
    StoresEqual(Outcome(s, none, done), Without(s, gone));
  }

  lemma DeletionsAccount(s: Store, stale: set<ServiceKey>, gone: set<ServiceKey>, errs: seq<ReconcileError>,
    none: Desired, work: Work)
    requires none == map[] && stale <= s.services.Keys && gone <= stale && Reported(stale, gone, errs)
    requires work == DeletionWork(gone, stale, errs)
    ensures Accounts(s, stale, none, work)
  {
    forall op | Needed(op, s, stale, none) && op !in work.done ensures Covered(op, errs) {
      assert op.k in stale && op.k !in gone && op == DeleteService(op.k);
      assert ServiceCall(op) in errs && Covers(ServiceCall(op), op);
    }
  }

  // ----- Both loops -----

  /** The two service loops together are a pass over the desired and the stale services: calls and tables. */
  lemma LoopsArePass(start: View, managed: set<ServiceKey>, want: Desired, work: Work, mid: View,
    stale: set<ServiceKey>, gone: set<ServiceKey>, errs: seq<ReconcileError>, end: View, faults: Faults, more: Work,
    all: Work)
    requires WellFormed(start.store) && WellFormed(mid.store) && stale <= mid.store.services.Keys
    requires Tracks(start.calls, mid.calls, work.done, work.tried)
    requires PassEffect(start.store, {}, want, work, mid.store) && Deleted(mid, stale, gone, errs, end, faults)
    requires stale == set k | k in managed && k in start.store.services && k !in want
    requires more == DeletionWork(gone, stale, errs) && all == work.Plus(more)
    ensures Tracks(start.calls, end.calls, all.done, all.tried)
    ensures PassEffect(start.store, managed, want, all, end.store)
  {
    LoopsJoin(start.store, managed, want, work, mid, stale, gone, errs, end, faults, more, all);
    TracksCompose(start.calls, mid.calls, end.calls, work.done, work.tried, more.done, more.tried);
  }

  /** Deletions change nothing for the desired services. */
  lemma DeletionsKeep(s: Store, managed0: set<ServiceKey>, want: Desired, work: Work, managed1: set<ServiceKey>,
    gone: set<ServiceKey>, all: Work, managed2: set<ServiceKey>, faults: Faults)
    requires gone !! want.Keys && forall op | op in work.done :: op.k in want && !op.DeleteService?
    requires managed1 == managed0 + BroughtAbout(s, want, work.done) && managed2 == managed1 - gone
    requires all.done == work.done + Deletes(gone) && all.unread == work.unread && UnreadAre(s, want, work, faults)
    ensures managed2 == ManagedAfter(s, managed0, want, all.done) && UnreadAre(s, want, all, faults)
  {
    ManagedByBoth(s, managed0, want, work.done, gone);
  }

  lemma LoopsJoin(s: Store, managed: set<ServiceKey>, want: Desired, work: Work, mid: View, stale: set<ServiceKey>,
    gone: set<ServiceKey>, errs: seq<ReconcileError>, end: View, faults: Faults, more: Work, all: Work)
    requires WellFormed(s) && WellFormed(mid.store) && stale <= mid.store.services.Keys
    requires PassEffect(s, {}, want, work, mid.store) && Deleted(mid, stale, gone, errs, end, faults)
    requires stale == set k | k in managed && k in s.services && k !in want
    requires more == DeletionWork(gone, stale, errs) && all == work.Plus(more)
    ensures PassEffect(s, managed, want, all, end.store) && work.tried !! more.tried
    ensures forall op | op in work.done :: op.k in want && !op.DeleteService?
  {
    var none: Desired := map[];
    DeletionsArePass(mid, stale, gone, errs, end, faults, none, more);
    JoinPasses(s, managed, want, work, mid.store, stale, more, end.store, none, all);
  }

  lemma JoinPasses(s0: Store, managed: set<ServiceKey>, want: Desired, work: Work, s1: Store, stale: set<ServiceKey>,
    more: Work, s2: Store, none: Desired, all: Work)
    requires WellFormed(s0) && none == map[] && all == work.Plus(more)
    requires PassEffect(s0, {}, want, work, s1) && PassEffect(s1, stale, none, more, s2)
    requires stale == set k | k in managed && k in s0.services && k !in want
    ensures PassEffect(s0, managed, want, all, s2) && work.tried !! more.tried
    ensures forall op | op in work.done :: op.k in want && !op.DeleteService?
  {
    BringsAboutOnly(s0, want, work, s1);
    NothingMore(want, none, stale);
    ComposeTo(s0, {}, want, work, s1, stale, none, more, s2, stale, want);
    StaleAreManaged(s0, managed, stale, want, all, s2);
  }

  lemma NothingMore(want: Desired, none: Desired, stale: set<ServiceKey>)
    requires none == map[] && stale !! want.Keys
    ensures want == want + none && stale == {} + stale && Disjoint({}, want, stale, none)
  {
  }

  lemma BringsAboutOnly(s0: Store, want: Desired, work: Work, s1: Store)
    requires PassEffect(s0, {}, want, work, s1)
    ensures forall op | op in work.done :: op.k in want && !op.DeleteService?
  {
  }

  lemma ManagedByBoth(s: Store, managed: set<ServiceKey>, want: Desired, done: set<Op>, gone: set<ServiceKey>)
    requires gone !! want.Keys && forall op | op in done :: op.k in want && !op.DeleteService?
    ensures ManagedAfter(s, managed, want, done + Deletes(gone)) == managed + BroughtAbout(s, want, done) - gone
  {
  }

  /** The loop of Cleanup is a pass with nothing desired over the managed services, which also forgets absent ones. */
  lemma CleanupIsPass(start: View, managed0: set<ServiceKey>, stale: set<ServiceKey>, gone: set<ServiceKey>,
    errs: seq<ReconcileError>, end: View, managed: set<ServiceKey>, faults: Faults)
    requires WellFormed(start.store) && Deleted(start, stale, gone, errs, end, faults)
    requires stale == managed0 * start.store.services.Keys && managed == stale - gone
    ensures CleanupEffect(start.store, managed0, DeletionWork(gone, stale, errs), end.store, managed)
  {
    var none: Desired, work := map[], DeletionWork(gone, stale, errs);
    DeletionsArePass(start, stale, gone, errs, end, faults, none, work);
    StaleAreManaged(start.store, managed0, stale, none, work, end.store);
    CleanupByPass(start.store, managed0, none, work, end.store, managed);
  }

  // ----- Settled tables -----

  /** Tables hold services only under keys that the kernel prints for them. */
  ghost predicate AsPrinted(want: Desired, services: Services) {
    forall k | k in want && k in services :: KeyOfService(want[k].service) == k
  }

  /** The table holds every desired service under the key the kernel reports, and under no other spelling. */
  ghost predicate Settled(want: Desired, services: Services) {
    AsPrinted(want, services) && Landed(want.Keys, want, services)
  }

  /** A key printed by the kernel for one desired service is not read differently for another. */
  ghost predicate PrintedKeysStand(want: Desired) {
    forall k, k' | k in want && k' in want && KeyOfService(want[k'].service) == k :: KeyOfService(want[k].service) == k
  }

  /** An error-free run leaves a settled table: nothing was hidden, so nothing just brought about was stale. */
  lemma SettlesTable(want: Desired, before: Services, mid: Services, after: Services, stale: set<ServiceKey>,
    errs: seq<ReconcileError>)
    requires errs == [] && HiddenReported(want.Keys, want, before, errs) && Landed(want.Keys, want, mid)
    requires AsPrinted(want, before) && PrintedKeysStand(want)
    requires forall q | q in mid :: Explained(q, before, want, want.Keys)
    requires stale <= before.Keys - want.Keys && after.Keys <= mid.Keys && mid.Keys - stale <= after.Keys
    ensures Settled(want, after)
  {
    forall k | k in want && k in after ensures KeyOfService(want[k].service) == k {
      assert Explained(k, before, want, want.Keys);
    }
    forall k | k in want ensures KeyOfService(want[k].service) in after {
      assert !Hidden(k, want[k], before);
    }
  }

  lemma RestrictedToAll(want: Desired, keys: set<ServiceKey>)
    requires keys == want.Keys
    ensures Restricted(want, keys) == want
  {
  }

  /** The difference was worked off, up to the calls that failed. */
  ghost predicate WorkedOff(start: Situation, want: Desired, work: Work, end: Situation, faults: Faults) {
    && Tracks(start.calls, end.calls, work.done, work.tried)
    && ReconcileEffect(start.store, start.managed, want, work, end.store, end.managed)
    && UnreadAre(start.store, want, work, faults)
    && (faults.Absent() ==> work.errs == [])
  }

  /** The loop of turns worked off the services, and then the stale ones were deleted. */
  lemma LoopsWorkedOff(start: Situation, want: Desired, work: Work, mid: Situation, stale: set<ServiceKey>,
    gone: set<ServiceKey>, errs: seq<ReconcileError>, end: Situation, faults: Faults, more: Work, all: Work)
    requires WellFormed(start.store) && WellFormed(mid.store) && stale <= mid.store.services.Keys
    requires LoopState(start, want, work, mid, faults) && Deleted(mid.Seen(), stale, gone, errs, end.Seen(), faults)
    requires stale == set k | k in start.managed && k in start.store.services && k !in want
    requires end.managed == mid.managed - gone && more == DeletionWork(gone, stale, errs) && all == work.Plus(more)
    requires faults.Absent() ==> work.errs == []
    ensures WorkedOff(start, want, all, end, faults)
  {
    LoopsArePass(start.Seen(), start.managed, want, work, mid.Seen(), stale, gone, errs, end.Seen(), faults, more, all);
    BringsAboutOnly(start.store, want, work, mid.store);
    DeletionsKeep(start.store, start.managed, want, work, mid.managed, gone, all, end.managed, faults);
  }

  /** Both loops, when the listen hosts are canonical. */
  lemma CanonicalTable(want: Desired, actual: Services, start: Situation, trail: seq<Turn>, mid: Situation,
    stale: set<ServiceKey>, gone: set<ServiceKey>, errs: seq<ReconcileError>, end: Situation, faults: Faults, all: Work)
    requires WellFormed(start.store) && Canonical(want) && ShowsAll(actual, start.store.services, want)
    requires Trail(trail, want, actual, start, mid, faults) && KeysOf(trail) == want.Keys
    requires stale == set k | k in start.managed && k in start.store.services && k !in want
    requires Deleted(mid.Seen(), stale, gone, errs, end.Seen(), faults) && end.managed == mid.managed - gone
    requires start.store.services.Keys <= mid.store.services.Keys
    requires all == WorkOf(trail).Plus(DeletionWork(gone, stale, errs))
    ensures WorkedOff(start, want, all, end, faults)
  {
    TrailIsPass(trail, want, actual, start, mid, faults);
    RestrictedToAll(want, KeysOf(trail));
    LoopsWorkedOff(start, want, WorkOf(trail), mid, stale, gone, errs, end, faults,
      DeletionWork(gone, stale, errs), all);
  }

  /** The kernel reports a desired service under `k`, or `k` is managed and no longer desired. */
  ghost predicate Concerned(k: ServiceKey, start: Situation, want: Desired) {
    Taken(k, want, want.Keys) || (k in start.managed && k !in want)
  }

  /** Services leave the table only if managed and not desired, and only what is desired or managed is touched. */
  ghost predicate Confined(start: Situation, want: Desired, end: Situation) {
    && end.managed <= start.managed + want.Keys
    && (forall k | k in start.managed && k !in end.managed :: k in start.store.services && k !in end.store.services)
    && (forall k | k in start.store.services && k !in end.store.services :: k in start.managed && k !in want)
    && (forall k :: SameAt(end.store, start.store, k) || Concerned(k, start, want))
  }

  lemma ConfinedByLoops(start: Situation, want: Desired, mid: Situation, stale: set<ServiceKey>,
    gone: set<ServiceKey>, end: Situation)
    requires stale == set k | k in start.managed && k in start.store.services && k !in want
    requires start.store.services.Keys <= mid.store.services.Keys
    requires start.managed <= mid.managed <= start.managed + want.Keys
    requires TouchedOnly(start.store, mid.store, want, want.Keys)
    requires gone <= stale && end.store == Without(mid.store, gone) && end.managed == mid.managed - gone
    ensures Confined(start, want, end)
  {
    forall k ensures SameAt(end.store, start.store, k) || Concerned(k, start, want) {
      if k !in gone {
        assert SameAt(end.store, mid.store, k);
      }
    }
  }

  /** Both loops, whatever the listen hosts are written like. */
  lemma AnyTable(want: Desired, actual: Services, start: Situation, trail: seq<Turn>, mid: Situation,
    stale: set<ServiceKey>, gone: set<ServiceKey>, errs: seq<ReconcileError>, end: Situation, faults: Faults)
    requires ShowsAll(actual, start.store.services, want) && start.store.services.Keys == start.store.dests.Keys
    requires Trail(trail, want, actual, start, mid, faults) && KeysOf(trail) == want.Keys
    requires stale == set k | k in start.managed && k in start.store.services && k !in want
    requires Deleted(mid.Seen(), stale, gone, errs, end.Seen(), faults) && end.managed == mid.managed - gone
    ensures HiddenReported(want.Keys, want, start.store.services, WorkOf(trail).errs + errs)
    ensures Confined(start, want, end)
    ensures WorkOf(trail).errs == [] && AsPrinted(want, start.store.services) && PrintedKeysStand(want) ==>
      Settled(want, end.store.services)
  {
    TrailTouches(trail, want, actual, start, mid, faults);
    ConfinedByLoops(start, want, mid, stale, gone, end);
    if WorkOf(trail).errs == [] && AsPrinted(want, start.store.services) && PrintedKeysStand(want) {
      forall q | q in mid.store.services ensures Explained(q, start.store.services, want, want.Keys) {
        assert Taken(q, want, want.Keys) || SameAt(mid.store, start.store, q);
      }
      SettlesTable(want, start.store.services, mid.store.services, end.store.services, stale, WorkOf(trail).errs);
    }
  }

  ghost function Listing(services: Services, managed: set<ServiceKey>, want: Desired): Services {
    map k | k in services && (k in managed || k in want) :: services[k]
  }

  ghost predicate RunBy(start: Situation, want: Desired, work: Work, end: Situation, faults: Faults, trail: seq<Turn>,
    mid: Situation, gone: set<ServiceKey>, errs: seq<ReconcileError>)
  {
    var actual := Listing(start.store.services, start.managed, want);
    var stale := actual.Keys - want.Keys;
    && Trail(trail, want, actual, start, mid, faults) && KeysOf(trail) == want.Keys
    && Deleted(mid.Seen(), stale, gone, errs, end.Seen(), faults) && end.managed == mid.managed - gone
    && work == WorkOf(trail).Plus(DeletionWork(gone, stale, errs))
  }

  /** Phases 3 and 4 of Reconcile: a turn for each desired service, in some order, then the deletions. */
  ghost predicate TableRun(start: Situation, want: Desired, work: Work, end: Situation, faults: Faults) {
    exists trail, mid, gone, errs :: RunBy(start, want, work, end, faults, trail, mid, gone, errs)
  }

  /**
   What such a run achieves.  With canonical hosts it works off the difference, without errors unless calls are
   refused.  In any case it stays within what is desired or managed, services hidden by another spelling are
   reported, and a run without errors leaves a settled table.  On a settled table, success and canonical hosts are
   the same thing.
   */
  ghost predicate TableReport(start: Situation, want: Desired, work: Work, end: Situation, faults: Faults) {
    && (Canonical(want) ==> WorkedOff(start, want, work, end, faults))
    && Confined(start, want, end)
    && HiddenReported(want.Keys, want, start.store.services, work.errs)
    && (work.errs == [] && AsPrinted(want, start.store.services) && PrintedKeysStand(want) ==>
          Settled(want, end.store.services))
    && (faults.Absent() && Settled(want, start.store.services) ==> (work.errs == [] <==> Canonical(want)))
  }

  /** On a settled table every service with another spelling is hidden. */
  lemma SettledHides(want: Desired, services: Services, errs: seq<ReconcileError>)
    requires Settled(want, services) && HiddenReported(want.Keys, want, services, errs) && errs == []
    ensures Canonical(want)
  {
    forall k | k in want ensures KeyOfService(want[k].service) == k {
      assert !Hidden(k, want[k], services);
    }
  }

  /**
   For every desired service whose service call succeeded, or that needed none, and whose destinations can be read,
   every needed destination call was made.
   */
  ghost predicate NeededDestinationsTried(s: Store, want: Desired, work: Work, faults: Faults) {
    forall op: Op | op.k in want && op.k !in faults.unread && ServiceServed(op.k, s, want, work) ::
      DestNeeded(op, op.k, DestsAt(s, op.k), Wanted(want[op.k])) ==> op in work.tried
  }

  ghost predicate ServiceServed(k: ServiceKey, s: Store, want: Desired, work: Work)
    requires k in want
  {
    if k !in s.services then CreateService(k) in work.done
    else s.services[k].schedName != want[k].service.schedName ==> UpdateService(k) in work.done
  }

  lemma TableReported(start: Situation, want: Desired, work: Work, end: Situation, faults: Faults)
    requires WellFormed(start.store) && TableRun(start, want, work, end, faults)
    ensures TableReport(start, want, work, end, faults)
    ensures Canonical(want) ==> NeededDestinationsTried(start.store, want, work, faults)
  {
    var trail, mid, gone, errs :| RunBy(start, want, work, end, faults, trail, mid, gone, errs);
    RunReported(start, want, work, end, faults, trail, mid, gone, errs);
    if work.errs == [] && Settled(want, start.store.services) {
      SettledHides(want, start.store.services, work.errs);
    }
    if Canonical(want) {
      DestinationsAllTried(start.store, start.managed, want, work, end.store, faults);
    }
  }

  lemma DestinationsAllTried(s: Store, managed: set<ServiceKey>, want: Desired, work: Work, s': Store, faults: Faults)
    requires s.services.Keys == s.dests.Keys && PassEffect(s, managed, want, work, s')
    requires UnreadAre(s, want, work, faults)
    ensures NeededDestinationsTried(s, want, work, faults)
  {
    forall op: Op | op.k in want && op.k !in faults.unread && ServiceServed(op.k, s, want, work)
      ensures DestNeeded(op, op.k, DestsAt(s, op.k), Wanted(want[op.k])) ==> op in work.tried
    {
      DestinationTried(op, s, managed, want, work, faults);
    }
  }

  lemma DestinationTried(op: Op, s: Store, managed: set<ServiceKey>, want: Desired, work: Work, faults: Faults)
    requires s.services.Keys == s.dests.Keys && op.k in want && op.k !in faults.unread
    requires ServiceServed(op.k, s, want, work) && UnreadAre(s, want, work, faults)
    requires Needed(op, s, managed, want) && Reached(op, s, want, work) ==> op in work.tried
    ensures DestNeeded(op, op.k, DestsAt(s, op.k), Wanted(want[op.k])) ==> op in work.tried
  {
  }

  lemma RunReported(start: Situation, want: Desired, work: Work, end: Situation, faults: Faults, trail: seq<Turn>,
    mid: Situation, gone: set<ServiceKey>, errs: seq<ReconcileError>)
    requires WellFormed(start.store) && RunBy(start, want, work, end, faults, trail, mid, gone, errs)
    ensures Canonical(want) ==> WorkedOff(start, want, work, end, faults)
    ensures Confined(start, want, end)
    ensures HiddenReported(want.Keys, want, start.store.services, work.errs)
    ensures work.errs == [] && AsPrinted(want, start.store.services) && PrintedKeysStand(want) ==>
      Settled(want, end.store.services)
  {
    var actual := Listing(start.store.services, start.managed, want);
    var stale := actual.Keys - want.Keys;
    ListingShowsAll(actual, start.store.services, start.managed, want, stale);
    TrailKeeps(trail, want, actual, start, mid, faults);
    AnyTable(want, actual, start, trail, mid, stale, gone, errs, end, faults);
    if Canonical(want) {
      CanonicalTable(want, actual, start, trail, mid, stale, gone, errs, end, faults, work);
    }
  }

  lemma ListingShowsAll(actual: Services, services: Services, managed: set<ServiceKey>, want: Desired,
    stale: set<ServiceKey>)
    requires actual == Listing(services, managed, want) && stale == actual.Keys - want.Keys
    ensures ShowsAll(actual, services, want) && stale <= services.Keys - want.Keys
    ensures stale == set k | k in managed && k in services && k !in want
  {
  }

  // ----- The sets the deletion loops run over -----

  /** Of the services listed all but those in `todo` have been looked at; `stale` are the ones not desired. */
  ghost predicate LookedAt(all: set<ServiceKey>, todo: set<ServiceKey>, desired: set<ServiceKey>,
    stale: set<ServiceKey>)
  {
    todo <= all && forall k :: k in stale <==> k in all && k !in todo && k !in desired
  }

  lemma LookedAtStep(all: set<ServiceKey>, todo: set<ServiceKey>, desired: set<ServiceKey>, stale: set<ServiceKey>,
    key: ServiceKey, rest: set<ServiceKey>)
    requires LookedAt(all, todo, desired, stale) && key in todo && rest == todo - {key}
    ensures key !in stale
    ensures if key in desired then LookedAt(all, rest, desired, stale) else LookedAt(all, rest, desired, stale + {key})
  {
  }

  lemma LookedAtAll(all: set<ServiceKey>, desired: set<ServiceKey>, stale: set<ServiceKey>)
    requires LookedAt(all, {}, desired, stale)
    ensures stale == all - desired
  {
  }

  /** The managed services when those in `gone`, and in Cleanup also those found absent, have been forgotten. */
  ghost predicate Forgot(managed0: set<ServiceKey>, gone: set<ServiceKey>, absent: set<ServiceKey>,
    managed: set<ServiceKey>)
  {
    forall k :: k in managed <==> k in managed0 && k !in gone && k !in absent
  }

  lemma ForgotStep(managed0: set<ServiceKey>, gone: set<ServiceKey>, absent: set<ServiceKey>,
    managed: set<ServiceKey>, key: ServiceKey)
    requires Forgot(managed0, gone, absent, managed)
    ensures Forgot(managed0, gone + {key}, absent, managed - {key})
    ensures Forgot(managed0, gone, absent + {key}, managed - {key})
  {
  }

  /** In Cleanup the services looked at are stale if they are present, and absent otherwise. */
  lemma CleanupSplits(managed0: set<ServiceKey>, present: set<ServiceKey>, stale: set<ServiceKey>,
    gone: set<ServiceKey>, absent: set<ServiceKey>, managed: set<ServiceKey>)
    requires forall k :: k in stale <==> k in managed0 && k in present
    requires forall k :: k in absent <==> k in managed0 && k !in present
    requires Forgot(managed0, gone, absent, managed) && gone <= stale
    ensures stale == managed0 * present && managed == stale - gone
  {
  }

  ghost predicate Sorted(managed0: set<ServiceKey>, todo: set<ServiceKey>, present: set<ServiceKey>,
    stale: set<ServiceKey>, absent: set<ServiceKey>)
  {
    && (forall k :: k in stale <==> k in managed0 && k !in todo && k in present)
    && (forall k :: k in absent <==> k in managed0 && k !in todo && k !in present)
  }

  lemma SortedStep(managed0: set<ServiceKey>, todo: set<ServiceKey>, present: set<ServiceKey>, stale: set<ServiceKey>,
    absent: set<ServiceKey>, key: ServiceKey, rest: set<ServiceKey>)
    requires Sorted(managed0, todo, present, stale, absent) && key in todo && key in managed0 && rest == todo - {key}
    ensures key !in stale
    ensures if key in present then Sorted(managed0, rest, present, stale + {key}, absent)
            else Sorted(managed0, rest, present, stale, absent + {key})
  {
  }
}
