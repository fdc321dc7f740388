/**
 One service as a pass: the service call, then the destination diff (the loop body of Reconcile in
 pkg/lvs/reconciler.go).
 */
module ServicePass {
  import opened LvsTypes
  import opened Diff
  import opened Pass
  import opened FakeHandle
  import opened DestinationDiff

  /** The service call, if any, that `k` needs. */
  ghost function ServiceCallsFor(k: ServiceKey, w: DesiredService, s: Store): set<Op> {
    if k !in s.services then {CreateService(k)}
    else if s.services[k].schedName != w.service.schedName then {UpdateService(k)}
    else {}
  }

  ghost function AfterServiceCall(k: ServiceKey, w: DesiredService, s: Store): Store {
    if k !in s.services then AddService(s, w.service)
    else if s.services[k].schedName != w.service.schedName then ReplaceService(s, w.service)
    else s
  }

  lemma NothingDone(s: Store, want: Desired)
    requires s.services.Keys == s.dests.Keys
    ensures Outcome(s, want, {}) == s
  {
    forall k ensures SameAt(Outcome(s, want, {}), s, k) {
      OutcomeUntouched(s, want, {}, k);
    }
    StoresEqual(Outcome(s, want, {}), s);
  }

  lemma NeededHere(k: ServiceKey, w: DesiredService, s: Store, op: Op)
    requires s.services.Keys == s.dests.Keys
    ensures Needed(op, s, {}, map[k := w]) <==>
      op in ServiceCallsFor(k, w, s) || DestNeeded(op, k, DestsAt(s, k), Wanted(w))
  {
  }

  /** The service call failed: nothing else is tried, and its error accounts for everything that was needed. */
  lemma ServiceCallFailed(k: ServiceKey, w: DesiredService, s: Store, op: Op)
    requires s.services.Keys == s.dests.Keys && op in ServiceCallsFor(k, w, s)
    ensures PassEffect(s, {}, map[k := w], OneCall(op, false), s)
  {
    var want, work := map[k := w], OneCall(op, false);
    NothingDone(s, want);
    forall o | Needed(o, s, {}, want) ensures Covered(o, work.errs) {
      NeededHere(k, w, s, o);
      assert ServiceCall(op) in work.errs && Covers(ServiceCall(op), o);
    }
    forall o ensures o in work.tried <==> Needed(o, s, {}, want) && Reached(o, s, want, work) {
      NeededHere(k, w, s, o);
    }
  }

  /** The destination diff of `k` made exactly the needed calls, or none because the destinations could not be read. */
  ghost predicate DestinationsTried(k: ServiceKey, cur: DestinationMap, want: DestinationMap, work: Work) {
    && work.done <= work.tried && (work.unread == {} || work.unread == {k})
    && (forall op :: op in work.tried <==> DestNeeded(op, k, cur, want) && k !in work.unread)
    && (forall op | DestNeeded(op, k, cur, want) && op !in work.done :: Covered(op, work.errs))
    && (forall e | e in work.errs :: Justified(e, work)) && NoRepeats(work.errs)
    && (k in work.unread ==> DestinationsUnread(k) in work.errs)
  }

  /** The service call that `k` needed, if any, has succeeded, and then this was done about the destinations. */
  ghost function WithCalls(k: ServiceKey, w: DesiredService, s: Store, dests: Work): Work {
    var calls := ServiceCallsFor(k, w, s);
    Work(calls + dests.done, calls + dests.tried, dests.errs, dests.unread)
  }

  lemma WithCallsTried(k: ServiceKey, w: DesiredService, s: Store, dests: Work, op: Op)
    requires s.services.Keys == s.dests.Keys && DestinationsTried(k, DestsAt(s, k), Wanted(w), dests)
    ensures var want, work := map[k := w], WithCalls(k, w, s, dests);
      && (op in work.tried <==> Needed(op, s, {}, want) && Reached(op, s, want, work))
      && (Needed(op, s, {}, want) && op !in work.done ==> Covered(op, work.errs))
      && (op in work.done ==> op in work.tried)
      && Ready(k, s, want, work.done)
  {
    NeededHere(k, w, s, op);
  }

  lemma WithCallsJustified(k: ServiceKey, w: DesiredService, s: Store, dests: Work, e: ReconcileError)
    requires Justified(e, dests) && forall op | op in dests.tried :: op.OnDestination()
    ensures Justified(e, WithCalls(k, w, s, dests))
  {
    assert forall op | op in ServiceCallsFor(k, w, s) :: !op.OnDestination();
  }

  /** The service call succeeded or none was needed, and the destinations were then diffed. */
  lemma ServiceAndDestinations(k: ServiceKey, w: DesiredService, s0: Store, s1: Store, dests: Work, s2: Store)
    requires WellFormed(s0) && KeyOfService(w.service) == k && s1 == AfterServiceCall(k, w, s0)
    requires DestinationsTried(k, DestsAt(s0, k), Wanted(w), dests)
    requires s2 == DestTable(k, s1, Wanted(w), dests.done)
    ensures ServiceCallsFor(k, w, s0) !! dests.tried
    ensures PassEffect(s0, {}, map[k := w], WithCalls(k, w, s0, dests), s2)
  {
    var want, work := map[k := w], WithCalls(k, w, s0, dests);
    TableAfter(k, w, s0, s1, dests.done);
    forall op
      ensures op in work.tried <==> Needed(op, s0, {}, want) && Reached(op, s0, want, work)
      ensures Needed(op, s0, {}, want) && op !in work.done ==> Covered(op, work.errs)
      ensures op in work.done ==> op in work.tried
    {
      WithCallsTried(k, w, s0, dests, op);
    }
    WithCallsAccount(k, w, s0, dests);
  }

  lemma WithCallsAccount(k: ServiceKey, w: DesiredService, s: Store, dests: Work)
    requires s.services.Keys == s.dests.Keys && DestinationsTried(k, DestsAt(s, k), Wanted(w), dests)
    ensures Accounts(s, {}, map[k := w], WithCalls(k, w, s, dests))
    ensures Feasible(s, {}, map[k := w], WithCalls(k, w, s, dests).done)
  {
    var want, work := map[k := w], WithCalls(k, w, s, dests);
    forall op
      ensures Needed(op, s, {}, want) && op !in work.done ==> Covered(op, work.errs)
      ensures op in work.done ==> Needed(op, s, {}, want)
    {
      WithCallsTried(k, w, s, dests, op);
    }
    forall e | e in work.errs ensures Justified(e, work) {
      WithCallsJustified(k, w, s, dests, e);
    }
    WithCallsTried(k, w, s, dests, CreateService(k));
  }

  lemma TableAfter(k: ServiceKey, w: DesiredService, s0: Store, s1: Store, done: set<Op>)
    requires WellFormed(s0) && KeyOfService(w.service) == k
    requires s1 == AfterServiceCall(k, w, s0)
    requires forall op | op in done :: op.OnDestination() && op.k == k
    ensures DestTable(k, s1, Wanted(w), done) == Outcome(s0, map[k := w], ServiceCallsFor(k, w, s0) + done)
  {
    var calls, want := ServiceCallsFor(k, w, s0), map[k := w];
    var s2, s' := DestTable(k, s1, Wanted(w), done), Outcome(s0, want, calls + done);
    forall k' ensures SameAt(s2, s', k') {
      if k' == k {
        TableAtKey(k, w, s0, s1, done);
      } else {
        OutcomeUntouched(s0, want, calls + done, k');
      }
    }
    StoresEqual(s2, s');
  }

  lemma TableAtKey(k: ServiceKey, w: DesiredService, s0: Store, s1: Store, done: set<Op>)
    requires WellFormed(s0) && KeyOfService(w.service) == k
    requires s1 == AfterServiceCall(k, w, s0)
    requires forall op | op in done :: op.OnDestination() && op.k == k
    ensures SameAt(DestTable(k, s1, Wanted(w), done), Outcome(s0, map[k := w], ServiceCallsFor(k, w, s0) + done), k)
  {
    var calls, want := ServiceCallsFor(k, w, s0), map[k := w];
    assert k in KeysAfter(s0, want, calls + done) by {
      assert DeleteService(k) !in calls + done;
    }
    DestOutcomeLocal(k, DestsAt(s0, k), Wanted(w), done, calls + done);
    assert WantedAt(want, k) == Wanted(w);
    assert UpdateService(k) !in done;
  }

  lemma DestOutcomeLocal(k: ServiceKey, cur: DestinationMap, want: DestinationMap, done: set<Op>, done': set<Op>)
    requires forall op: Op | op.OnDestination() :: op in done <==> op in done'
    ensures DestOutcome(k, cur, want, done) == DestOutcome(k, cur, want, done')
  {
  }
}
