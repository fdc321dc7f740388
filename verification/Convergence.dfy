/** What Reconcile achieves, stated on its effect: progress, minimality, convergence and frame. */
module Convergence {
  import opened Wrappers
  import opened Config
  import opened LvsTypes
  import opened Diff
  import opened CallLog
  import opened Pass
  import opened DesiredState
  import opened ReconcileLoops

  ghost predicate AgreesAt(s: Store, want: Desired, k: ServiceKey)
    requires k in want
  {
    && k in s.services && s.services[k].schedName == want[k].service.schedName
    && k in s.dests
    && (forall d :: d in s.dests[k] <==> d in Wanted(want[k]))
    && (forall d | d in s.dests[k] :: s.dests[k][d].weight == Wanted(want[k])[d].weight)
  }

  /** Table and desired state agree: schedulers, destination keys and weights, and nothing managed is left over. */
  ghost predicate Agrees(s: Store, managed: set<ServiceKey>, want: Desired) {
    && (forall k | k in want :: AgreesAt(s, want, k))
    && (forall k | k in managed && k !in want :: k !in s.services)
  }

  /** The measure is zero exactly when table and desired state agree. */
  lemma AgreesIffNoDiff(s: Store, managed: set<ServiceKey>, want: Desired)
    requires WellFormed(s)
    ensures DiffOf(s, managed, want) == {} <==> Agrees(s, managed, want)
  {
    if forall op :: !Needed(op, s, managed, want) {
      forall k | k in want ensures AgreesAt(s, want, k) {
        NothingNeededAt(s, managed, want, k);
      }
      forall k | k in managed && k !in want ensures k !in s.services {
        assert !Needed(DeleteService(k), s, managed, want);
      }
      assert DiffOf(s, managed, want) == {};
    } else {
      var op :| Needed(op, s, managed, want);
      assert op in DiffOf(s, managed, want);
      assert op.k in want ==> !AgreesAt(s, want, op.k);
    }
  }

  lemma NothingNeededAt(s: Store, managed: set<ServiceKey>, want: Desired, k: ServiceKey)
    requires WellFormed(s) && k in want && forall op :: !Needed(op, s, managed, want)
    ensures AgreesAt(s, want, k)
  {
    assert !Needed(CreateService(k), s, managed, want) && !Needed(UpdateService(k), s, managed, want);
    forall d ensures
      && (d in s.dests[k] <==> d in Wanted(want[k]))
      && (d in s.dests[k] ==> s.dests[k][d].weight == Wanted(want[k])[d].weight)
    {
      assert !Needed(CreateDestination(k, d), s, managed, want);
      assert !Needed(UpdateDestination(k, d), s, managed, want);
      assert !Needed(DeleteDestination(k, d), s, managed, want);
    }
  }

  /** Services still in the table and not desired are managed afterwards exactly if they were before. */
  lemma ManagedAllKept(s: Store, managed: set<ServiceKey>, want: Desired, done: set<Op>, s': Store,
    managed': set<ServiceKey>)
    requires s' == Outcome(s, want, done) && managed' == ManagedAfter(s, managed, want, done)
    ensures forall k | k !in want && k in s'.services :: k in managed' <==> k in managed
  {
  }

  /** The table has a desired service with another scheduler. */
  ghost predicate OtherScheduler(s: Store, want: Desired, k: ServiceKey) {
    k in want && k in s.services && s.services[k].schedName != want[k].service.schedName
  }

  /**
   Progress under failures: every call made belongs to the difference, each successful one lowers it by exactly
   one, what remains is covered by recorded errors, and a nil error means nothing remains.  No failure ends the work:
   every call needed on a service is made, and every call needed on the destinations of a desired service too, unless
   the call on that service itself failed or its destinations could not be read.
   */
  lemma Progress(s: Store, managed: set<ServiceKey>, want: Desired, work: Work, s': Store, managed': set<ServiceKey>)
    requires WellFormed(s) && ReconcileEffect(s, managed, want, work, s', managed')
    ensures work.tried <= DiffOf(s, managed, want)
    ensures forall op | op in DiffOf(s, managed, want) && !op.OnDestination() :: op in work.tried
    ensures forall op | op in DiffOf(s, managed, want) && op.OnDestination() && op.k !in work.unread
      && (op.k !in s.services ==> CreateService(op.k) in work.done)
      && (op.k in s.services && OtherScheduler(s, want, op.k) ==> UpdateService(op.k) in work.done) ::
      op in work.tried
    ensures DiffOf(s', managed', want) == DiffOf(s, managed, want) - work.done
    ensures |DiffOf(s', managed', want)| == |DiffOf(s, managed, want)| - |work.done|
    ensures forall op | op in DiffOf(s', managed', want) :: Covered(op, work.errs)
    ensures work.errs == [] ==> work.done == work.tried == DiffOf(s, managed, want) && DiffOf(s', managed', want) == {}
  {
    ManagedAllKept(s, managed, want, work.done, s', managed');
    DiffAfter(s, managed, want, work.done, s', managed');
    Accounted(s, managed, want, work, s');
    AllTried(s, managed, want, work, s');
  }

  lemma AllTried(s: Store, managed: set<ServiceKey>, want: Desired, work: Work, s': Store)
    requires PassEffect(s, managed, want, work, s')
    ensures forall op | op in DiffOf(s, managed, want) && !op.OnDestination() :: op in work.tried
    ensures forall op | op in DiffOf(s, managed, want) && op.OnDestination() && op.k !in work.unread
      && (op.k !in s.services ==> CreateService(op.k) in work.done)
      && (op.k in s.services && OtherScheduler(s, want, op.k) ==> UpdateService(op.k) in work.done) ::
      op in work.tried
  {
  }

  /** The error names `op` as a call that failed. */
  ghost predicate Names(e: ReconcileError, op: Op) {
    e == ServiceCall(op) || (e.DestinationCalls? && op in e.failed)
  }

  /**
   The errors of a run tell exactly what went wrong: a call is named if and only if it was made and failed, and the
   services reported unreadable are those whose destinations could not be read.  No error is recorded twice.
   */
  lemma ErrorsTellFailures(s: Store, managed: set<ServiceKey>, want: Desired, work: Work, s': Store,
    managed': set<ServiceKey>)
    requires ReconcileEffect(s, managed, want, work, s', managed')
    ensures forall op :: (exists e :: e in work.errs && Names(e, op)) <==> op in work.tried && op !in work.done
    ensures forall k :: DestinationsUnread(k) in work.errs <==> k in work.unread
    ensures forall e | e in work.errs :: e.DestinationsUnread? || exists op :: Names(e, op)
    ensures forall i, j | 0 <= i < j < |work.errs| :: work.errs[i] != work.errs[j]
  {
    forall op ensures (exists e :: e in work.errs && Names(e, op)) <==> op in work.tried && op !in work.done {
      FailureNamed(s, managed, want, work, s', op);
    }
    forall k | DestinationsUnread(k) in work.errs ensures k in work.unread {
      assert Justified(DestinationsUnread(k), work);
    }
    forall e | e in work.errs ensures e.DestinationsUnread? || exists op :: Names(e, op) {
      assert Justified(e, work);
      assert e.ServiceCall? ==> Names(e, e.op);
      assert e.DestinationCalls? ==> Names(e, e.failed[0]);
    }
  }

  lemma FailureNamed(s: Store, managed: set<ServiceKey>, want: Desired, work: Work, s': Store, op: Op)
    requires PassEffect(s, managed, want, work, s')
    ensures (exists e :: e in work.errs && Names(e, op)) <==> op in work.tried && op !in work.done
  {
    if op in work.tried && op !in work.done {
      var e :| e in work.errs && Covers(e, op);
      assert Justified(e, work) && Names(e, op);
    }
    if e :| e in work.errs && Names(e, op) {
      assert Justified(e, work);
    }
  }

  lemma Accounted(s: Store, managed: set<ServiceKey>, want: Desired, work: Work, s': Store)
    requires PassEffect(s, managed, want, work, s')
    ensures work.tried <= DiffOf(s, managed, want)
    ensures forall op | op in DiffOf(s, managed, want) - work.done :: Covered(op, work.errs)
    ensures work.errs == [] ==> work.done == work.tried == DiffOf(s, managed, want)
  {
  }

  /**
   Convergence and frame of an error-free Reconcile, in whatever order the keys were taken: the table agrees with
   the desired state, everything else is untouched, the number of calls is the size of the difference, and the
   keys answered for are the desired ones and those that were managed but already absent.
   */
  lemma Converges(start: Situation, want: Desired, work: Work, end: Situation)
    requires WellFormed(start.store) && WellFormed(end.store) && work.errs == []
    requires ReconcileEffect(start.store, start.managed, want, work, end.store, end.managed)
    requires Tracks(start.calls, end.calls, work.done, work.tried)
    ensures Agrees(end.store, end.managed, want)
    ensures forall k | k !in want && k !in start.managed :: SameAt(end.store, start.store, k)
    ensures end.managed == want.Keys + (set k | k in start.managed && k !in start.store.services)
    ensures |end.calls| - |start.calls| == |DiffOf(start.store, start.managed, want)|
  {
    Progress(start.store, start.managed, want, work, end.store, end.managed);
    AgreesIffNoDiff(end.store, end.managed, want);
    FrameAll(start.store, start.managed, want, work, end.store);
    ManagedConverged(start.store, start.managed, want, work.done);
  }

  /**
   The keys answered for, whichever calls failed: a desired service if it was managed or is in the table now, another
   one if it was managed and has not just been deleted.
   */
  lemma ManagedMeaning(s: Store, managed: set<ServiceKey>, want: Desired, work: Work, s': Store,
    managed': set<ServiceKey>, k: ServiceKey)
    requires WellFormed(s) && ReconcileEffect(s, managed, want, work, s', managed')
    ensures k in want ==> (k in managed' <==> k in managed || k in s'.services)
    ensures k !in want ==> (k in managed' <==> k in managed && (k in s.services ==> k in s'.services))
  {
    assert k in s'.services <==> k in KeysAfter(s, want, work.done);
    assert Needed(DeleteService(k), s, managed, want) ==> k !in want;
  }

  /**
   What an error-free run programs: a service or destination that was there keeps its entry as it was, whatever else
   the configuration says, if the scheduler or the weight is as desired; otherwise the entry is the desired one.
   */
  lemma ConvergedEntries(s: Store, managed: set<ServiceKey>, want: Desired, work: Work, s': Store, k: ServiceKey)
    requires WellFormed(s) && PassEffect(s, managed, want, work, s') && work.errs == [] && k in want
    ensures k in s'.services && s'.services[k] ==
      if k in s.services && s.services[k].schedName == want[k].service.schedName then s.services[k]
      else want[k].service
    ensures k in s'.dests && s'.dests[k].Keys == Wanted(want[k]).Keys
    ensures forall d | d in s'.dests[k] ::
      s'.dests[k][d] ==
      if k in s.dests && d in s.dests[k] && s.dests[k][d].weight == Wanted(want[k])[d].weight then s.dests[k][d]
      else Wanted(want[k])[d]
  {
    Accounted(s, managed, want, work, s');
    ServiceConverged(s, managed, want, work.done, k);
    DestinationsConverged(k, DestsAt(s, k), Wanted(want[k]), work.done);
  }

  lemma ServiceConverged(s: Store, managed: set<ServiceKey>, want: Desired, done: set<Op>, k: ServiceKey)
    requires k in want && forall op :: op in done <==> Needed(op, s, managed, want)
    ensures k in KeysAfter(s, want, done)
    ensures UpdateService(k) in done <==> k in s.services && s.services[k].schedName != want[k].service.schedName
    ensures forall d :: DeleteDestination(k, d) in done <==> d in DestsAt(s, k) && d !in Wanted(want[k])
    ensures forall d :: CreateDestination(k, d) in done <==> d !in DestsAt(s, k) && d in Wanted(want[k])
    ensures forall d :: UpdateDestination(k, d) in done <==>
      d in DestsAt(s, k) && d in Wanted(want[k]) && DestsAt(s, k)[d].weight != Wanted(want[k])[d].weight
  {
  }

  lemma DestinationsConverged(k: ServiceKey, cur: DestinationMap, want: DestinationMap, done: set<Op>)
    requires forall d :: DeleteDestination(k, d) in done <==> d in cur && d !in want
    requires forall d :: CreateDestination(k, d) in done <==> d !in cur && d in want
    requires forall d :: UpdateDestination(k, d) in done <==> d in cur && d in want && cur[d].weight != want[d].weight
    ensures DestOutcome(k, cur, want, done).Keys == want.Keys
    ensures forall d | d in want ::
      DestOutcome(k, cur, want, done)[d] == if d in cur && cur[d].weight == want[d].weight then cur[d] else want[d]
  {
    assert forall d :: d in DestOutcome(k, cur, want, done) <==> d in want;
  }

  lemma FrameAll(s: Store, managed: set<ServiceKey>, want: Desired, work: Work, s': Store)
    requires WellFormed(s) && PassEffect(s, managed, want, work, s')
    ensures forall k | k !in want && k !in managed :: SameAt(s', s, k)
  {
    forall k | k !in want && k !in managed ensures SameAt(s', s, k) {
      Frame(s, managed, want, work.done, k);
    }
  }

  lemma ManagedConverged(s: Store, managed: set<ServiceKey>, want: Desired, done: set<Op>)
    requires done == DiffOf(s, managed, want)
    ensures ManagedAfter(s, managed, want, done) == want.Keys + (set k | k in managed && k !in s.services)
  {
  }

  /** An error-free run is possible from every table: the whole difference can be worked off. */
  lemma Achievable(s: Store, managed: set<ServiceKey>, want: Desired, all: set<Op>)
    requires WellFormed(s) && all == DiffOf(s, managed, want)
    ensures ReconcileEffect(s, managed, want, Work(all, all, [], {}), Outcome(s, want, all),
              ManagedAfter(s, managed, want, all))
  {
    AllAtOnce(s, managed, want, all, Work(all, all, [], {}), Outcome(s, want, all));
  }

  lemma AllAtOnce(s: Store, managed: set<ServiceKey>, want: Desired, all: set<Op>, work: Work, s': Store)
    requires WellFormed(s) && all == DiffOf(s, managed, want) && work == Work(all, all, [], {})
    requires s' == Outcome(s, want, all)
    ensures PassEffect(s, managed, want, work, s')
  {
    forall op ensures op in all <==> Needed(op, s, managed, want) && Reached(op, s, want, work) {
      if op in all && op.OnDestination() {
        ReadyByDiff(s, managed, want, all, op);
      }
    }
    AllFeasible(s, managed, want, all);
  }

  lemma AllFeasible(s: Store, managed: set<ServiceKey>, want: Desired, all: set<Op>)
    requires all == DiffOf(s, managed, want)
    ensures Feasible(s, managed, want, all)
  {
    forall op | op in all && op.CreateDestination? ensures op.k in s.services || CreateService(op.k) in all {
      ReadyByDiff(s, managed, want, all, op);
    }
  }

  /** The difference contains the service call that a destination call in it waits for. */
  lemma ReadyByDiff(s: Store, managed: set<ServiceKey>, want: Desired, all: set<Op>, op: Op)
    requires all == DiffOf(s, managed, want) && op in all && op.OnDestination()
    ensures Ready(op.k, s, want, all)
  {
    assert Needed(op, s, managed, want);
    if op.k !in s.services {
      assert Needed(CreateService(op.k), s, managed, want);
    } else if s.services[op.k].schedName != want[op.k].service.schedName {
      assert Needed(UpdateService(op.k), s, managed, want);
    }
  }

  /** The map order does not matter: two error-free runs from the same table end alike. */
  lemma OrderIrrelevant(s: Store, managed: set<ServiceKey>, want: Desired, work1: Work, s1: Store,
    managed1: set<ServiceKey>, work2: Work, s2: Store, managed2: set<ServiceKey>)
    requires WellFormed(s) && work1.errs == work2.errs == []
    requires ReconcileEffect(s, managed, want, work1, s1, managed1)
    requires ReconcileEffect(s, managed, want, work2, s2, managed2)
    ensures s1 == s2 && managed1 == managed2
  {
    Progress(s, managed, want, work1, s1, managed1);
    Progress(s, managed, want, work2, s2, managed2);
  }

  /** Once table and desired state agree, a further Reconcile makes no call and changes nothing. */
  lemma Idempotent(s: Store, managed: set<ServiceKey>, want: Desired, work: Work, s': Store, managed': set<ServiceKey>)
    requires WellFormed(s) && Agrees(s, managed, want)
    requires ReconcileEffect(s, managed, want, work, s', managed')
    ensures work.tried == {} && s' == s && managed' == managed + want.Keys
  {
    AgreesIffNoDiff(s, managed, want);
    Progress(s, managed, want, work, s', managed');
    forall k ensures SameAt(s', s, k) {
      OutcomeUntouched(s, want, {}, k);
    }
    StoresEqual(s', s);
  }

  /**
   Agreement read back in terms of the configuration: the last service listed for a key has its scheduler, a
   destination is programmed exactly when a selected backend has its key, with the weight of the last one listed.
   */
  lemma AgreesWithConfig(lib: Lib, cfgs: seq<ServiceConfig>, answers: Answers, s: Store, managed: set<ServiceKey>,
    i: nat, k: ServiceKey)
    requires DesiredOf(lib, cfgs, answers).Success? && Agrees(s, managed, DesiredOf(lib, cfgs, answers).value)
    requires i < |cfgs| && LastForKey(lib, cfgs, i) && ServiceKeyFromConfig(lib, cfgs[i]) == Success(k)
    ensures k in s.services && k in s.dests && s.services[k].schedName == cfgs[i].scheduler
    ensures forall d :: d in s.dests[k] <==> ListsSome(lib, cfgs, i, answers, d)
    ensures forall d, j | 0 <= j < |cfgs[i].backends| && Lists(lib, cfgs, i, j, answers, d)
      && (forall j' | j < j' < |cfgs[i].backends| :: !Lists(lib, cfgs, i, j', answers, d)) ::
      d in s.dests[k] && s.dests[k][d].weight == cfgs[i].backends[j].weight
  {
    var want := DesiredOf(lib, cfgs, answers).value;
    DesiredEntry(lib, cfgs, answers, i);
    assert AgreesAt(s, want, k);
    forall d ensures d in s.dests[k] <==> ListsSome(lib, cfgs, i, answers, d) {
      WantedIffListed(lib, cfgs, i, answers, want[k], d);
    }
    forall d, j | 0 <= j < |cfgs[i].backends| && Lists(lib, cfgs, i, j, answers, d)
      && (forall j' | j < j' < |cfgs[i].backends| :: !Lists(lib, cfgs, i, j', answers, d))
      ensures d in s.dests[k] && s.dests[k][d].weight == cfgs[i].backends[j].weight
    {
      LastListedWins(lib, cfgs, i, answers, want[k], d, j);
    }
  }
}
