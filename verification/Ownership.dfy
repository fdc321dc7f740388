/** Ownership of services over whole runs of Reconcile and Cleanup, with failing calls and foreign edits in between. */
module Ownership {
  import opened Config
  import opened LvsTypes
  import opened Diff
  import opened Pass
  import opened FakeHandle
  import opened ReconcileLoops
  import opened Convergence
  import opened DesiredState
  import opened Settling

  /**
   The table and the managed set, with the history that matters: every key desired so far, as configured and as the
   kernel reports it, the services this reconciler created and that were not deleted since, and all it ever deleted.
   */
  datatype State = State(
    here: Situation, everDesired: set<ServiceKey>, owned: set<ServiceKey>, deleted: set<ServiceKey>)

  datatype Step =
    | Reconciled(want: Desired, work: Work, faults: Faults)
    | CleanedUp(work: Work)
    | Stopped
    | Foreign(removed: set<ServiceKey>)

  ghost function Created(done: set<Op>): set<ServiceKey> {
    set op | op in done && op.CreateService? :: op.k
  }

  ghost function KernelKeys(want: Desired): set<ServiceKey> {
    set k | k in want :: KeyOfService(want[k].service)
  }

  ghost function Removed(a: State, b: State): set<ServiceKey> {
    a.here.store.services.Keys - b.here.store.services.Keys
  }

  /**
   One step: the effects are those that the Reconcile and Cleanup methods guarantee.  A service counts as owned from
   its creation by a Reconcile of canonical hosts on, until it is removed.
   */
  ghost predicate Next(a: State, step: Step, b: State) {
    match step
    case Reconciled(want, work, faults) =>
      && WellFormed(b.here.store) && TableReport(a.here, want, work, b.here, faults)
      && b.everDesired == a.everDesired + want.Keys + KernelKeys(want)
      && b.owned == a.owned + (if Canonical(want) then Created(work.done) else {}) - Removed(a, b)
      && b.deleted == a.deleted + Removed(a, b)
    case CleanedUp(work) =>
      && CleanupEffect(a.here.store, a.here.managed, work, b.here.store, b.here.managed)
      && b.everDesired == a.everDesired
      && b.owned == a.owned - Removed(a, b)
      && b.deleted == a.deleted + Removed(a, b)
    case Stopped => b == a
    case Foreign(removed) =>
      // Somebody else edits the table; whatever they delete is no longer ours, even if they put it back.
      && WellFormed(b.here.store)
      && Removed(a, b) <= removed
      && b.here.managed == a.here.managed && b.everDesired == a.everDesired && b.deleted == a.deleted
      && b.owned == a.owned - removed
  }

  ghost predicate Initial(s: State) {
    WellFormed(s.here.store) && s.here.managed == s.everDesired == s.owned == s.deleted == {}
  }

  ghost predicate Run(states: seq<State>, steps: seq<Step>) {
    && |states| == |steps| + 1
    && Initial(states[0])
    && forall i | 0 <= i < |steps| :: Next(states[i], steps[i], states[i + 1])
  }

  /** Deleted services were desired at some time, and owned services are present and still managed. */
  ghost predicate Safe(s: State) {
    && WellFormed(s.here.store)
    && s.here.managed <= s.everDesired
    && s.deleted <= s.everDesired
    && s.owned <= s.here.managed
    && s.owned <= s.here.store.services.Keys
  }

  /** Services created are managed, and present unless deleted; only managed services are deleted. */
  lemma CreatedAreManaged(s: Store, managed: set<ServiceKey>, want: Desired, work: Work, s': Store,
    managed': set<ServiceKey>)
    requires WellFormed(s) && ReconcileEffect(s, managed, want, work, s', managed')
    ensures Created(work.done) <= managed' && Created(work.done) <= s'.services.Keys
  {
    forall k | k in Created(work.done) ensures k in managed' && k in s'.services {
      assert CreateService(k) in work.done && Needed(CreateService(k), s, managed, want);
      assert !Needed(DeleteService(k), s, managed, want);
      assert k in KeysAfter(s, want, work.done);
    }
  }

  lemma CleanupIsConfined(s: Store, managed: set<ServiceKey>, work: Work, s': Store, managed': set<ServiceKey>)
    requires WellFormed(s) && CleanupEffect(s, managed, work, s', managed')
    ensures WellFormed(s') && managed' <= managed && s.services.Keys - s'.services.Keys <= managed
    ensures managed * s'.services.Keys <= managed'
  {
    OutcomeWellFormed(s, map[], work.done);
    forall k | k in managed && k in s'.services ensures k in managed' {
      assert k in KeysAfter(s, map[], work.done);
      assert !Needed(CreateService(k), s, managed, map[]);
    }
    forall k | k in s.services && k !in s'.services ensures k in managed {
      assert k !in KeysAfter(s, map[], work.done) && DeleteService(k) in work.done;
      assert Needed(DeleteService(k), s, managed, map[]);
    }
  }

  /**
   A Cleanup in which deletions fail: every managed service that is in the table was tried, those still there stay
   managed and untouched, and nothing else does.
   */
  lemma CleanupKeeps(s: Store, managed: set<ServiceKey>, none: Desired, work: Work, s': Store,
    managed': set<ServiceKey>)
    requires WellFormed(s) && CleanupEffect(s, managed, work, s', managed') && none == map[]
    ensures forall op :: op in work.tried <==> op.DeleteService? && op.k in managed && op.k in s.services
    ensures forall k :: k in managed' <==> k in managed && k in s'.services
    ensures forall k | k in s'.services :: SameAt(s', s, k)
    ensures forall k :: k in s.services && k !in s'.services <==> DeleteService(k) in work.done
  {
    CleanupCalls(s, managed, none, work, s');
    DeletionsLeave(s, none, work.done, s');
  }

  lemma CleanupCalls(s: Store, managed: set<ServiceKey>, none: Desired, work: Work, s': Store)
    requires PassEffect(s, managed, none, work, s') && none == map[]
    ensures forall op :: op in work.tried <==> op.DeleteService? && op.k in managed && op.k in s.services
    ensures work.done <= work.tried && s' == Outcome(s, none, work.done)
  {
    forall op: Op ensures op in work.tried <==> op.DeleteService? && op.k in managed && op.k in s.services {
      assert op in work.tried <==> Needed(op, s, managed, none) && Reached(op, s, none, work);
    }
  }

  lemma DeletionsLeave(s: Store, none: Desired, done: set<Op>, s': Store)
    requires WellFormed(s) && none == map[] && s' == Outcome(s, none, done)
    requires forall op | op in done :: op.DeleteService? && op.k in s.services
    ensures forall k :: k in s'.services <==> k in s.services && DeleteService(k) !in done
    ensures forall k | k in s'.services :: SameAt(s', s, k)
  {
    forall k ensures k in s'.services <==> k in s.services && DeleteService(k) !in done {
      assert k in s'.services <==> k in KeysAfter(s, none, done);
    }
    forall k | k in s'.services ensures SameAt(s', s, k) {
      OutcomeUntouched(s, none, done, k);
    }
  }

  lemma StepIsSafe(a: State, step: Step, b: State)
    requires Safe(a) && Next(a, step, b)
    ensures Safe(b)
  {
    match step
    case Reconciled(want, work, faults) =>
      if Canonical(want) {
        CreatedAreManaged(a.here.store, a.here.managed, want, work, b.here.store, b.here.managed);
      }
    case CleanedUp(work) =>
      CleanupIsConfined(a.here.store, a.here.managed, work, b.here.store, b.here.managed);
    case Stopped =>
    case Foreign(removed) =>
  }

  /** Whole-run ownership: every state of every run is safe. */
  lemma {:induction false} RunsAreSafe(states: seq<State>, steps: seq<Step>, n: nat)
    requires Run(states, steps) && n < |states|
    ensures Safe(states[n])
  {
    if n > 0 {
      RunsAreSafe(states, steps, n - 1);
      StepIsSafe(states[n - 1], steps[n - 1], states[n]);
    }
  }

  /**
   A service that was never desired, neither under a configured key nor under the one the kernel reports, survives
   every step except a foreign edit, untouched.
   */
  lemma NeverDesiredUntouched(states: seq<State>, steps: seq<Step>, n: nat, k: ServiceKey)
    requires Run(states, steps) && n < |steps| && !steps[n].Foreign?
    requires k !in states[n + 1].everDesired
    ensures SameAt(states[n + 1].here.store, states[n].here.store, k)
  {
    RunsAreSafe(states, steps, n);
    var a, b := states[n], states[n + 1];
    match steps[n]
    case Reconciled(want, work, faults) =>
      assert k !in KernelKeys(want) && !Taken(k, want, want.Keys);
      assert Confined(a.here, want, b.here);
    case CleanedUp(work) => FrameAll(a.here.store, a.here.managed, map[], work, b.here.store);
    case Stopped =>
  }

  /** An error-free Cleanup leaves nothing managed and none of the managed services in the table. */
  lemma CleanupIsComplete(s: Store, managed: set<ServiceKey>, work: Work, s': Store, managed': set<ServiceKey>)
    requires WellFormed(s) && CleanupEffect(s, managed, work, s', managed') && work.errs == []
    ensures managed' == {}
    ensures forall k | k in managed :: k !in s'.services && k !in s'.dests
    ensures forall k | k !in managed :: SameAt(s', s, k)
  {
    Accounted(s, managed, map[], work, s');
    FrameAll(s, managed, map[], work, s');
    forall k | k in managed ensures (k in s.services ==> DeleteService(k) in work.done) && k !in s'.services {
      assert k in s.services ==> Needed(DeleteService(k), s, managed, map[]);
      assert k !in KeysAfter(s, map[], work.done);
    }
  }

  // ----- What Cleanup leaves behind -----

  /** None of the desired services is in the table. */
  ghost predicate AllGone(want: Desired, services: Services) {
    forall k | k in want :: KeyOfService(want[k].service) !in services
  }

  /** A service brought about under another spelling is in the table, and its kernel key is not managed. */
  lemma UnmanagedSpelling(start: Situation, want: Desired, work: Work, mid: Situation, faults: Faults, k: ServiceKey)
    requires WellFormed(start.store) && start.managed == {}
    requires AsPrinted(want, start.store.services) && PrintedKeysStand(want)
    requires TableRun(start, want, work, mid, faults) && work.errs == []
    requires k in want && KeyOfService(want[k].service) != k
    ensures KeyOfService(want[k].service) in mid.store.services && KeyOfService(want[k].service) !in mid.managed
  {
    TableReported(start, want, work, mid, faults);
    var kernelKey := KeyOfService(want[k].service);
    assert k !in start.store.services && !Hidden(k, want[k], start.store.services);
    if kernelKey in want {
      RunCreatesOnce(start, want, work, mid, faults, k, kernelKey);
    }
  }

  lemma CleanedWhenCanonical(start: Situation, want: Desired, work: Work, mid: Situation, faults: Faults, cleanup: Work,
    end: Store, managed: set<ServiceKey>)
    requires WellFormed(start.store) && WellFormed(mid.store) && Canonical(want)
    requires TableRun(start, want, work, mid, faults) && work.errs == []
    requires CleanupEffect(mid.store, mid.managed, cleanup, end, managed) && cleanup.errs == []
    ensures AllGone(want, end.services)
  {
    TableReported(start, want, work, mid, faults);
    Converges(start, want, work, mid);
    CleanupIsComplete(mid.store, mid.managed, cleanup, end, managed);
  }

  /**
   A reconciler that has just started brings its configuration about and then cleans up, both without errors.  The
   services it has brought about are gone, instead of staying in the table with nobody managing them, exactly if all
   listen hosts are canonical.
   */
  lemma CleanupRemovesIffCanonical(lib: Lib, cfgs: seq<ServiceConfig>, answers: Answers, start: Situation, work: Work,
    faults: Faults, mid: Situation, cleanup: Work, end: Store, managed: set<ServiceKey>)
    requires ReadsOwnPrint(lib) && PrintedAddresses(lib, start.store.services)
    requires DesiredOf(lib, cfgs, answers).Success?
    requires WellFormed(start.store) && WellFormed(mid.store) && start.managed == {}
    requires TableRun(start, DesiredOf(lib, cfgs, answers).value, work, mid, faults) && work.errs == []
    requires CleanupEffect(mid.store, mid.managed, cleanup, end, managed) && cleanup.errs == []
    ensures managed == {}
    ensures AllGone(DesiredOf(lib, cfgs, answers).value, end.services) <==> CanonicalListens(lib, cfgs)
  {
    var want := DesiredOf(lib, cfgs, answers).value;
    CleanupIsComplete(mid.store, mid.managed, cleanup, end, managed);
    CanonicalIffListens(lib, cfgs, answers);
    if Canonical(want) {
      CleanedWhenCanonical(start, want, work, mid, faults, cleanup, end, managed);
    } else {
      var k :| k in want && KeyOfService(want[k].service) != k;
      PrintedTable(lib, cfgs, answers, start.store.services);
      PrintedKeysDoStand(lib, cfgs, answers);
      UnmanagedSpelling(start, want, work, mid, faults, k);
      assert SameAt(end, mid.store, KeyOfService(want[k].service));
    }
  }
}
