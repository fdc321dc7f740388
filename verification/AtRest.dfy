/**
 What is left of a health transition when every callback has run (pkg/server/server.go, pkg/lvs/reconciler.go).  A
 callback whose Reconcile gives up is not made up for, so the table can come to rest out of date; here is when.
 */
module AtRest {
  import opened Wrappers
  import opened Config
  import opened LvsTypes
  import opened Pass
  import opened DesiredState
  import opened Health
  import opened Settling
  import opened Validation
  import opened ValidConfigs
  import opened HealthProtocol

  // ----- Every way to come to rest -----

  /** What steps without check results keep after state `m` if the configuration does not convert then. */
  ghost predicate Unmoved(lib: Lib, cfgs: seq<ServiceConfig>, a: State, b: State) {
    && !b.phase.ReadingRules? && (!b.phase.Idle? ==> Fresh(cfgs, b.phase.record, b.statuses))
    && Untouched(lib, cfgs, a, b)
  }

  /** The services of the configuration, and the rules, are as they were. */
  ghost predicate Untouched(lib: Lib, cfgs: seq<ServiceConfig>, a: State, b: State) {
    && (forall i, k | 0 <= i < |cfgs| && ServiceKeyFromConfig(lib, cfgs[i]) == Success(k) ::
          SameAt(b.store, a.store, k))
    && b.snat == a.snat && b.forward == a.forward && b.ruled == a.ruled
  }

  lemma UntouchedStep(lib: Lib, cfgs: seq<ServiceConfig>, a: State, b: State, step: Step, c: State)
    requires Untouched(lib, cfgs, a, b) && Next(lib, cfgs, b, step, c) && !step.Program? && !step.Finish?
    ensures Untouched(lib, cfgs, a, c)
  {
    forall i, k | 0 <= i < |cfgs| && ServiceKeyFromConfig(lib, cfgs[i]) == Success(k)
      ensures SameAt(c.store, a.store, k)
    {
      assert SameAt(b.store, a.store, k);
      if step.Foreign? {
        assert SameAt(c.store, b.store, k);
      }
    }
  }

  lemma UnmovedStep(lib: Lib, cfgs: seq<ServiceConfig>, a: State, b: State, step: Step, c: State)
    requires Unmoved(lib, cfgs, a, b) && Next(lib, cfgs, b, step, c) && !step.Checked?
    requires !Converts(lib, cfgs, b.statuses)
    ensures Unmoved(lib, cfgs, a, c) && c.statuses == b.statuses
  {
    if step.Program? {
      CurrentReads(lib, cfgs, b.phase.record, b.statuses);
      assert false;
    }
    UntouchedStep(lib, cfgs, a, b, step, c);
  }

  lemma {:induction false} QuietKeepsVerdicts(lib: Lib, cfgs: seq<ServiceConfig>, states: seq<State>,
    steps: seq<Step>, m: nat, n: nat)
    requires Path(lib, cfgs, states, steps) && m <= n < |states|
    requires forall t | m <= t < n :: !steps[t].Checked?
    ensures states[n].statuses == states[m].statuses
  {
    if m < n {
      QuietKeepsVerdicts(lib, cfgs, states, steps, m, n - 1);
      assert Next(lib, cfgs, states[n - 1], steps[n - 1], states[n]);
    }
  }

  lemma {:induction false} QuietUnmoved(lib: Lib, cfgs: seq<ServiceConfig>, states: seq<State>, steps: seq<Step>,
    m: nat, n: nat)
    requires Path(lib, cfgs, states, steps) && m <= n < |states| && states[m].phase.Idle?
    requires forall t | m <= t < n :: !steps[t].Checked?
    requires !Converts(lib, cfgs, states[m].statuses)
    ensures Unmoved(lib, cfgs, states[m], states[n])
  {
    if m < n {
      QuietUnmoved(lib, cfgs, states, steps, m, n - 1);
      QuietKeepsVerdicts(lib, cfgs, states, steps, m, n - 1);
      assert Next(lib, cfgs, states[n - 1], steps[n - 1], states[n]);
      UnmovedStep(lib, cfgs, states[m], states[n - 1], steps[n - 1], states[n]);
    }
  }

  /**
   The exact condition.  Take any moment of any run at which no Reconcile is under way, such as just after a flip, and
   let no further results come in.  However the callbacks, the reader, the main loop and others are interleaved: once
   at rest a service is up to date exactly if the configuration converts under the verdicts of that moment, or if the
   service happened to be up to date already.
   */
  lemma RestIsCurrentIff(lib: Lib, cfgs: seq<ServiceConfig>, states: seq<State>, steps: seq<Step>, m: nat, n: nat,
    i: nat, k: ServiceKey)
    requires CanonicalListens(lib, cfgs) && Run(lib, cfgs, states, steps)
    requires m <= n < |states| && states[m].phase.Idle? && Quiescent(states[n])
    requires forall t | m <= t < n :: !steps[t].Checked?
    requires i < |cfgs| && Files(lib, cfgs, i, k)
    ensures Current(lib, cfgs[i], k, states[n]) <==>
      Converts(lib, cfgs, states[m].statuses) || Current(lib, cfgs[i], k, states[m])
  {
    QuietKeepsVerdicts(lib, cfgs, states, steps, m, n);
    if Converts(lib, cfgs, states[m].statuses) {
      NoLostTransition(lib, cfgs, states, steps, n, i, k);
    } else {
      QuietUnmoved(lib, cfgs, states, steps, m, n);
      assert SameAt(states[n].store, states[m].store, k);
    }
  }

  // ----- A backend that stops every Reconcile -----

  /** A health-checked backend that no Reconcile gets past while it is healthy. */
  predicate Stopper(lib: Lib, cfgs: seq<ServiceConfig>, i: nat, j: nat) {
    Asked(cfgs, i, j) && ConfigToDestination(lib, cfgs[i].backends[j]).Failure?
  }

  /** In a validated configuration these are the backends with named ports. */
  lemma StoppersHaveNamedPorts(lib: Lib, cfgs: seq<ServiceConfig>, i: nat, j: nat)
    requires Validated(lib, cfgs) && Asked(cfgs, i, j)
    ensures Stopper(lib, cfgs, i, j) <==> !NumericPort(lib, cfgs[i].backends[j].address)
  {
    ValidatedService(lib, cfgs, i);
    assert BackendOK(lib, cfgs[i].backends, j);
  }

  lemma StopperStops(lib: Lib, cfgs: seq<ServiceConfig>, i: nat, j: nat, answers: Answers)
    requires Stopper(lib, cfgs, i, j) && answers(i, j)
    ensures DesiredOf(lib, cfgs, answers).Failure?
  {
    assert Selected(cfgs, i, j, answers);
    DestinationsConvert(lib, cfgs, i, |cfgs[i].backends|, answers);
    EntriesConvert(lib, cfgs, |cfgs|, answers);
    assert !DesiredServiceOf(lib, cfgs, i, answers).Success?;
  }

  /** No Reconcile has got past the backend since. */
  ghost predicate Blocked(lib: Lib, cfgs: seq<ServiceConfig>, a: State, b: State, i: nat, j: nat) {
    && !b.phase.ReadingRules? && Untouched(lib, cfgs, a, b)
    && (!b.phase.Idle? && (i, j) in b.phase.record ==> b.phase.record[(i, j)])
  }

  lemma BlockedStep(lib: Lib, cfgs: seq<ServiceConfig>, a: State, b: State, step: Step, c: State, i: nat, j: nat)
    requires Blocked(lib, cfgs, a, b, i, j) && Next(lib, cfgs, b, step, c) && Stopper(lib, cfgs, i, j)
    requires HealthyIn(b.statuses, cfgs[i].backends[j].address)
    ensures Blocked(lib, cfgs, a, c, i, j) && !step.Program?
  {
    if step.Program? {
      StopperStops(lib, cfgs, i, j, Recorded(b.phase.record));
      assert false;
    }
    UntouchedStep(lib, cfgs, a, b, step, c);
  }

  /**
   While such a backend is healthy no Reconcile programs anything, whatever flips: along every path from a moment
   without a Reconcile under way the services of the configuration and the rules stay as they were.
   */
  lemma {:induction false} EveryFlipIsLost(lib: Lib, cfgs: seq<ServiceConfig>, states: seq<State>, steps: seq<Step>,
    m: nat, n: nat, i: nat, j: nat)
    requires Path(lib, cfgs, states, steps) && m <= n < |states| && states[m].phase.Idle? && Stopper(lib, cfgs, i, j)
    requires forall t | m <= t < n :: HealthyIn(states[t].statuses, cfgs[i].backends[j].address)
    ensures forall t | m <= t < n :: !steps[t].Program?
    ensures Blocked(lib, cfgs, states[m], states[n], i, j)
  {
    if m < n {
      EveryFlipIsLost(lib, cfgs, states, steps, m, n - 1, i, j);
      assert Next(lib, cfgs, states[n - 1], steps[n - 1], states[n]);
      BlockedStep(lib, cfgs, states[m], states[n - 1], steps[n - 1], states[n], i, j);
    }
  }
}
