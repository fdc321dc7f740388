/**
 Which thresholds are in force, over whole histories of target updates and check results
 (pkg/healthcheck/manager.go): those of the configuration under which a backend began to be tracked.
 */
module Thresholds {
  import opened Wrappers
  import opened Config
  import opened Health
  import opened Hysteresis

  /** An update goes by the checks known before it. */
  datatype Step = Updated(cfgs: seq<ServiceConfig>, known: Checks) | Ticked(address: string, ok: bool)

  /** The effects are those of UpdateTargets and of a tick of a running check. */
  ghost predicate Next(a: Statuses, step: Step, b: Statuses) {
    match step
    case Updated(cfgs, known) => Targeted(cfgs, known, a, b)
    case Ticked(address, ok) =>
      if address !in a then b == a else b == a[address := AfterResult(a[address], ok, a[address].check)]
  }

  ghost predicate Run(states: seq<Statuses>, steps: seq<Step>) {
    |states| == |steps| + 1 && forall t | 0 <= t < |steps| :: Next(states[t], steps[t], states[t + 1])
  }

  /** The results for an address from step `m` on and before step `n`. */
  ghost function Results(steps: seq<Step>, m: nat, n: nat, a: string): seq<bool>
    requires m <= n <= |steps|
    decreases n - m
  {
    if m == n then [] else
      var before := Results(steps, m, n - 1, a);
      match steps[n - 1]
      case Ticked(address, ok) => if address == a then before + [ok] else before
      case Updated(_, _) => before
  }

  lemma AfterOneMore(trace: seq<bool>, ok: bool, check: ServiceCheck)
    ensures After(trace + [ok], check) == AfterResult(After(trace, check), ok, check)
  {
    assert (trace + [ok])[..|trace|] == trace;
  }

  lemma {:induction false} AfterKeepsCheck(trace: seq<bool>, check: ServiceCheck)
    ensures After(trace, check).check == check
  {
    if trace != [] {
      AfterKeepsCheck(trace[..|trace| - 1], check);
    }
  }

  /** A tick moves the status along the trace. */
  lemma TickFollows(a: Statuses, step: Step, b: Statuses, steps: seq<Step>, m: nat, n: nat, address: string,
    check: ServiceCheck)
    requires m < n <= |steps| && steps[n - 1] == step && step.Ticked? && Next(a, step, b) && address in a
    requires a[address] == After(Results(steps, m, n - 1, address), check)
    ensures address in b && b[address] == After(Results(steps, m, n, address), check)
  {
    AfterKeepsCheck(Results(steps, m, n - 1, address), check);
    AfterOneMore(Results(steps, m, n - 1, address), step.ok, check);
  }

  /** The update before state `m` started the check of the address for service `i` of its configuration. */
  ghost predicate StartedAt(steps: seq<Step>, m: nat, i: nat, a: string) {
    && 0 < m <= |steps| && steps[m - 1].Updated?
    && i < |steps[m - 1].cfgs| && steps[m - 1].cfgs[i].healthCheck.IsEnabled() && Lists(steps[m - 1].cfgs[i], a)
  }

  /** At state `t` the check is the one started at `m` for service `i`, with the results since then. */
  ghost predicate Follows(states: seq<Statuses>, steps: seq<Step>, m: nat, t: nat, i: nat, a: string)
    requires StartedAt(steps, m, i, a) && |states| == |steps| + 1 && m <= t <= |steps|
  {
    a in states[t] && states[t][a] == After(Results(steps, m, t, a), CheckOf(steps[m - 1].cfgs[i]))
  }

  /** The check of the address has been this one until state `n`. */
  ghost predicate InForce(states: seq<Statuses>, steps: seq<Step>, m: nat, n: nat, i: nat, a: string)
    requires StartedAt(steps, m, i, a) && |states| == |steps| + 1 && m <= n <= |steps|
  {
    forall t | m <= t <= n :: Follows(states, steps, m, t, i, a)
  }

  lemma JustStarted(states: seq<Statuses>, steps: seq<Step>, n: nat, a: string) returns (i: nat)
    requires Run(states, steps) && 0 < n <= |steps| && steps[n - 1].Updated? && a in states[n]
    requires StartedFor(steps[n - 1].cfgs, |steps[n - 1].cfgs|, a, states[n][a])
    ensures StartedAt(steps, n, i, a) && InForce(states, steps, n, n, i, a)
  {
    var cfgs := steps[n - 1].cfgs;
    i :|
      && 0 <= i < |cfgs| && cfgs[i].healthCheck.IsEnabled() && Lists(cfgs[i], a)
      && states[n][a] == Started(CheckOf(cfgs[i]));
  }

  /**
   Every tracked backend has the thresholds of the configuration by which its check was started, and its counters and
   verdict are those of the results since then.
   */
  lemma {:induction false} TrackedSince(states: seq<Statuses>, steps: seq<Step>, n: nat, a: string)
    returns (m: nat, i: nat)
    requires Run(states, steps) && states[0] == map[] && n <= |steps| && a in states[n]
    ensures m <= n && StartedAt(steps, m, i, a) && InForce(states, steps, m, n, i, a)
  {
    match steps[n - 1]
    case Ticked(address, ok) =>
      m, i := TrackedSince(states, steps, n - 1, a);
      assert Follows(states, steps, m, n - 1, i, a);
      TickFollows(states[n - 1], steps[n - 1], states[n], steps, m, n, a, CheckOf(steps[m - 1].cfgs[i]));
    case Updated(cfgs, known) =>
      TargetOrigin(cfgs, known, states[n - 1], states[n], a);
      if a in states[n - 1] && states[n][a] == states[n - 1][a] {
        m, i := TrackedSince(states, steps, n - 1, a);
        assert Follows(states, steps, m, n - 1, i, a);
      } else {
        m := n;
        i := JustStarted(states, steps, n, a);
      }
  }

  /**
   The verdict at any time, by the hysteresis with the thresholds of a service that had health checks: its fail_count,
   or 3, and its rise_count, or 2.
   */
  lemma VerdictSince(states: seq<Statuses>, steps: seq<Step>, n: nat, a: string) returns (m: nat, i: nat)
    requires Run(states, steps) && states[0] == map[] && n <= |steps| && a in states[n]
    ensures m <= n && StartedAt(steps, m, i, a) && InForce(states, steps, m, n, i, a)
    ensures var health := steps[m - 1].cfgs[i].healthCheck;
      && health.enabled != Some(false)
      && (HealthyIn(states[n], a) <==>
            !Down(Results(steps, m, n, a), ServiceCheck(if health.failCount <= 0 then 3 else health.failCount,
              if health.riseCount <= 0 then 2 else health.riseCount, true)))
  {
    m, i := TrackedSince(states, steps, n, a);
    assert Follows(states, steps, m, n, i, a);
    UnhealthyIffDown(Results(steps, m, n, a), CheckOf(steps[m - 1].cfgs[i]));
  }

  /** Every configuration taken from state `m` on and before state `n` does so. */
  ghost predicate AlwaysChecked(steps: seq<Step>, m: nat, n: nat, a: string)
    requires n <= |steps|
  {
    forall t | m <= t < n && steps[t].Updated? :: OnlyChecked(steps[t].cfgs, a)
  }

  lemma InForceAtOnce(states: seq<Statuses>, steps: seq<Step>, m: nat, i: nat, a: string)
    requires Run(states, steps) && StartedAt(steps, m, i, a) && OnlyChecked(steps[m - 1].cfgs, a)
    requires a !in states[m - 1] && FirstChecker(steps[m - 1].cfgs, i, a)
    ensures InForce(states, steps, m, m, i, a)
  {
    UpdateKeeps(steps[m - 1].cfgs, steps[m - 1].known, states[m - 1], states[m], a, i);
  }

  lemma FollowsOn(states: seq<Statuses>, steps: seq<Step>, m: nat, n: nat, i: nat, a: string)
    requires |states| == |steps| + 1 && m < n <= |steps| && Next(states[n - 1], steps[n - 1], states[n])
    requires steps[n - 1].Updated? ==> OnlyChecked(steps[n - 1].cfgs, a)
    requires StartedAt(steps, m, i, a) && Follows(states, steps, m, n - 1, i, a)
    ensures Follows(states, steps, m, n, i, a)
  {
    match steps[n - 1]
    case Ticked(_, _) =>
      TickFollows(states[n - 1], steps[n - 1], states[n], steps, m, n, a, CheckOf(steps[m - 1].cfgs[i]));
    case Updated(cfgs, known) =>
      UpdateKeeps(cfgs, known, states[n - 1], states[n], a, i);
  }

  lemma StaysInForce(states: seq<Statuses>, steps: seq<Step>, m: nat, n: nat, i: nat, a: string)
    requires |states| == |steps| + 1 && m < n <= |steps| && Next(states[n - 1], steps[n - 1], states[n])
    requires StartedAt(steps, m, i, a) && (steps[n - 1].Updated? ==> OnlyChecked(steps[n - 1].cfgs, a))
    requires InForce(states, steps, m, n - 1, i, a)
    ensures InForce(states, steps, m, n, i, a)
  {
    assert Follows(states, steps, m, n - 1, i, a);
    FollowsOn(states, steps, m, n, i, a);
    forall t | m <= t <= n ensures Follows(states, steps, m, t, i, a) {
      if t < n {
        assert m <= t <= n - 1;
      }
    }
  }

  /**
   A backend that stays listed with health checks keeps the check it was started with, whatever later configurations
   say about thresholds.
   */
  lemma {:induction false} FirstThresholdsStay(states: seq<Statuses>, steps: seq<Step>, m: nat, n: nat, i: nat,
    a: string)
    requires Run(states, steps) && m <= n <= |steps| && StartedAt(steps, m, i, a)
    requires a !in states[m - 1] && FirstChecker(steps[m - 1].cfgs, i, a) && AlwaysChecked(steps, m - 1, n, a)
    ensures InForce(states, steps, m, n, i, a)
  {
    if m == n {
      InForceAtOnce(states, steps, m, i, a);
    } else {
      FirstThresholdsStay(states, steps, m, n - 1, i, a);
      StaysInForce(states, steps, m, n, i, a);
    }
  }

  /** So the thresholds of a later configuration are in force exactly if they are those it was started with. */
  lemma ChangedThresholdsIgnored(states: seq<Statuses>, steps: seq<Step>, m: nat, n: nat, i: nat, a: string, u: nat,
    i': nat)
    requires Run(states, steps) && m <= n <= |steps| && StartedAt(steps, m, i, a)
    requires a !in states[m - 1] && FirstChecker(steps[m - 1].cfgs, i, a) && AlwaysChecked(steps, m - 1, n, a)
    requires m <= u <= n && steps[u - 1].Updated? && FirstChecker(steps[u - 1].cfgs, i', a)
    ensures a in states[n]
    ensures states[n][a].check == CheckOf(steps[u - 1].cfgs[i'])
            <==> CheckOf(steps[m - 1].cfgs[i]) == CheckOf(steps[u - 1].cfgs[i'])
  {
    FirstThresholdsStay(states, steps, m, n, i, a);
    assert Follows(states, steps, m, n, i, a);
    AfterKeepsCheck(Results(steps, m, n, a), CheckOf(steps[m - 1].cfgs[i]));
  }
}
