/** The verdict of the hysteresis in pkg/healthcheck/manager.go as a function of the whole trace of check results. */
module Hysteresis {
  import opened Health

  /** The status of a backend that started fresh, after the results in `trace`. */
  ghost function After(trace: seq<bool>, check: ServiceCheck): BackendStatus {
    if trace == [] then Started(check) else AfterResult(After(trace[..|trace| - 1], check), trace[|trace| - 1], check)
  }

  /** `n` results equal to `value` start at position `i`. */
  ghost predicate RunAt(trace: seq<bool>, i: nat, n: nat, value: bool) {
    i + n <= |trace| && forall x | i <= x < i + n :: trace[x] == value
  }

  /** A run of failCount failures with no later run of riseCount successes. */
  ghost predicate Down(trace: seq<bool>, check: ServiceCheck) {
    exists i: nat :: DownSince(trace, check, i)
  }

  ghost predicate DownSince(trace: seq<bool>, check: ServiceCheck, i: nat) {
    && RunAt(trace, i, check.failCount, false)
    && forall j: nat | i + check.failCount <= j :: !RunAt(trace, j, check.riseCount, true)
  }

  /** The counters are the lengths of the failing and succeeding tails of the trace. */
  lemma {:induction false} CountersAreTails(trace: seq<bool>, check: ServiceCheck)
    ensures var st := After(trace, check);
      && st.consecutiveFails <= |trace| && RunAt(trace, |trace| - st.consecutiveFails, st.consecutiveFails, false)
      && (st.consecutiveFails < |trace| ==> trace[|trace| - 1 - st.consecutiveFails])
      && st.consecutiveOK <= |trace| && RunAt(trace, |trace| - st.consecutiveOK, st.consecutiveOK, true)
      && (st.consecutiveOK < |trace| ==> !trace[|trace| - 1 - st.consecutiveOK])
  {
    if trace != [] {
      CountersAreTails(trace[..|trace| - 1], check);
    }
  }

  /** A failure: the verdict is down exactly if it was, or the failing tail has reached failCount. */
  lemma FailStep(trace: seq<bool>, check: ServiceCheck)
    requires trace != [] && !trace[|trace| - 1] && check.failCount >= 1 && check.riseCount >= 1
    ensures Down(trace, check) <==>
      Down(trace[..|trace| - 1], check) || After(trace, check).consecutiveFails >= check.failCount
  {
    var before := trace[..|trace| - 1];
    CountersAreTails(trace, check);
    forall j: nat ensures RunAt(trace, j, check.riseCount, true) <==> RunAt(before, j, check.riseCount, true) {
      if RunAt(trace, j, check.riseCount, true) {
        assert trace[j + check.riseCount - 1];
      }
    }
    if i: nat :| DownSince(before, check, i) {
      assert RunAt(trace, i, check.failCount, false);
      assert DownSince(trace, check, i);
    }
    var fails := After(trace, check).consecutiveFails;
    if fails >= check.failCount {
      assert DownSince(trace, check, |trace| - check.failCount);
    }
    if i: nat :| DownSince(trace, check, i) {
      if i + check.failCount == |trace| {
        assert fails >= check.failCount;
      } else {
        assert DownSince(before, check, i);
      }
    }
  }

  /** A success: the verdict is down exactly if it was and the succeeding tail has not reached riseCount. */
  lemma OkStep(trace: seq<bool>, check: ServiceCheck)
    requires trace != [] && trace[|trace| - 1] && check.failCount >= 1 && check.riseCount >= 1
    ensures Down(trace, check) <==>
      Down(trace[..|trace| - 1], check) && After(trace, check).consecutiveOK < check.riseCount
  {
    var before := trace[..|trace| - 1];
    CountersAreTails(trace, check);
    var oks := After(trace, check).consecutiveOK;
    if i: nat :| DownSince(trace, check, i) {
      assert !trace[i + check.failCount - 1];
      assert RunAt(before, i, check.failCount, false);
      forall j: nat | i + check.failCount <= j ensures !RunAt(before, j, check.riseCount, true) {
        assert !RunAt(trace, j, check.riseCount, true);
      }
      assert DownSince(before, check, i);
      if oks >= check.riseCount {
        assert RunAt(trace, |trace| - check.riseCount, check.riseCount, true);
        assert false;
      }
    }
    if oks < check.riseCount {
      if i: nat :| DownSince(before, check, i) {
        forall j: nat | i + check.failCount <= j ensures !RunAt(trace, j, check.riseCount, true) {
          assert !RunAt(before, j, check.riseCount, true);
          if j + check.riseCount == |trace| {
            assert !trace[|trace| - 1 - oks];
          }
        }
        assert RunAt(trace, i, check.failCount, false);
        assert DownSince(trace, check, i);
      }
    }
  }

  /** Hysteresis over traces: unhealthy iff some run of failCount failures has no later run of riseCount successes. */
  lemma {:induction false} UnhealthyIffDown(trace: seq<bool>, check: ServiceCheck)
    requires check.failCount >= 1 && check.riseCount >= 1
    ensures !After(trace, check).healthy <==> Down(trace, check)
  {
    if trace != [] {
      UnhealthyIffDown(trace[..|trace| - 1], check);
      if trace[|trace| - 1] {
        OkStep(trace, check);
      } else {
        FailStep(trace, check);
      }
    }
  }

  /** How often the verdict flipped, that is, how often onChange was called. */
  ghost function Flips(trace: seq<bool>, check: ServiceCheck): nat {
    if trace == [] then 0 else
      var before := trace[..|trace| - 1];
      Flips(before, check) + if After(before, check).healthy != After(trace, check).healthy then 1 else 0
  }

  /** The least number of results `f` flips take: failCount for each flip down, riseCount for each flip up. */
  ghost function LeastResults(f: nat, check: ServiceCheck): nat {
    ((f + 1) / 2) * check.failCount + (f / 2) * check.riseCount
  }

  lemma NextFlipCosts(f: nat, check: ServiceCheck)
    ensures LeastResults(f + 1, check) ==
      LeastResults(f, check) + if f % 2 == 0 then check.failCount else check.riseCount
  {
  }

  /**
   Flapping is bounded: `f` flips need at least LeastResults(f) results, and the verdict is the parity of the flips.
   */
  lemma {:induction false} FlipsAreBounded(trace: seq<bool>, check: ServiceCheck)
    requires check.failCount >= 1 && check.riseCount >= 1
    ensures After(trace, check).healthy <==> Flips(trace, check) % 2 == 0
    ensures |trace| >= LeastResults(Flips(trace, check), check) +
      if After(trace, check).healthy then After(trace, check).consecutiveFails else After(trace, check).consecutiveOK
  {
    if trace != [] {
      var before := trace[..|trace| - 1];
      FlipsAreBounded(before, check);
      NextFlipCosts(Flips(before, check), check);
    }
  }
}
