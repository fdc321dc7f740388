/** One ReconcileForward of the iptables manager (pkg/snat/manager_linux.go), by the outcomes of its commands. */
module ForwardRun {
  import opened Scripts
  import opened Snat

  /**
   The first loop part-way: of the stale keys those in `order` have been taken, each with a command of its own, and a
   key is no longer tracked exactly if its command succeeded.
   */
  ghost predicate Deleting(m: ForwardTable, script: seq<bool>, order: seq<string>, m': ForwardTable,
    script': seq<bool>)
  {
    && (forall k | k in m && k !in order :: k in m' && m'[k] == m[k])
    && (forall k | k in m' :: k in m && m'[k] == m[k])
    && (forall t | 0 <= t < |order| :: order[t] in m && (order[t] in m' <==> !Outcome(script, t)))
    && script' == Dropped(script, |order|)
  }

  /** The second loop part-way: of the missing keys those in `order` have been taken. */
  ghost predicate Adding(m: ForwardTable, want: ForwardTable, script: seq<bool>, order: seq<string>, m': ForwardTable,
    script': seq<bool>)
  {
    && (forall k | k in m :: k in m' && m'[k] == m[k])
    && (forall k | k in m' && k !in m :: k in order && k in want && m'[k] == want[k])
    && (forall t | 0 <= t < |order| :: order[t] in want && order[t] !in m && (order[t] in m' <==> Outcome(script, t)))
    && script' == Dropped(script, |order|)
  }

  lemma DeletingMore(m: ForwardTable, script: seq<bool>, order: seq<string>, m1: ForwardTable, script1: seq<bool>,
    key: string, m2: ForwardTable)
    requires Deleting(m, script, order, m1, script1) && key in m1 && key in m && key !in order
    requires m2 == if Succeeds(script1) then m1 - {key} else m1
    ensures Deleting(m, script, order + [key], m2, Rest(script1))
  {
    DroppedNext(script, |order|);
  }

  lemma AddingMore(m: ForwardTable, want: ForwardTable, script: seq<bool>, order: seq<string>, m1: ForwardTable,
    script1: seq<bool>, key: string, m2: ForwardTable)
    requires Adding(m, want, script, order, m1, script1) && key in want && key !in m1 && key !in order
    requires m2 == if Succeeds(script1) then m1[key := want[key]] else m1
    ensures Adding(m, want, script, order + [key], m2, Rest(script1))
  {
    DroppedNext(script, |order|);
  }

  /**
   A whole run: first a command for each stale key, in the order `stale`, then one for each missing key, in the order
   `missing`.  A stale key stays exactly if its own command fails, a missing one is added exactly if its own command
   succeeds, and a tracked desired key is left alone.
   */
  ghost predicate ForwardBy(m: ForwardTable, want: ForwardTable, script: seq<bool>, stale: seq<string>,
    missing: seq<string>, m': ForwardTable, script': seq<bool>)
  {
    && Enumerates(stale, m.Keys - want.Keys) && Enumerates(missing, want.Keys - m.Keys)
    && (forall k | k in m' :: k in m || k in want)
    && (forall k | k in m && k in want :: k in m' && m'[k] == m[k])
    && (forall t | 0 <= t < |stale| ::
          stale[t] in m &&
          if Outcome(script, t) then stale[t] !in m' else stale[t] in m' && m'[stale[t]] == m[stale[t]])
    && (forall t | 0 <= t < |missing| ::
          missing[t] in want &&
          if Outcome(script, |stale| + t) then missing[t] in m' && m'[missing[t]] == want[missing[t]]
          else missing[t] !in m')
    && script' == Dropped(script, |stale| + |missing|)
  }

  lemma BothLoops(m: ForwardTable, want: ForwardTable, script: seq<bool>, stale: seq<string>, m1: ForwardTable,
    script1: seq<bool>, missing: seq<string>, m2: ForwardTable, script2: seq<bool>)
    requires Enumerates(stale, m.Keys - want.Keys) && Enumerates(missing, want.Keys - m1.Keys)
    requires Deleting(m, script, stale, m1, script1) && Adding(m1, want, script1, missing, m2, script2)
    ensures ForwardBy(m, want, script, stale, missing, m2, script2)
  {
    assert forall k | k in want :: k in m1 <==> k in m;
    DroppedTwice(script, |stale|, |missing|);
    forall t | 0 <= t < |missing|
      ensures missing[t] in want && Outcome(script1, t) == Outcome(script, |stale| + t)
      ensures missing[t] in m2 <==> Outcome(script1, t)
      ensures missing[t] in m2 ==> m2[missing[t]] == want[missing[t]]
    {
      DroppedTwice(script, |stale|, t);
    }
    forall t | 0 <= t < |stale|
      ensures stale[t] in m && (stale[t] in m2 <==> !Outcome(script, t))
      ensures stale[t] in m2 ==> m2[stale[t]] == m[stale[t]]
    {
      assert stale[t] in m.Keys - want.Keys;
    }
  }

  /** Without failures the run tracks what the in-memory manager tracks. */
  lemma SteadyForward(m: ForwardTable, want: ForwardTable, script: seq<bool>, stale: seq<string>, missing: seq<string>,
    m': ForwardTable, script': seq<bool>)
    requires ForwardBy(m, want, script, stale, missing, m', script') && Steady(script)
    ensures m' == ForwardMerged(m, want)
  {
    forall k ensures k in m' <==> k in want {
      if k in want && k !in m {
        var t := Position(missing, want.Keys - m.Keys, k);
        assert Outcome(script, |stale| + t);
      }
      if k in m && k !in want {
        var t := Position(stale, m.Keys - want.Keys, k);
        assert Outcome(script, t);
      }
    }
    forall k | k in want && k !in m ensures m'[k] == want[k] {
      var t := Position(missing, want.Keys - m.Keys, k);
      assert Outcome(script, |stale| + t);
    }
  }
}
