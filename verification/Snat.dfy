/** SNAT and FORWARD rules and the in-memory rule manager (pkg/snat/snat.go, pkg/snat/manager_fake.go). */
module Snat {
  import opened Text
  import opened LastWins

  datatype SNATRule = SNATRule(backendIP: string, protocol: string, snatIP: string, backendPort: nat) {
    function Key(): string {
      HostPortProto(backendIP, backendPort, protocol)
    }
  }

  datatype ForwardRule = ForwardRule(backendIP: string, protocol: string, backendPort: nat) {
    function Key(): string {
      HostPortProto(backendIP, backendPort, protocol)
    }
  }

  type SNATTable = map<string, SNATRule>
  type ForwardTable = map<string, ForwardRule>

  function KeyedSNAT(rules: seq<SNATRule>): (entries: seq<(string, SNATRule)>)
    ensures |entries| == |rules| && forall i | 0 <= i < |rules| :: entries[i] == (rules[i].Key(), rules[i])
  {
    seq(|rules|, i requires 0 <= i < |rules| => (rules[i].Key(), rules[i]))
  }

  function KeyedForward(rules: seq<ForwardRule>): (entries: seq<(string, ForwardRule)>)
    ensures |entries| == |rules| && forall i | 0 <= i < |rules| :: entries[i] == (rules[i].Key(), rules[i])
  {
    seq(|rules|, i requires 0 <= i < |rules| => (rules[i].Key(), rules[i]))
  }

  /** The desired rules by key: of several rules with one key the last listed counts. */
  function SNATTableOf(rules: seq<SNATRule>): SNATTable {
    Table(KeyedSNAT(rules))
  }

  function ForwardTableOf(rules: seq<ForwardRule>): ForwardTable {
    Table(KeyedForward(rules))
  }

  /** Every rule is filed under its own key and names a protocol such as "tcp", without a slash. */
  ghost predicate SNATFiled(m: SNATTable) {
    forall k | k in m :: m[k].Key() == k && '/' !in m[k].protocol
  }

  ghost predicate ForwardFiled(m: ForwardTable) {
    forall k | k in m :: m[k].Key() == k && '/' !in m[k].protocol
  }

  lemma SNATTableFiled(rules: seq<SNATRule>)
    requires forall r | r in rules :: '/' !in r.protocol
    ensures SNATFiled(SNATTableOf(rules))
  {
    TableMeaning(KeyedSNAT(rules), |rules|);
  }

  lemma ForwardTableFiled(rules: seq<ForwardRule>)
    requires forall r | r in rules :: '/' !in r.protocol
    ensures ForwardFiled(ForwardTableOf(rules))
  {
    TableMeaning(KeyedForward(rules), |rules|);
  }

  /** What the managers keep: a rule already there with the same snat_ip stays, any other is replaced. */
  ghost function SNATMerged(have: SNATTable, want: SNATTable): SNATTable {
    map k | k in want :: if k in have && have[k].snatIP == want[k].snatIP then have[k] else want[k]
  }

  ghost function ForwardMerged(have: ForwardTable, want: ForwardTable): ForwardTable {
    map k | k in want :: if k in have then have[k] else want[k]
  }

  /** Comparing only key and snat_ip loses nothing: what is kept is the desired rule itself. */
  lemma SNATMergedIsDesired(have: SNATTable, want: SNATTable)
    requires SNATFiled(have) && SNATFiled(want)
    ensures SNATMerged(have, want) == want
  {
    forall k | k in want && k in have && have[k].snatIP == want[k].snatIP ensures have[k] == want[k] {
      var a, b := have[k], want[k];
      HostPortProtoInjective(a.backendIP, a.backendPort, a.protocol, b.backendIP, b.backendPort, b.protocol);
    }
  }

  lemma ForwardMergedIsDesired(have: ForwardTable, want: ForwardTable)
    requires ForwardFiled(have) && ForwardFiled(want)
    ensures ForwardMerged(have, want) == want
  {
    forall k | k in want && k in have ensures have[k] == want[k] {
      var a, b := have[k], want[k];
      HostPortProtoInjective(a.backendIP, a.backendPort, a.protocol, b.backendIP, b.backendPort, b.protocol);
    }
  }

  /** The first loop part-way: tracked rules in `todo` have not been looked at. */
  ghost predicate Pruned<R>(before: map<string, R>, want: map<string, R>, todo: set<string>, now: map<string, R>) {
    && (forall k :: k in now <==> k in before && (k in todo || k in want))
    && (forall k | k in now :: now[k] == before[k])
  }

  ghost predicate MergedAt(kept: SNATTable, want: SNATTable, k: string, now: SNATTable) {
    k in want && k in now && now[k] == if k in kept && kept[k].snatIP == want[k].snatIP then kept[k] else want[k]
  }

  /** The second loop part-way: desired rules in `todo` have not been looked at. */
  ghost predicate Merging(kept: SNATTable, want: SNATTable, todo: set<string>, now: SNATTable) {
    && todo <= want.Keys
    && (forall k | k in want && k !in todo :: MergedAt(kept, want, k, now))
    && (forall k | k in todo || k !in want :: (k in now <==> k in kept) && (k in now ==> now[k] == kept[k]))
  }

  /** The second loop for FORWARD rules: what is there stays, what is missing is added. */
  ghost predicate FilledUp(kept: ForwardTable, want: ForwardTable, todo: set<string>, now: ForwardTable) {
    && todo <= want.Keys
    && (forall k :: k in now <==> k in kept || (k in want && k !in todo))
    && (forall k | k in now :: now[k] == if k in kept then kept[k] else want[k])
  }

  lemma MergingStep(kept: SNATTable, want: SNATTable, todo: set<string>, now: SNATTable, key: string, after: SNATTable)
    requires Merging(kept, want, todo, now) && key in todo
    requires after == if key in now && now[key].snatIP == want[key].snatIP then now else now[key := want[key]]
    ensures Merging(kept, want, todo - {key}, after)
  {
    forall k | k in want && k !in todo - {key} ensures MergedAt(kept, want, k, after) {
      assert k != key ==> MergedAt(kept, want, k, now);
    }
  }

  lemma MergedByLoops(before: SNATTable, want: SNATTable, kept: SNATTable, after: SNATTable)
    requires Pruned(before, want, {}, kept) && Merging(kept, want, {}, after)
    ensures after == SNATMerged(before, want)
  {
    forall k | k in want ensures k in after && after[k] == SNATMerged(before, want)[k] {
      assert MergedAt(kept, want, k, after);
    }
  }

  class FakeManager {
    var managed: SNATTable
    var managedForward: ForwardTable

    constructor ()
      ensures managed == map[] && managedForward == map[]
    {
      managed, managedForward := map[], map[];
    }

    method Reconcile(desired: seq<SNATRule>)
      modifies this`managed
      ensures managed == SNATMerged(old(managed), SNATTableOf(desired))
    {
      var desiredMap: SNATTable := map[];
      for i := 0 to |desired|
        invariant desiredMap == TableUpTo(KeyedSNAT(desired), i)
      {
        desiredMap := desiredMap[desired[i].Key() := desired[i]];
      }

      ghost var before := managed;
      RemoveStale(desiredMap);
      ghost var kept := managed;
      AddMissing(desiredMap);
      MergedByLoops(before, desiredMap, kept, managed);
    }

    /** The first loop of Reconcile. */
    method RemoveStale(want: SNATTable)
      modifies this`managed
      ensures Pruned(old(managed), want, {}, managed)
    {
      ghost var before := managed;
      var todo := managed.Keys;
      while todo != {}
        invariant Pruned(before, want, todo, managed)
      {
        var key :| key in todo;
        if key !in want {
          managed := managed - {key};
        }
        todo := todo - {key};
      }
    }

    /** The second loop of Reconcile. */
    method AddMissing(want: SNATTable)
      modifies this`managed
      ensures Merging(old(managed), want, {}, managed)
    {
      ghost var kept := managed;
      var todo := want.Keys;
      while todo != {}
        invariant Merging(kept, want, todo, managed)
      {
        var key :| key in todo;
        ghost var now := managed;
        if !(key in managed && managed[key].snatIP == want[key].snatIP) {
          managed := managed[key := want[key]];
        }
        MergingStep(kept, want, todo, now, key, managed);
        todo := todo - {key};
      }
    }

    method ReconcileForward(desired: seq<ForwardRule>)
      modifies this`managedForward
      ensures managedForward == ForwardMerged(old(managedForward), ForwardTableOf(desired))
    {
      var desiredMap: ForwardTable := map[];
      for i := 0 to |desired|
        invariant desiredMap == TableUpTo(KeyedForward(desired), i)
      {
        desiredMap := desiredMap[desired[i].Key() := desired[i]];
      }

      ghost var before := managedForward;
      RemoveStaleForward(desiredMap);
      AddMissingForward(desiredMap);
      assert managedForward == ForwardMerged(before, desiredMap);
    }

    /** The first loop of ReconcileForward. */
    method RemoveStaleForward(want: ForwardTable)
      modifies this`managedForward
      ensures Pruned(old(managedForward), want, {}, managedForward)
    {
      ghost var before := managedForward;
      var todo := managedForward.Keys;
      while todo != {}
        invariant Pruned(before, want, todo, managedForward)
      {
        var key :| key in todo;
        if key !in want {
          managedForward := managedForward - {key};
        }
        todo := todo - {key};
      }
    }

    /** The second loop of ReconcileForward. */
    method AddMissingForward(want: ForwardTable)
      modifies this`managedForward
      ensures FilledUp(old(managedForward), want, {}, managedForward)
    {
      ghost var kept := managedForward;
      var todo := want.Keys;
      while todo != {}
        invariant FilledUp(kept, want, todo, managedForward)
      {
        var key :| key in todo;
        if key !in managedForward {
          managedForward := managedForward[key := want[key]];
        }
        todo := todo - {key};
      }
    }

    method Cleanup()
      modifies this
      ensures managed == map[] && managedForward == map[]
    {
      managed, managedForward := map[], map[];
    }
  }
}
