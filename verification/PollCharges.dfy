/**
 One poll of updateMetrics (pkg/trafficlog/collector.go): values are carried forward and the changes charged to the
 exported counters.  The code treats services and backends alike, so both are instances of one description.
 */
module PollCharges {
  import opened Config
  import opened PollHistory
  import opened Traffic
  import opened Counters

  /** How statistics of one kind find their service, are labelled and are compared with earlier ones. */
  datatype Kind<!S> = Kind(
    serviceKey: (string, S) -> string, series: (ServiceConfig, string) -> Label, change: (S, S) -> Totals, none: S)

  const SERVICES: Kind<ServiceStats> := Kind(
    (key: string, stats: ServiceStats) => key,
    (cfg: ServiceConfig, key: string) => ServiceLabel(cfg),
    (prev: ServiceStats, current: ServiceStats) => ServiceAmounts(DiffServiceStats(prev, current)),
    NO_SERVICE_STATS)

  const BACKENDS: Kind<BackendStats> := Kind(
    (key: string, stats: BackendStats) => stats.serviceKey,
    (cfg: ServiceConfig, key: string) => BackendLabel(cfg, key),
    (prev: BackendStats, current: BackendStats) => BackendAmounts(DiffBackendStats(prev, current)),
    NO_BACKEND_STATS)

  function ServiceAmounts(d: ServiceStats): Totals {
    Totals(d.connections, d.inBytes, d.outBytes, d.inPkts, d.outPkts)
  }

  function BackendAmounts(d: BackendStats): Totals {
    Totals(d.connections, d.inBytes, d.outBytes, 0, 0)
  }

  function Lookup<S>(prev: map<string, S>, key: string, none: S): S {
    if key in prev then prev[key] else none
  }

  /** A key seen is charged if its service is configured: the change since its previous value, to its series. */
  ghost predicate ChargeIs<S>(kind: Kind<S>, charges: Charges, cfgMap: map<string, ServiceConfig>,
    prev: map<string, S>, seen: map<string, S>, key: string)
    requires key in seen
  {
    var svcKey := kind.serviceKey(key, seen[key]);
    && (key in charges <==> svcKey in cfgMap)
    && (key in charges ==>
          charges[key] == (kind.series(cfgMap[svcKey], key), kind.change(Lookup(prev, key, kind.none), seen[key])))
  }

  ghost predicate ChargesAre<S>(kind: Kind<S>, charges: Charges, cfgMap: map<string, ServiceConfig>,
    prev: map<string, S>, seen: map<string, S>)
  {
    charges.Keys <= seen.Keys && forall key | key in seen :: ChargeIs(kind, charges, cfgMap, prev, seen, key)
  }

  lemma ChargesExist<S>(kind: Kind<S>, cfgMap: map<string, ServiceConfig>, prev: map<string, S>, seen: map<string, S>)
    returns (charges: Charges)
    ensures ChargesAre(kind, charges, cfgMap, prev, seen)
  {
    charges := map key | key in seen && kind.serviceKey(key, seen[key]) in cfgMap ::
      (kind.series(cfgMap[kind.serviceKey(key, seen[key])], key), kind.change(Lookup(prev, key, kind.none), seen[key]));
  }

  /** Poll `t` charged what it saw against the memory of the polls before, under the configuration of its time. */
  ghost predicate LogAt<S>(kind: Kind<S>, configs: seq<seq<ServiceConfig>>, snaps: seq<map<string, S>>,
    log: seq<Charges>, t: nat)
    requires |configs| == |snaps| == |log| && t < |log|
  {
    ChargesAre(kind, log[t], ConfigMap(configs[t]), After(snaps[..t]).prev, snaps[t])
  }

  /** The maps remember the history of polls, and the counters are the sums of what it charges. */
  ghost predicate Follows<S>(kind: Kind<S>, prev: map<string, S>, absent: map<string, nat>, totals: Counters,
    configs: seq<seq<ServiceConfig>>, snaps: seq<map<string, S>>, log: seq<Charges>)
  {
    && |configs| == |snaps| == |log|
    && Memory(prev, absent) == After(snaps)
    && (forall t | 0 <= t < |log| :: LogAt(kind, configs, snaps, log, t))
    && Sums(totals, log)
  }

  /** The keys missing from the snapshot that are kept, with their values and counts. */
  ghost predicate CarriedOver<S>(m: Memory<S>, snapshot: map<string, S>, carried: map<string, S>,
    absent: map<string, nat>)
  {
    && (forall key :: key in carried <==> Kept(m, snapshot, key))
    && (forall key | key in carried :: carried[key] == m.prev[key])
    && (forall key :: key in absent <==> Kept(m, snapshot, key))
    && (forall key | key in absent :: absent[key] == AbsentCount(m.absent, key) + 1)
  }

  /** The keys outside `todo` have been written from the snapshot. */
  ghost predicate Written<S>(newPrev: map<string, S>, carried: map<string, S>, seen: map<string, S>, todo: set<string>)
  {
    && (forall key :: key in newPrev <==> key in carried || (key in seen && key !in todo))
    && (forall key | key in newPrev :: newPrev[key] == if key in seen && key !in todo then seen[key] else carried[key])
  }

  lemma LogStep<S>(kind: Kind<S>, configs: seq<seq<ServiceConfig>>, snaps: seq<map<string, S>>, log: seq<Charges>,
    configs': seq<seq<ServiceConfig>>, snaps': seq<map<string, S>>, log': seq<Charges>, t: nat)
    requires |configs| == |snaps| == |log| && t < |log| && LogAt(kind, configs, snaps, log, t)
    requires |configs'| == |snaps'| == |log'| && configs <= configs' && snaps <= snaps' && log <= log'
    ensures LogAt(kind, configs', snaps', log', t)
  {
    assert snaps'[..t] == snaps[..t];
  }

  lemma MemoryStep<S>(m: Memory<S>, seen: map<string, S>, carried: map<string, S>, absent: map<string, nat>,
    prev: map<string, S>)
    requires CarriedOver(m, seen, carried, absent) && prev == carried + seen
    ensures Memory(prev, absent) == Remember(m, seen)
  {
  }

  lemma FollowsStep<S>(kind: Kind<S>, prev: map<string, S>, absent: map<string, nat>, totals: Counters,
    configs: seq<seq<ServiceConfig>>, snaps: seq<map<string, S>>, log: seq<Charges>, cfgs: seq<ServiceConfig>,
    seen: map<string, S>, carried: map<string, S>, newAbsent: map<string, nat>, charges: Charges, order: seq<string>,
    totals': Counters, newPrev: map<string, S>)
    requires Follows(kind, prev, absent, totals, configs, snaps, log)
    requires ChargesAre(kind, charges, ConfigMap(cfgs), prev, seen) && Charging(totals, totals', charges, order, {})
    requires CarriedOver(Memory(prev, absent), seen, carried, newAbsent) && newPrev == carried + seen
    ensures Follows(kind, newPrev, newAbsent, totals', configs + [cfgs], snaps + [seen], log + [charges])
  {
    MemoryStep(Memory(prev, absent), seen, carried, newAbsent, newPrev);
    assert (snaps + [seen])[..|snaps|] == snaps;
    SumsStep(totals, log, totals', charges, order);
    forall t | 0 <= t < |log| + 1 ensures LogAt(kind, configs + [cfgs], snaps + [seen], log + [charges], t) {
      if t < |log| {
        LogStep(kind, configs, snaps, log, configs + [cfgs], snaps + [seen], log + [charges], t);
      }
    }
  }

  /** The first loop: keys missing from the snapshot. */
  method CarryForward<S>(prev: map<string, S>, absent: map<string, nat>, snapshot: map<string, S>)
    returns (newPrev: map<string, S>, newAbsent: map<string, nat>)
    ensures CarriedOver(Memory(prev, absent), snapshot, newPrev, newAbsent)
  {
    ghost var m := Memory(prev, absent);
    newPrev, newAbsent := map[], map[];
    var todo := prev.Keys;
    while todo != {}
      invariant todo <= prev.Keys
      invariant forall key :: key in newPrev <==> key in prev && key !in todo && Kept(m, snapshot, key)
      invariant forall key :: key in newAbsent <==> key in prev && key !in todo && Kept(m, snapshot, key)
      invariant forall key | key in newPrev :: newPrev[key] == prev[key]
      invariant forall key | key in newAbsent :: newAbsent[key] == AbsentCount(absent, key) + 1
    {
      var key :| key in todo;
      todo := todo - {key};
      if key in snapshot {
        continue;
      }
      if AbsentCount(absent, key) + 1 > MAX_ABSENT_POLLS {
        continue;
      }
      newPrev := newPrev[key := prev[key]];
      newAbsent := newAbsent[key := AbsentCount(absent, key) + 1];
    }
  }

  method ChargeKey<S>(kind: Kind<S>, key: string, seen: map<string, S>, cfgMap: map<string, ServiceConfig>,
    prev: map<string, S>, totals: Counters, ghost charges: Charges) returns (totals': Counters)
    requires key in seen && ChargeIs(kind, charges, cfgMap, prev, seen, key)
    ensures totals' == AfterKey(totals, charges, key)
  {
    if kind.serviceKey(key, seen[key]) !in cfgMap {
      return totals;
    }
    var cfg := cfgMap[kind.serviceKey(key, seen[key])];
    var delta := kind.change(Lookup(prev, key, kind.none), seen[key]);
    totals' := Add(totals, kind.series(cfg, key), delta);
  }

  /** The second loop: keys in the snapshot. */
  method ChargeSeen<S>(kind: Kind<S>, seen: map<string, S>, cfgMap: map<string, ServiceConfig>, prev: map<string, S>,
    carried: map<string, S>, totals: Counters, ghost charges: Charges)
    returns (newPrev: map<string, S>, totals': Counters, ghost order: seq<string>)
    requires ChargesAre(kind, charges, cfgMap, prev, seen)
    ensures newPrev == carried + seen
    ensures Charging(totals, totals', charges, order, {})
  {
    newPrev, totals', order := carried, totals, [];
    var todo := seen.Keys;
    ChargingStart(totals, charges, todo);
    while todo != {}
      invariant todo <= seen.Keys
      invariant Written(newPrev, carried, seen, todo)
      invariant Charging(totals, totals', charges, order, todo)
    {
      var key :| key in todo;
      assert ChargeIs(kind, charges, cfgMap, prev, seen, key);
      ghost var before, open := totals', todo;
      todo := todo - {key};
      newPrev := newPrev[key := seen[key]];
      totals' := ChargeKey(kind, key, seen, cfgMap, prev, totals', charges);
      order := ChargingStep(totals, before, charges, order, open, key, todo, totals');
    }
  }

  /** One poll for one kind of statistics: if maps and counters followed the history, they follow it extended. */
  method PollOnce<S>(kind: Kind<S>, services: seq<ServiceConfig>, cfgMap: map<string, ServiceConfig>,
    seen: map<string, S>, prev: map<string, S>, absent: map<string, nat>, totals: Counters,
    ghost configs: seq<seq<ServiceConfig>>, ghost snaps: seq<map<string, S>>, ghost log: seq<Charges>)
    returns (newPrev: map<string, S>, newAbsent: map<string, nat>, totals': Counters, ghost log': seq<Charges>)
    requires cfgMap == ConfigMap(services) && Follows(kind, prev, absent, totals, configs, snaps, log)
    ensures Memory(newPrev, newAbsent) == After(snaps + [seen])
    ensures Follows(kind, newPrev, newAbsent, totals', configs + [services], snaps + [seen], log')
  {
    ghost var charges := ChargesExist(kind, cfgMap, prev, seen);
    var carried;
    carried, newAbsent := CarryForward(prev, absent, seen);
    ghost var order;
    newPrev, totals', order := ChargeSeen(kind, seen, cfgMap, prev, carried, totals, charges);
    log' := log + [charges];
    FollowsStep(kind, prev, absent, totals, configs, snaps, log, services, seen, carried, newAbsent, charges, order,
      totals', newPrev);
  }
}
