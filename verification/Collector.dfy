/** The traffic collector (pkg/trafficlog/collector.go): raw cumulative counters turned into exported totals. */
module Collector {
  import opened Wrappers
  import opened Config
  import opened Traffic
  import opened Counters
  import opened PollCharges
  import opened Gauges

  class Collector {
    var services: seq<ServiceConfig>
    var prevServices: map<string, ServiceStats>
    var prevBackends: map<string, BackendStats>
    var absentServicePolls: map<string, nat>
    var absentBackendPolls: map<string, nat>
    /** The exported counters. */
    var serviceTotals: Counters
    var backendTotals: Counters
    var connections: Gauges
    /** Every snapshot so far, the configuration it was read under, and what it charged. */
    ghost var serviceSnaps: seq<map<string, ServiceStats>>
    ghost var serviceConfigs: seq<seq<ServiceConfig>>
    ghost var serviceLog: seq<Charges>
    ghost var backendSnaps: seq<map<string, BackendStats>>
    ghost var backendConfigs: seq<seq<ServiceConfig>>
    ghost var backendLog: seq<Charges>

    ghost predicate ServicesValid()
      reads this`prevServices, this`absentServicePolls, this`serviceTotals
      reads this`serviceConfigs, this`serviceSnaps, this`serviceLog
    {
      Follows(SERVICES, prevServices, absentServicePolls, serviceTotals, serviceConfigs, serviceSnaps, serviceLog)
    }

    ghost predicate BackendsValid()
      reads this`prevBackends, this`absentBackendPolls, this`backendTotals
      reads this`backendConfigs, this`backendSnaps, this`backendLog
    {
      Follows(BACKENDS, prevBackends, absentBackendPolls, backendTotals, backendConfigs, backendSnaps, backendLog)
    }

    ghost predicate Valid()
      reads this
    {
      ServicesValid() && BackendsValid()
    }

    constructor (services: seq<ServiceConfig>)
      ensures Valid() && this.services == services && serviceSnaps == [] && backendSnaps == []
    {
      this.services := services;
      prevServices, prevBackends, absentServicePolls, absentBackendPolls := map[], map[], map[], map[];
      serviceTotals, backendTotals, connections := map[], map[], map[];
      serviceConfigs, serviceSnaps, serviceLog := [], [], [];
      backendConfigs, backendSnaps, backendLog := [], [], [];
    }

    method UpdateConfig(services: seq<ServiceConfig>)
      requires Valid()
      modifies this`services
      ensures Valid() && this.services == services
    {
      this.services := services;
    }

    /** A read that failed counts as a snapshot without keys. */
    method GatherSnapshot(serviceStats: Option<map<string, ServiceStats>>,
      backendStats: Option<map<string, BackendStats>>)
      returns (snapshot: Snapshot)
      ensures snapshot.services == if serviceStats.Some? then serviceStats.value else map[]
      ensures snapshot.backends == if backendStats.Some? then backendStats.value else map[]
    {
      snapshot := Snapshot(map[], map[]);
      if serviceStats.Some? {
        snapshot := snapshot.(services := serviceStats.value);
      }
      if backendStats.Some? {
        snapshot := snapshot.(backends := backendStats.value);
      }
    }

    method UpdateServices(seen: map<string, ServiceStats>, svcConfigMap: map<string, ServiceConfig>)
      requires ServicesValid() && svcConfigMap == ConfigMap(services)
      modifies this`prevServices, this`absentServicePolls, this`serviceTotals, this`serviceConfigs, this`serviceSnaps,
        this`serviceLog
      ensures ServicesValid() && serviceConfigs == old(serviceConfigs) + [services]
      ensures serviceSnaps == old(serviceSnaps) + [seen]
    {
      prevServices, absentServicePolls, serviceTotals, serviceLog := PollOnce(SERVICES, services, svcConfigMap, seen,
        prevServices, absentServicePolls, serviceTotals, serviceConfigs, serviceSnaps, serviceLog);
      serviceConfigs, serviceSnaps := serviceConfigs + [services], serviceSnaps + [seen];
    }

    method UpdateBackends(seen: map<string, BackendStats>, svcConfigMap: map<string, ServiceConfig>)
      requires BackendsValid() && svcConfigMap == ConfigMap(services)
      modifies this`prevBackends, this`absentBackendPolls, this`backendTotals, this`backendConfigs, this`backendSnaps,
        this`backendLog
      ensures BackendsValid() && backendConfigs == old(backendConfigs) + [services]
      ensures backendSnaps == old(backendSnaps) + [seen]
    {
      prevBackends, absentBackendPolls, backendTotals, backendLog := PollOnce(BACKENDS, services, svcConfigMap, seen,
        prevBackends, absentBackendPolls, backendTotals, backendConfigs, backendSnaps, backendLog);
      backendConfigs, backendSnaps := backendConfigs + [services], backendSnaps + [seen];
    }

    method UpdateConnections(seen: map<string, BackendStats>, svcConfigMap: map<string, ServiceConfig>)
      modifies this`connections
      ensures GaugesAfter(old(connections), connections, svcConfigMap, seen, seen.Keys)
    {
      connections := SetConnections(connections, svcConfigMap, seen);
    }

    /** One poll: the maps and the counters follow the history extended by this snapshot. */
    method UpdateMetrics(snapshot: Snapshot)
      requires Valid()
      modifies this
      ensures Valid() && services == old(services)
      ensures serviceConfigs == old(serviceConfigs) + [services]
      ensures serviceSnaps == old(serviceSnaps) + [snapshot.services]
      ensures backendConfigs == old(backendConfigs) + [services]
      ensures backendSnaps == old(backendSnaps) + [snapshot.backends]
      ensures GaugesAfter(old(connections), connections, ConfigMap(services), snapshot.backends, snapshot.backends.Keys)
    {
      var svcConfigMap := BuildServiceConfigMap(services);
      UpdateServices(snapshot.services, svcConfigMap);
      UpdateBackends(snapshot.backends, svcConfigMap);
      UpdateConnections(snapshot.backends, svcConfigMap);
    }

    method Collect(serviceStats: Option<map<string, ServiceStats>>, backendStats: Option<map<string, BackendStats>>)
      requires Valid()
      modifies this
      ensures Valid() && services == old(services)
      ensures serviceSnaps == old(serviceSnaps) + [if serviceStats.Some? then serviceStats.value else map[]]
      ensures backendSnaps == old(backendSnaps) + [if backendStats.Some? then backendStats.value else map[]]
      ensures serviceConfigs == old(serviceConfigs) + [services] && backendConfigs == old(backendConfigs) + [services]
      ensures
        var backends := if backendStats.Some? then backendStats.value else map[];
        GaugesAfter(old(connections), connections, ConfigMap(services), backends, backends.Keys)
    {
      var snapshot := GatherSnapshot(serviceStats, backendStats);
      UpdateMetrics(snapshot);
    }
  }
}
