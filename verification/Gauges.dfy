/** The connection gauges of the backends (pkg/trafficlog/collector.go): current values, not totals. */
module Gauges {
  import opened Config
  import opened Traffic

  datatype Gauge = Gauge(active: nat, inactive: nat)

  type Gauges = map<Label, Gauge>

  /** The gauge has the two connection counts of the backend. */
  ghost predicate HasCounts(gauge: Gauge, stats: BackendStats) {
    gauge.active == stats.activeConnections && gauge.inactive == stats.inactiveConnections
  }

  /** The backend `key` is seen, its service is configured, and it is exported as `series`. */
  ghost predicate Shows(cfgMap: map<string, ServiceConfig>, seen: map<string, BackendStats>, key: string, series: Label)
  {
    key in seen && seen[key].serviceKey in cfgMap && BackendLabel(cfgMap[seen[key].serviceKey], key) == series
  }

  /** A series shown by some backend among `taken` has the value of one of these; any other is as before. */
  ghost predicate GaugeAt(before: Gauges, now: Gauges, cfgMap: map<string, ServiceConfig>,
    seen: map<string, BackendStats>, taken: set<string>, series: Label)
  {
    if exists key :: key in taken && Shows(cfgMap, seen, key, series) then
      && series in now
      && exists key :: key in taken && Shows(cfgMap, seen, key, series) && HasCounts(now[series], seen[key])
    else
      (series in now <==> series in before) && (series in now ==> now[series] == before[series])
  }

  ghost predicate GaugesAfter(before: Gauges, now: Gauges, cfgMap: map<string, ServiceConfig>,
    seen: map<string, BackendStats>, taken: set<string>)
  {
    forall series :: GaugeAt(before, now, cfgMap, seen, taken, series)
  }

  lemma GaugesStep(before: Gauges, now: Gauges, cfgMap: map<string, ServiceConfig>, seen: map<string, BackendStats>,
    taken: set<string>, key: string, gauge: Gauge, after: Gauges)
    requires GaugesAfter(before, now, cfgMap, seen, taken) && key in seen && HasCounts(gauge, seen[key])
    requires after ==
      if seen[key].serviceKey in cfgMap then now[BackendLabel(cfgMap[seen[key].serviceKey], key) := gauge] else now
    ensures GaugesAfter(before, after, cfgMap, seen, taken + {key})
  {
    forall series ensures GaugeAt(before, after, cfgMap, seen, taken + {key}, series) {
      assert GaugeAt(before, now, cfgMap, seen, taken, series);
      if Shows(cfgMap, seen, key, series) {
        assert key in taken + {key} && HasCounts(after[series], seen[key]);
      } else if other :| other in taken && Shows(cfgMap, seen, other, series) {
        assert other in taken + {key};
      }
    }
  }

  /** The gauges set in the loop over the backends of a snapshot. */
  method SetConnections(gauges: Gauges, cfgMap: map<string, ServiceConfig>, seen: map<string, BackendStats>)
    returns (now: Gauges)
    ensures GaugesAfter(gauges, now, cfgMap, seen, seen.Keys)
  {
    now := gauges;
    var todo, taken: set<string> := seen.Keys, {};
    assert forall series :: GaugeAt(gauges, now, cfgMap, seen, taken, series);
    while todo != {}
      invariant todo !! taken && todo + taken == seen.Keys
      invariant GaugesAfter(gauges, now, cfgMap, seen, taken)
    {
      var key :| key in todo;
      ghost var before := now;
      if seen[key].serviceKey in cfgMap {
        var series := BackendLabel(cfgMap[seen[key].serviceKey], key);
        now := now[series := Gauge(seen[key].activeConnections, seen[key].inactiveConnections)];
      }
      GaugesStep(gauges, before, cfgMap, seen, taken, key,
        Gauge(seen[key].activeConnections, seen[key].inactiveConnections), now);
      todo, taken := todo - {key}, taken + {key};
    }
    assert taken == seen.Keys;
  }

  /**
   With unique names and well-formed keys every configured backend seen shows its own two counts, under the name and
   protocol of its service and its own address, whatever the map order.
   */
  lemma GaugesAreCurrent(before: Gauges, now: Gauges, cfgs: seq<ServiceConfig>, seen: map<string, BackendStats>,
    key: string, dst: string, cfg: ServiceConfig, series: Label)
    requires GaugesAfter(before, now, ConfigMap(cfgs), seen, seen.Keys)
    requires UniqueNames(cfgs) && WellFormedBackends(seen) && key in seen && seen[key].serviceKey in ConfigMap(cfgs)
    requires key == seen[key].serviceKey + "->" + dst && !HasArrow(dst) && cfg == ConfigMap(cfgs)[seen[key].serviceKey]
    requires series == Label(cfg.name, dst, cfg.protocol)
    ensures series in now
    ensures now[series].active == seen[key].activeConnections && now[series].inactive == seen[key].inactiveConnections
  {
    assert WellFormedAt(seen, key);
    ExtractUndoesJoin(seen[key].serviceKey, dst);
    assert Shows(ConfigMap(cfgs), seen, key, series);
    assert GaugeAt(before, now, ConfigMap(cfgs), seen, seen.Keys, series);
    var other :| other in seen && Shows(ConfigMap(cfgs), seen, other, series) && HasCounts(now[series], seen[other]);
    BackendLabelsDiffer(cfgs, seen, key, other);
  }
}
