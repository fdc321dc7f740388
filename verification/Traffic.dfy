/**
 Traffic statistics, their keys and the metric labels they are exported under
 (pkg/trafficlog/models.go, pkg/trafficlog/lvs_stats_adapter.go, pkg/trafficlog/collector.go, pkg/metrics/metrics.go).
 */
module Traffic {
  import opened Wrappers
  import opened Text
  import opened Config
  import opened LvsTypes
  import opened LastWins
  import opened PollHistory

  datatype ServiceStats = ServiceStats(connections: nat, inPkts: nat, outPkts: nat, inBytes: nat, outBytes: nat)

  datatype BackendStats = BackendStats(
    serviceKey: string, connections: nat, activeConnections: nat, inactiveConnections: nat, currentConnections: nat,
    inPkts: nat, outPkts: nat, inBytes: nat, outBytes: nat)

  datatype Snapshot = Snapshot(services: map<string, ServiceStats>, backends: map<string, BackendStats>)

  const NO_SERVICE_STATS := ServiceStats(0, 0, 0, 0, 0)
  const NO_BACKEND_STATS := BackendStats("", 0, 0, 0, 0, 0, 0, 0, 0)

  function DiffServiceStats(prev: ServiceStats, current: ServiceStats): ServiceStats {
    ServiceStats(
      DeltaUint64(current.connections, prev.connections),
      DeltaUint64(current.inPkts, prev.inPkts),
      DeltaUint64(current.outPkts, prev.outPkts),
      DeltaUint64(current.inBytes, prev.inBytes),
      DeltaUint64(current.outBytes, prev.outBytes))
  }

  function DiffBackendStats(prev: BackendStats, current: BackendStats): BackendStats {
    BackendStats(
      current.serviceKey,
      DeltaUint64(current.connections, prev.connections),
      0, 0, 0,
      DeltaUint64(current.inPkts, prev.inPkts),
      DeltaUint64(current.outPkts, prev.outPkts),
      DeltaUint64(current.inBytes, prev.inBytes),
      DeltaUint64(current.outBytes, prev.outBytes))
  }

  // ----- Keys -----

  /** The key a configured service is looked up by. */
  function ListenKey(cfg: ServiceConfig): string {
    cfg.listen + "/" + cfg.protocol
  }

  function ProtocolToString(protocol: nat): string {
    if protocol == IPPROTO_TCP then "tcp"
    else if protocol == IPPROTO_UDP then "udp"
    else "unknown(" + Itoa(protocol) + ")"
  }

  /** ServiceKey.String: the host is not put into brackets. */
  function ServiceKeyText(k: ServiceKey): string {
    HostPortProto(k.address, k.port, ProtocolToString(k.protocol))
  }

  function DestinationKeyText(d: DestinationKey): string {
    HostPort(d.address, d.port)
  }

  function BackendKeyText(svcKey: string, dstKey: string): string {
    svcKey + "->" + dstKey
  }

  /**
   The statistics the kernel reports for a service are found again by its configuration exactly if it is listed as
   "host:port" with the host as the kernel prints it and the port in canonical decimal; so never in brackets.
   */
  lemma StatsFoundIffPlainListen(lib: Lib, cfg: ServiceConfig)
    requires ConfigToService(lib, cfg).Success?
    ensures var svc := ConfigToService(lib, cfg).value;
      ServiceKeyText(KeyOfService(svc)) == ListenKey(cfg) <==>
        cfg.listen == svc.address.text + ":" + Itoa(svc.port)
  {
    var svc := ConfigToService(lib, cfg).value;
    var kernel := HostPort(svc.address.text, svc.port);
    assert ProtocolToString(svc.protocol) == cfg.protocol && '/' !in cfg.protocol;
    if kernel + "/" + cfg.protocol == cfg.listen + "/" + cfg.protocol {
      SplitAtLast(kernel, cfg.protocol, cfg.listen, cfg.protocol, '/');
    }
  }

  lemma BracketsAreNeverFound(lib: Lib, cfg: ServiceConfig)
    requires ConfigToService(lib, cfg).Success? && |cfg.listen| > 0 && cfg.listen[0] == '['
    requires var host := ConfigToService(lib, cfg).value.address.text; |host| > 0 && host[0] != '['
    ensures ServiceKeyText(KeyOfService(ConfigToService(lib, cfg).value)) != ListenKey(cfg)
  {
    StatsFoundIffPlainListen(lib, cfg);
  }

  // ----- extractBackendAddress -----

  predicate ArrowAt(s: string, i: nat) {
    i + 2 <= |s| && s[i] == '-' && s[i + 1] == '>'
  }

  ghost predicate HasArrow(s: string) {
    exists i: nat :: ArrowAt(s, i)
  }

  function FirstArrow(s: string, i: nat): (r: nat)
    requires i <= |s|
    ensures i <= r <= |s| && (r < |s| ==> ArrowAt(s, r))
    ensures forall x: nat | i <= x < r :: !ArrowAt(s, x)
    decreases |s| - i
  {
    if i == |s| || ArrowAt(s, i) then i else FirstArrow(s, i + 1)
  }

  /** strings.Split(s, "->"). */
  function SplitArrow(s: string): (parts: seq<string>)
    ensures |parts| > 0
  {
    var i := FirstArrow(s, 0);
    if i == |s| then [s] else [s[..i]] + SplitArrow(s[i + 2..])
  }

  lemma OnePartIffNoArrow(s: string)
    ensures |SplitArrow(s)| == 1 <==> !HasArrow(s)
    ensures !HasArrow(s) ==> SplitArrow(s) == [s]
  {
  }

  function ExtractBackendAddress(fullKey: string): string {
    var parts := SplitArrow(fullKey);
    if |parts| == 2 then parts[1] else fullKey
  }

  /** extractBackendAddress undoes the join exactly if neither part contains an arrow itself. */
  lemma ExtractUndoesJoin(svcKey: string, dstKey: string)
    ensures ExtractBackendAddress(BackendKeyText(svcKey, dstKey)) == dstKey <==> !HasArrow(svcKey) && !HasArrow(dstKey)
  {
    var s := BackendKeyText(svcKey, dstKey);
    assert ArrowAt(s, |svcKey|);
    var i := FirstArrow(s, 0);
    assert s[|svcKey|] == '-';
    assert i < |svcKey| ==> ArrowAt(svcKey, i);
    if HasArrow(svcKey) {
      var x: nat :| ArrowAt(svcKey, x);
      assert ArrowAt(s, x);
      assert s[i + 2..] == BackendKeyText(svcKey[i + 2..], dstKey);
      assert ArrowAt(s[i + 2..], |svcKey| - i - 2);
      OnePartIffNoArrow(s[i + 2..]);
      assert |s| > |dstKey|;
    } else {
      assert s[..i] == svcKey && s[i + 2..] == dstKey;
      OnePartIffNoArrow(dstKey);
      assert |s| > |dstKey|;
    }
  }

  lemma PlainTextHasNoArrow(s: string)
    requires '>' !in s
    ensures !HasArrow(s)
  {
  }

  /** The keys the statistics adapter builds are told apart and taken apart correctly. */
  lemma AdapterKeys(k1: ServiceKey, d1: DestinationKey, k2: ServiceKey, d2: DestinationKey)
    requires '>' !in k1.address && '>' !in d1.address && '>' !in k2.address && '>' !in d2.address
    requires k1.protocol in {IPPROTO_TCP, IPPROTO_UDP} && k2.protocol in {IPPROTO_TCP, IPPROTO_UDP}
    ensures ExtractBackendAddress(BackendKeyText(ServiceKeyText(k1), DestinationKeyText(d1))) == DestinationKeyText(d1)
    ensures BackendKeyText(ServiceKeyText(k1), DestinationKeyText(d1))
            == BackendKeyText(ServiceKeyText(k2), DestinationKeyText(d2))
            ==> k1 == k2 && d1 == d2
  {
    PlainTextHasNoArrow(ServiceKeyText(k1));
    PlainTextHasNoArrow(DestinationKeyText(d1));
    PlainTextHasNoArrow(ServiceKeyText(k2));
    PlainTextHasNoArrow(DestinationKeyText(d2));
    ExtractUndoesJoin(ServiceKeyText(k1), DestinationKeyText(d1));
    ExtractUndoesJoin(ServiceKeyText(k2), DestinationKeyText(d2));
    var s1 := BackendKeyText(ServiceKeyText(k1), DestinationKeyText(d1));
    var s2 := BackendKeyText(ServiceKeyText(k2), DestinationKeyText(d2));
    if s1 == s2 {
      HostPortInjective(d1.address, d1.port, d2.address, d2.port);
      assert |ServiceKeyText(k1)| == |ServiceKeyText(k2)|;
      assert ServiceKeyText(k1) == s1[..|ServiceKeyText(k1)|] == s2[..|ServiceKeyText(k2)|] == ServiceKeyText(k2);
      HostPortProtoInjective(k1.address, k1.port, ProtocolToString(k1.protocol), k2.address, k2.port,
        ProtocolToString(k2.protocol));
    }
  }

  // ----- Labels -----

  /** The labels of one exported series; `endpoint` is the listen address of a service or the address of a backend. */
  datatype Label = Label(service: string, endpoint: string, protocol: string)

  function KeyedConfigs(cfgs: seq<ServiceConfig>): (entries: seq<(string, ServiceConfig)>)
    ensures |entries| == |cfgs| && forall i | 0 <= i < |cfgs| :: entries[i] == (ListenKey(cfgs[i]), cfgs[i])
  {
    seq(|cfgs|, i requires 0 <= i < |cfgs| => (ListenKey(cfgs[i]), cfgs[i]))
  }

  function ConfigMap(cfgs: seq<ServiceConfig>): (m: map<string, ServiceConfig>)
    ensures forall key | key in m :: ListenKey(m[key]) == key && m[key] in cfgs
  {
    var entries := KeyedConfigs(cfgs);
    TableMeaning(entries, |entries|);
    Table(entries)
  }

  /** The statistics of "listen/protocol" belong to the last service listed with these two. */
  lemma LastConfigured(cfgs: seq<ServiceConfig>, i: nat)
    requires i < |cfgs|
    requires forall j | i < j < |cfgs| ::
      cfgs[j].listen + "/" + cfgs[j].protocol != cfgs[i].listen + "/" + cfgs[i].protocol
    ensures var key := cfgs[i].listen + "/" + cfgs[i].protocol;
      key in ConfigMap(cfgs) && ConfigMap(cfgs)[key] == cfgs[i]
  {
    var entries := KeyedConfigs(cfgs);
    TableMeaning(entries, |entries|);
    assert IsLast(entries, |entries|, i);
  }

  method BuildServiceConfigMap(services: seq<ServiceConfig>) returns (result: map<string, ServiceConfig>)
    ensures result == ConfigMap(services)
  {
    result := map[];
    for i := 0 to |services|
      invariant result == TableUpTo(KeyedConfigs(services), i)
    {
      var svc := services[i];
      result := result[svc.listen + "/" + svc.protocol := svc];
    }
  }

  function ServiceLabel(cfg: ServiceConfig): Label {
    Label(cfg.name, cfg.listen, cfg.protocol)
  }

  function BackendLabel(cfg: ServiceConfig, backendKey: string): Label {
    Label(cfg.name, ExtractBackendAddress(backendKey), cfg.protocol)
  }

  /** Every key is its service key joined with a destination key, without arrows in either. */
  ghost predicate WellFormedBackends(backends: map<string, BackendStats>) {
    forall key | key in backends :: WellFormedAt(backends, key)
  }

  ghost predicate WellFormedAt(backends: map<string, BackendStats>, key: string)
    requires key in backends
  {
    var svcKey := backends[key].serviceKey;
    !HasArrow(svcKey) && exists dst :: key == BackendKeyText(svcKey, dst) && !HasArrow(dst)
  }

  lemma ServiceLabelsDiffer(cfgs: seq<ServiceConfig>, key1: string, key2: string)
    requires key1 in ConfigMap(cfgs) && key2 in ConfigMap(cfgs)
    requires ServiceLabel(ConfigMap(cfgs)[key1]) == ServiceLabel(ConfigMap(cfgs)[key2])
    ensures key1 == key2
  {
  }

  /** With unique service names and well-formed keys, different backends have different labels. */
  lemma BackendLabelsDiffer(cfgs: seq<ServiceConfig>, backends: map<string, BackendStats>, key1: string, key2: string)
    requires UniqueNames(cfgs) && WellFormedBackends(backends) && key1 in backends && key2 in backends
    requires backends[key1].serviceKey in ConfigMap(cfgs) && backends[key2].serviceKey in ConfigMap(cfgs)
    requires var m := ConfigMap(cfgs);
      BackendLabel(m[backends[key1].serviceKey], key1) == BackendLabel(m[backends[key2].serviceKey], key2)
    ensures key1 == key2
  {
    var m := ConfigMap(cfgs);
    var cfg1, cfg2 := m[backends[key1].serviceKey], m[backends[key2].serviceKey];
    assert cfg1 == cfg2 by {
      var i :| 0 <= i < |cfgs| && cfgs[i] == cfg1;
      var j :| 0 <= j < |cfgs| && cfgs[j] == cfg2;
      assert i == j;
    }
    assert WellFormedAt(backends, key1) && WellFormedAt(backends, key2);
    var dst1 :| key1 == BackendKeyText(backends[key1].serviceKey, dst1) && !HasArrow(dst1);
    var dst2 :| key2 == BackendKeyText(backends[key2].serviceKey, dst2) && !HasArrow(dst2);
    ExtractUndoesJoin(backends[key1].serviceKey, dst1);
    ExtractUndoesJoin(backends[key2].serviceKey, dst2);
  }
}
