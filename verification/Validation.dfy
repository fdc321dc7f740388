/** Validation of a configuration, and its replacement on reload (pkg/config/config.go). */
module Validation {
  import opened Wrappers
  import opened Config

  const MIN_INTERVAL: int := 5_000_000_000

  /** Why a service is rejected, in the order the checks are made. */
  datatype Reason = Name | Listen | Protocol | DuplicateListen | Scheduler | HealthCheck | Snat | Backends {
    function Rank(): nat {
      match this
      case Name => 0
      case Listen => 1
      case Protocol => 2
      case DuplicateListen => 3
      case Scheduler => 4
      case HealthCheck => 5
      case Snat => 6
      case Backends => 7
    }
  }

  datatype ConfigError = LogLevel | TrafficInterval | NoServices | Rejected(service: nat, reason: Reason)

  function EffectiveProtocol(svc: ServiceConfig): string {
    if svc.protocol == "" then "tcp" else svc.protocol
  }

  function Defaulted(svc: ServiceConfig): ServiceConfig {
    svc.(protocol := EffectiveProtocol(svc))
  }

  function ListenId(svc: ServiceConfig): string {
    svc.listen + "/" + EffectiveProtocol(svc)
  }

  /** "host:port" with an IP address as host and something other than nothing or "0" as port. */
  predicate AddressOK(lib: Lib, address: string) {
    match lib.splitHostPort(address)
    case None => false
    case Some((host, port)) => lib.parseIP(host).Some? && port != "" && port != "0"
  }

  predicate DurationOK(lib: Lib, text: string) {
    text == "" || lib.parseDuration(text).Some?
  }

  predicate HealthCheckOK(lib: Lib, h: HealthCheckConfig) {
    h.IsEnabled() ==>
      && DurationOK(lib, h.interval) && DurationOK(lib, h.timeout)
      && h.GetType() in {"tcp", "http", "udp"}
      && (h.GetType() == "http" ==>
            && (h.httpPath == "" || h.httpPath[0] == '/')
            && (h.httpExpectedStatus == 0 || 100 <= h.httpExpectedStatus <= 599))
  }

  predicate SnatOK(lib: Lib, svc: ServiceConfig) {
    svc.snatIP == "" || (svc.fullNAT && lib.parseIP(svc.snatIP).Some?)
  }

  predicate BackendOK(lib: Lib, backends: seq<BackendConfig>, j: nat)
    requires j < |backends|
  {
    && backends[j].address != "" && AddressOK(lib, backends[j].address) && backends[j].weight > 0
    && forall j' | 0 <= j' < j :: backends[j'].address != backends[j].address
  }

  predicate BackendsOK(lib: Lib, backends: seq<BackendConfig>) {
    backends != [] && forall j | 0 <= j < |backends| :: BackendOK(lib, backends, j)
  }

  /** Service `i` passes the checks for this reason. */
  predicate Passes(lib: Lib, services: seq<ServiceConfig>, i: nat, reason: Reason)
    requires i < |services|
  {
    var svc := services[i];
    match reason
    case Name => svc.name != "" && forall j | 0 <= j < i :: services[j].name != svc.name
    case Listen => AddressOK(lib, svc.listen)
    case Protocol => EffectiveProtocol(svc) in {"tcp", "udp"}
    case DuplicateListen => forall j | 0 <= j < i :: ListenId(services[j]) != ListenId(svc)
    case Scheduler => svc.scheduler in {"rr", "wrr", "lc", "wlc", "dh", "sh"}
    case HealthCheck => HealthCheckOK(lib, svc.healthCheck)
    case Snat => SnatOK(lib, svc)
    case Backends => BackendsOK(lib, svc.backends)
  }

  ghost predicate ServiceOK(lib: Lib, services: seq<ServiceConfig>, i: nat)
    requires i < |services|
  {
    forall reason :: Passes(lib, services, i, reason)
  }

  predicate LogLevelOK(level: string) {
    level in {"", "debug", "info", "warn", "error"}
  }

  predicate IntervalOK(lib: Lib, interval: string) {
    interval != "" ==> lib.parseDuration(interval).Some? && lib.parseDuration(interval).value >= MIN_INTERVAL
  }

  predicate GlobalOK(lib: Lib, cfg: Config) {
    LogLevelOK(cfg.logLevel) && IntervalOK(lib, cfg.trafficInterval)
  }

  ghost predicate Valid(lib: Lib, cfg: Config) {
    GlobalOK(lib, cfg) && cfg.services != [] && forall i | 0 <= i < |cfg.services| :: ServiceOK(lib, cfg.services, i)
  }

  /** The conditions on one service in full. */
  lemma ServiceSpelledOut(lib: Lib, services: seq<ServiceConfig>, i: nat)
    requires i < |services|
    ensures ServiceOK(lib, services, i) <==>
      var svc := services[i];
      var health, protocol := svc.healthCheck, if svc.protocol == "" then "tcp" else svc.protocol;
      && svc.name != "" && protocol in {"tcp", "udp"} && svc.scheduler in {"rr", "wrr", "lc", "wlc", "dh", "sh"}
      && (match lib.splitHostPort(svc.listen)
          case None => false
          case Some((host, port)) => lib.parseIP(host).Some? && port != "" && port != "0")
      && (forall j | 0 <= j < i ::
            && services[j].name != svc.name
            && services[j].listen + "/" + (if services[j].protocol == "" then "tcp" else services[j].protocol) !=
               svc.listen + "/" + protocol)
      && (health.enabled == Some(false) ||
          (&& (health.interval == "" || lib.parseDuration(health.interval).Some?)
           && (health.timeout == "" || lib.parseDuration(health.timeout).Some?)
           && health.checkType in {"", "tcp", "udp", "http"}
           && (health.checkType == "http" ==>
                 && (health.httpPath == "" || health.httpPath[0] == '/')
                 && (health.httpExpectedStatus == 0 || 100 <= health.httpExpectedStatus <= 599))))
      && (svc.snatIP == "" || (svc.fullNAT && lib.parseIP(svc.snatIP).Some?))
      && svc.backends != []
      && (forall j | 0 <= j < |svc.backends| ::
            && svc.backends[j].weight > 0
            && (match lib.splitHostPort(svc.backends[j].address)
                case None => false
                case Some((host, port)) => lib.parseIP(host).Some? && port != "" && port != "0"))
      && (forall j | 0 <= j < |svc.backends| :: svc.backends[j].address != "")
      && (forall j, j' | 0 <= j' < j < |svc.backends| :: svc.backends[j'].address != svc.backends[j].address)
  {
    assert ServiceOK(lib, services, i) <==>
        && Passes(lib, services, i, Name) && Passes(lib, services, i, Listen) && Passes(lib, services, i, Protocol)
        && Passes(lib, services, i, DuplicateListen) && Passes(lib, services, i, Scheduler)
        && Passes(lib, services, i, HealthCheck) && Passes(lib, services, i, Snat)
        && Passes(lib, services, i, Backends);
    BackendsSpelledOut(lib, services[i].backends);
  }

  lemma BackendsSpelledOut(lib: Lib, backends: seq<BackendConfig>)
    ensures BackendsOK(lib, backends) <==>
      && backends != []
      && (forall j | 0 <= j < |backends| ::
            && backends[j].weight > 0
            && (match lib.splitHostPort(backends[j].address)
                case None => false
                case Some((host, port)) => lib.parseIP(host).Some? && port != "" && port != "0"))
      && (forall j | 0 <= j < |backends| :: backends[j].address != "")
      && (forall j, j' | 0 <= j' < j < |backends| :: backends[j'].address != backends[j].address)
  {
    if BackendsOK(lib, backends) {
      forall j | 0 <= j < |backends|
        ensures backends[j].weight > 0 && backends[j].address != "" && AddressOK(lib, backends[j].address)
        ensures forall j' | 0 <= j' < j :: backends[j'].address != backends[j].address
      {
        assert BackendOK(lib, backends, j);
      }
    }
    if j :| 0 <= j < |backends| && !BackendOK(lib, backends, j) {
      assert AddressOK(lib, backends[j].address) ==> backends[j].weight > 0 && backends[j].address != "" ==>
        exists j' :: 0 <= j' < j && backends[j'].address == backends[j].address;
    }
  }

  /** And the conditions on the rest: traffic is read every five seconds at most. */
  lemma ValidSpelledOut(lib: Lib, cfg: Config)
    ensures Valid(lib, cfg) <==>
      && cfg.logLevel in {"", "debug", "info", "warn", "error"}
      && (cfg.trafficInterval == "" ||
          (lib.parseDuration(cfg.trafficInterval).Some? &&
           lib.parseDuration(cfg.trafficInterval).value >= 5_000_000_000))
      && cfg.services != [] && forall i | 0 <= i < |cfg.services| :: ServiceOK(lib, cfg.services, i)
  {
  }

  /** Service `i` is the first that is rejected, and this the first check it fails. */
  ghost predicate FirstRejection(lib: Lib, services: seq<ServiceConfig>, i: nat, reason: Reason) {
    && i < |services| && !Passes(lib, services, i, reason)
    && (forall r: Reason | r.Rank() < reason.Rank() :: Passes(lib, services, i, r))
    && (forall j | 0 <= j < i :: ServiceOK(lib, services, j))
  }

  method CheckHealth(lib: Lib, h: HealthCheckConfig) returns (ok: bool)
    ensures ok == HealthCheckOK(lib, h)
  {
    if !h.IsEnabled() {
      return true;
    }
    if h.interval != "" && lib.parseDuration(h.interval).None? {
      return false;
    }
    if h.timeout != "" && lib.parseDuration(h.timeout).None? {
      return false;
    }
    var checkType := h.GetType();
    if checkType != "tcp" && checkType != "http" && checkType != "udp" {
      return false;
    }
    if checkType == "http" {
      if h.httpPath != "" && h.httpPath[0] != '/' {
        return false;
      }
      if h.httpExpectedStatus != 0 && (h.httpExpectedStatus < 100 || h.httpExpectedStatus > 599) {
        return false;
      }
    }
    ok := true;
  }

  method CheckBackends(lib: Lib, backends: seq<BackendConfig>) returns (ok: bool)
    ensures ok == BackendsOK(lib, backends)
  {
    if |backends| == 0 {
      return false;
    }
    var backendSet: set<string> := {};
    for j := 0 to |backends|
      invariant forall a :: a in backendSet <==> exists j' :: 0 <= j' < j && backends[j'].address == a
      invariant forall j' | 0 <= j' < j :: BackendOK(lib, backends, j')
    {
      var backend := backends[j];
      if || backend.address == "" || !AddressOK(lib, backend.address)
         || backend.address in backendSet || backend.weight <= 0
      {
        assert !BackendOK(lib, backends, j);
        return false;
      }
      backendSet := backendSet + {backend.address};
    }
    ok := true;
  }

  /** `names` and `listens` are the names and listen addresses of the first `i` services. */
  ghost predicate SeenSoFar(given: seq<ServiceConfig>, i: nat, names: set<string>, listens: set<string>)
    requires i <= |given|
  {
    && (forall n :: n in names <==> exists j :: 0 <= j < i && given[j].name == n)
    && (forall l :: l in listens <==> exists j :: 0 <= j < i && ListenId(given[j]) == l)
  }

  /** The first `i` services have been accepted, and filled in; the others are as given. */
  ghost predicate AcceptedUpTo(lib: Lib, given: seq<ServiceConfig>, i: nat, now: seq<ServiceConfig>)
    requires i <= |given| == |now|
  {
    && (forall j | 0 <= j < i :: now[j] == Defaulted(given[j]) && ServiceOK(lib, given, j))
    && (forall j | i <= j < |now| :: now[j] == given[j])
  }

  lemma AcceptedMore(lib: Lib, given: seq<ServiceConfig>, i: nat, before: seq<ServiceConfig>, now: seq<ServiceConfig>)
    requires i < |given| == |before| == |now| && AcceptedUpTo(lib, given, i, before) && ServiceOK(lib, given, i)
    requires now == before[i := Defaulted(given[i])]
    ensures AcceptedUpTo(lib, given, i + 1, now)
  {
  }

  lemma SeenMore(given: seq<ServiceConfig>, i: nat, names: set<string>, listens: set<string>)
    requires i < |given| && SeenSoFar(given, i, names, listens)
    ensures SeenSoFar(given, i + 1, names + {given[i].name}, listens + {ListenId(given[i])})
  {
  }

  /** The checks of one service; its protocol is filled in once its address has been accepted. */
  method CheckService(lib: Lib, services: array<ServiceConfig>, i: nat, names: set<string>, listens: set<string>,
    ghost given: seq<ServiceConfig>) returns (r: Option<Reason>)
    requires i < services.Length == |given| && services[i] == given[i] && SeenSoFar(given, i, names, listens)
    modifies services
    ensures r.None? ==> ServiceOK(lib, given, i)
    ensures r.Some? ==> !Passes(lib, given, i, r.value)
    ensures r.Some? ==> forall p: Reason | p.Rank() < r.value.Rank() :: Passes(lib, given, i, p)
    ensures forall j | 0 <= j < services.Length && j != i :: services[j] == old(services[j])
    ensures services[i] == if r.Some? && r.value.Rank() < Protocol.Rank() then given[i] else Defaulted(given[i])
  {
    var svc := services[i];
    if svc.name == "" || svc.name in names {
      return Some(Name);
    }
    if !AddressOK(lib, svc.listen) {
      return Some(Listen);
    }
    var protocol := svc.protocol;
    if protocol == "" {
      services[i] := services[i].(protocol := "tcp");
      protocol := "tcp";
    }
    if protocol !in {"tcp", "udp"} {
      return Some(Protocol);
    }
    if svc.listen + "/" + protocol in listens {
      return Some(DuplicateListen);
    }
    if svc.scheduler !in {"rr", "wrr", "lc", "wlc", "dh", "sh"} {
      return Some(Scheduler);
    }
    var healthOK := CheckHealth(lib, svc.healthCheck);
    if !healthOK {
      return Some(HealthCheck);
    }
    if svc.snatIP != "" && (!svc.fullNAT || lib.parseIP(svc.snatIP).None?) {
      return Some(Snat);
    }
    var backendsOK := CheckBackends(lib, svc.backends);
    if !backendsOK {
      return Some(Backends);
    }
    r := None;
  }

  /**
   Validate accepts exactly the valid configurations, and otherwise reports the first failing check: of the log level,
   of the interval, of there being services, and then of the first rejected service.  Missing protocols are filled in,
   in place, for the services that were checked.
   */
  method Validate(lib: Lib, logLevel: string, trafficInterval: string, services: array<ServiceConfig>)
    returns (err: Option<ConfigError>)
    modifies services
    ensures err.None? <==> Valid(lib, Config(logLevel, trafficInterval, old(services[..])))
    ensures err == Some(LogLevel) <==> !LogLevelOK(logLevel)
    ensures err == Some(TrafficInterval) <==> LogLevelOK(logLevel) && !IntervalOK(lib, trafficInterval)
    ensures err == Some(NoServices) <==>
      LogLevelOK(logLevel) && IntervalOK(lib, trafficInterval) && services.Length == 0
    ensures err.Some? && !err.value.Rejected? ==> services[..] == old(services[..])
    ensures err.Some? && err.value.Rejected? ==>
      FirstRejection(lib, old(services[..]), err.value.service, err.value.reason)
    ensures err.None? ==> forall i | 0 <= i < services.Length :: services[i] == Defaulted(old(services[i]))
    ensures err.Some? && err.value.Rejected? ==>
      && (forall i | 0 <= i < services.Length && i < err.value.service :: services[i] == Defaulted(old(services[i])))
      && services[err.value.service] ==
         (if err.value.reason.Rank() < Protocol.Rank() then old(services[..])[err.value.service]
          else Defaulted(old(services[..])[err.value.service]))
      && (forall i | err.value.service < i < services.Length :: services[i] == old(services[i]))
  {
    if logLevel !in {"", "debug", "info", "warn", "error"} {
      return Some(LogLevel);
    }
    if trafficInterval != "" {
      var interval := lib.parseDuration(trafficInterval);
      if interval.None? || interval.value < MIN_INTERVAL {
        return Some(TrafficInterval);
      }
    }
    if services.Length == 0 {
      return Some(NoServices);
    }
    ghost var given := services[..];
    var names: set<string>, listens: set<string> := {}, {};
    for i := 0 to services.Length
      invariant SeenSoFar(given, i, names, listens)
      invariant AcceptedUpTo(lib, given, i, services[..])
    {
      ghost var before := services[..];
      var reason := CheckService(lib, services, i, names, listens, given);
      if reason.Some? {
        assert !ServiceOK(lib, given, i);
        return Some(Rejected(i, reason.value));
      }
      AcceptedMore(lib, given, i, before, services[..]);
      SeenMore(given, i, names, listens);
      names := names + {services[i].name};
      listens := listens + {services[i].listen + "/" + services[i].protocol};
    }
    err := None;
  }

  class Manager {
    const lib: Lib
    var current: Config
    /** The notification channel, of capacity one. */
    var onChange: bool

    constructor (lib: Lib, current: Config)
      ensures this.lib == lib && this.current == current && !onChange
    {
      this.lib, this.current, onChange := lib, current, false;
    }

    /** Reload keeps the configuration and says nothing unless the file could be read and is valid. */
    method Reload(parsed: Option<Config>) returns (ok: bool)
      modifies this
      ensures ok <==> parsed.Some? && Valid(lib, parsed.value)
      ensures !ok ==> current == old(current) && onChange == old(onChange)
      ensures ok ==> onChange && current == parsed.value.(services := DefaultedAll(parsed.value.services))
      ensures ok ==> forall i | 0 <= i < |current.services| :: var svc := parsed.value.services[i];
        current.services[i] == svc.(protocol := if svc.protocol == "" then "tcp" else svc.protocol)
    {
      if parsed.None? {
        return false;
      }
      var given := parsed.value.services;
      var services := new ServiceConfig[|given|](i requires 0 <= i < |given| => given[i]);
      assert services[..] == given;
      var err := Validate(lib, parsed.value.logLevel, parsed.value.trafficInterval, services);
      assert parsed.value == Config(parsed.value.logLevel, parsed.value.trafficInterval, given);
      if err.Some? {
        return false;
      }
      assert services[..] == DefaultedAll(given);
      current := Config(parsed.value.logLevel, parsed.value.trafficInterval, services[..]);
      onChange := true;
      ok := true;
    }
  }

  function DefaultedAll(services: seq<ServiceConfig>): (r: seq<ServiceConfig>)
    ensures |r| == |services| && forall i | 0 <= i < |services| :: r[i] == Defaulted(services[i])
  {
    seq(|services|, i requires 0 <= i < |services| => Defaulted(services[i]))
  }
}
