/** Health checking: consecutive-result counters, thresholds and target tracking (pkg/healthcheck/manager.go). */
module Health {
  import opened Wrappers
  import opened Config
  import opened LastWins

  datatype ServiceCheck = ServiceCheck(failCount: nat, riseCount: nat, enabled: bool)

  /** The state of one backend, and the thresholds its check was started with: the check keeps using these. */
  datatype BackendStatus = BackendStatus(consecutiveFails: nat, consecutiveOK: nat, healthy: bool, check: ServiceCheck)

  function Started(check: ServiceCheck): BackendStatus {
    BackendStatus(0, 0, true, check)
  }

  function AfterResult(st: BackendStatus, ok: bool, check: ServiceCheck): BackendStatus {
    if ok then
      BackendStatus(0, st.consecutiveOK + 1, st.healthy || st.consecutiveOK + 1 >= check.riseCount, st.check)
    else
      BackendStatus(st.consecutiveFails + 1, 0, st.healthy && st.consecutiveFails + 1 < check.failCount, st.check)
  }

  function CheckOf(cfg: ServiceConfig): ServiceCheck {
    if cfg.healthCheck.IsEnabled() then
      ServiceCheck(cfg.healthCheck.GetFailCount(), cfg.healthCheck.GetRiseCount(), true)
    else
      ServiceCheck(0, 0, false)
  }

  function NamedChecks(cfgs: seq<ServiceConfig>): (entries: seq<(string, ServiceCheck)>)
    ensures |entries| == |cfgs| && forall i | 0 <= i < |cfgs| :: entries[i] == (cfgs[i].name, CheckOf(cfgs[i]))
  {
    seq(|cfgs|, i requires 0 <= i < |cfgs| => (cfgs[i].name, CheckOf(cfgs[i])))
  }

  type Statuses = map<string, BackendStatus>

  /** A backend nobody tracks counts as healthy. */
  predicate HealthyIn(statuses: Statuses, address: string) {
    address !in statuses || statuses[address].healthy
  }

  /** One of the first `n` backends has this address. */
  predicate ListsUpTo(cfg: ServiceConfig, n: nat, address: string)
    requires n <= |cfg.backends|
  {
    exists j :: 0 <= j < n && cfg.backends[j].address == address
  }

  predicate Lists(cfg: ServiceConfig, address: string) {
    ListsUpTo(cfg, |cfg.backends|, address)
  }

  function Addresses(cfg: ServiceConfig): (addresses: set<string>)
    ensures forall a :: a in addresses <==> Lists(cfg, a)
  {
    set j | 0 <= j < |cfg.backends| :: cfg.backends[j].address
  }

  /** Some service among the first `n`, health-checked or not as `enabled` says, lists the address. */
  ghost predicate ListedBy(cfgs: seq<ServiceConfig>, n: nat, enabled: bool, address: string)
    requires n <= |cfgs|
  {
    exists i :: 0 <= i < n && cfgs[i].healthCheck.IsEnabled() == enabled && Lists(cfgs[i], address)
  }

  ghost predicate ListedAtAll(cfgs: seq<ServiceConfig>, n: nat, address: string)
    requires n <= |cfgs|
  {
    ListedBy(cfgs, n, true, address) || ListedBy(cfgs, n, false, address)
  }

  type Checks = map<string, ServiceCheck>

  function StatusOf(statuses: Statuses, address: string): Option<BackendStatus> {
    if address in statuses then Some(statuses[address]) else None
  }

  /** The service was health-checked until now and is no more. */
  predicate SwitchesOff(known: Checks, cfg: ServiceConfig) {
    !cfg.healthCheck.IsEnabled() && cfg.name in known && known[cfg.name].enabled
  }

  /**
   What one service does to the status of one address: a health-checked one starts the check of a backend that has
   none, one whose checks are switched off drops its backends, and any other does nothing.
   */
  function AfterService(known: Checks, cfg: ServiceConfig, st: Option<BackendStatus>, address: string)
    : Option<BackendStatus>
  {
    if !Lists(cfg, address) then st
    else if cfg.healthCheck.IsEnabled() then (if st.Some? then st else Some(Started(CheckOf(cfg))))
    else if SwitchesOff(known, cfg) then None
    else st
  }

  ghost predicate ServiceTargeted(cfg: ServiceConfig, known: Checks, before: Statuses, after: Statuses) {
    forall a :: StatusOf(after, a) == AfterService(known, cfg, StatusOf(before, a), a)
  }

  /** The checks known when the first `n` services have been looked at. */
  function KnownAfter(known: Checks, cfgs: seq<ServiceConfig>, n: nat): Checks
    requires n <= |cfgs|
  {
    known + TableUpTo(NamedChecks(cfgs), n)
  }

  /** The status of an address when the first `n` services have been looked at, one after the other. */
  ghost function AfterServices(cfgs: seq<ServiceConfig>, n: nat, known: Checks, st: Option<BackendStatus>,
    address: string): Option<BackendStatus>
    requires n <= |cfgs|
  {
    if n == 0 then st else
      var before := AfterServices(cfgs, n - 1, known, st, address);
      AfterService(KnownAfter(known, cfgs, n - 1), cfgs[n - 1], before, address)
  }

  /** A service among the first `n` that lists the address has its checks switched off. */
  ghost predicate SwitchedOff(cfgs: seq<ServiceConfig>, n: nat, known: Checks, address: string)
    requires n <= |cfgs|
  {
    exists i :: 0 <= i < n && Lists(cfgs[i], address) && SwitchesOff(KnownAfter(known, cfgs, i), cfgs[i])
  }

  /** Service `i` is the first health-checked one that lists the address. */
  ghost predicate FirstChecker(cfgs: seq<ServiceConfig>, i: nat, a: string) {
    && i < |cfgs| && cfgs[i].healthCheck.IsEnabled() && Lists(cfgs[i], a)
    && !ListedBy(cfgs, i, true, a)
  }

  /** The check was started for a service among the first `n`. */
  ghost predicate StartedFor(cfgs: seq<ServiceConfig>, n: nat, a: string, st: BackendStatus)
    requires n <= |cfgs|
  {
    exists i :: 0 <= i < n && cfgs[i].healthCheck.IsEnabled() && Lists(cfgs[i], a) && st == Started(CheckOf(cfgs[i]))
  }

  ghost predicate TargetsAfter(cfgs: seq<ServiceConfig>, n: nat, known: Checks, before: Statuses, now: Statuses)
    requires n <= |cfgs|
  {
    forall a :: StatusOf(now, a) == AfterServices(cfgs, n, known, StatusOf(before, a), a)
  }

  /** What an update of the targets makes of the status of one address: the services in turn, then what none lists. */
  ghost function TargetOf(cfgs: seq<ServiceConfig>, known: Checks, st: Option<BackendStatus>, address: string)
    : Option<BackendStatus>
  {
    if ListedAtAll(cfgs, |cfgs|, address) then AfterServices(cfgs, |cfgs|, known, st, address) else None
  }

  /** The statuses after an update of the targets, `known` being the checks known before. */
  ghost predicate Targeted(cfgs: seq<ServiceConfig>, known: Checks, before: Statuses, after: Statuses) {
    forall a :: StatusOf(after, a) == TargetOf(cfgs, known, StatusOf(before, a), a)
  }

  /** A status is an old one or was started for a health-checked service listing the address. */
  lemma {:induction false} StatusOrigin(cfgs: seq<ServiceConfig>, n: nat, known: Checks, st: Option<BackendStatus>,
    a: string)
    requires n <= |cfgs|
    ensures var now := AfterServices(cfgs, n, known, st, a); now.None? || now == st || StartedFor(cfgs, n, a, now.value)
  {
    if n > 0 {
      StatusOrigin(cfgs, n - 1, known, st, a);
      var before := AfterServices(cfgs, n - 1, known, st, a);
      if before.Some? && StartedFor(cfgs, n - 1, a, before.value) {
        assert StartedFor(cfgs, n, a, before.value);
      }
    }
  }

  /**
   Listed with health checks only, a backend keeps its status and thresholds if it was tracked, and else starts with
   those of the first service listing it.
   */
  lemma {:induction false} CheckedTargets(cfgs: seq<ServiceConfig>, n: nat, known: Checks, st: Option<BackendStatus>,
    a: string, i: nat)
    requires n <= |cfgs| && !ListedBy(cfgs, n, false, a)
    ensures var now := AfterServices(cfgs, n, known, st, a);
      && (st.Some? || !ListedBy(cfgs, n, true, a) ==> now == st)
      && (st.None? && i < n && FirstChecker(cfgs, i, a) ==> now == Some(Started(CheckOf(cfgs[i]))))
  {
    if n > 0 {
      CheckedTargets(cfgs, n - 1, known, st, a, i);
      ListedByStep(cfgs, n - 1, a);
    }
  }

  /** Listed without health checks only, it stays tracked exactly if no service listing it was switched off. */
  lemma {:induction false} UncheckedInTurn(cfgs: seq<ServiceConfig>, n: nat, known: Checks, st: Option<BackendStatus>,
    a: string)
    requires n <= |cfgs| && !ListedBy(cfgs, n, true, a)
    ensures AfterServices(cfgs, n, known, st, a) == if SwitchedOff(cfgs, n, known, a) then None else st
  {
    if n > 0 {
      ListedByStep(cfgs, n - 1, a);
      UncheckedInTurn(cfgs, n - 1, known, st, a);
      SwitchedOffStep(cfgs, n - 1, known, a);
    }
  }

  lemma SwitchedOffStep(cfgs: seq<ServiceConfig>, i: nat, known: Checks, a: string)
    requires i < |cfgs|
    ensures SwitchedOff(cfgs, i + 1, known, a) <==>
      SwitchedOff(cfgs, i, known, a) || (Lists(cfgs[i], a) && SwitchesOff(KnownAfter(known, cfgs, i), cfgs[i]))
  {
  }

  lemma SwitchesOffAtOnce(cfgs: seq<ServiceConfig>, i: nat, known: Checks)
    requires i < |cfgs| && UniqueNames(cfgs)
    ensures SwitchesOff(KnownAfter(known, cfgs, i), cfgs[i]) <==> SwitchesOff(known, cfgs[i])
  {
    TableMeaning(NamedChecks(cfgs), i);
  }

  /** A service listing the address, known as health-checked, is so no more. */
  ghost predicate Dropped(cfgs: seq<ServiceConfig>, known: Checks, address: string) {
    exists i :: 0 <= i < |cfgs| && Lists(cfgs[i], address)
      && cfgs[i].healthCheck.enabled == Some(false) && cfgs[i].name in known && known[cfgs[i].name].enabled
  }

  lemma DroppedIffSwitchedOff(cfgs: seq<ServiceConfig>, known: Checks, a: string)
    requires UniqueNames(cfgs)
    ensures SwitchedOff(cfgs, |cfgs|, known, a) <==> Dropped(cfgs, known, a)
  {
    if i :| 0 <= i < |cfgs| && Lists(cfgs[i], a) && SwitchesOff(known, cfgs[i]) {
      SwitchesOffAtOnce(cfgs, i, known);
    }
    if i :| 0 <= i < |cfgs| && Lists(cfgs[i], a) && SwitchesOff(KnownAfter(known, cfgs, i), cfgs[i]) {
      SwitchesOffAtOnce(cfgs, i, known);
    }
  }

  /**
   Backends listed without health checks only, under unique service names: they stop being tracked, and so count as
   healthy at once, exactly if one of their services was known as health-checked; otherwise their status stays.
   */
  lemma UncheckedTargets(cfgs: seq<ServiceConfig>, known: Checks, before: Statuses, after: Statuses, a: string)
    requires Targeted(cfgs, known, before, after) && UniqueNames(cfgs)
    requires ListedBy(cfgs, |cfgs|, false, a) && !ListedBy(cfgs, |cfgs|, true, a)
    ensures StatusOf(after, a) == if Dropped(cfgs, known, a) then None else StatusOf(before, a)
    ensures Dropped(cfgs, known, a) ==> HealthyIn(after, a)
  {
    UncheckedInTurn(cfgs, |cfgs|, known, StatusOf(before, a), a);
    DroppedIffSwitchedOff(cfgs, known, a);
    assert StatusOf(after, a) == TargetOf(cfgs, known, StatusOf(before, a), a);
  }

  /** The configuration lists the address, and only for services with health checks. */
  ghost predicate OnlyChecked(cfgs: seq<ServiceConfig>, a: string) {
    ListedBy(cfgs, |cfgs|, true, a) && !ListedBy(cfgs, |cfgs|, false, a)
  }

  /** Such a backend keeps its status in an update, or starts with the thresholds of the first service listing it. */
  lemma UpdateKeeps(cfgs: seq<ServiceConfig>, known: Checks, before: Statuses, after: Statuses, a: string, i: nat)
    requires Targeted(cfgs, known, before, after) && OnlyChecked(cfgs, a)
    ensures a in before ==> a in after && after[a] == before[a]
    ensures a !in before && FirstChecker(cfgs, i, a) ==> a in after && after[a] == Started(CheckOf(cfgs[i]))
  {
    CheckedTargets(cfgs, |cfgs|, known, StatusOf(before, a), a, i);
    assert StatusOf(after, a) == TargetOf(cfgs, known, StatusOf(before, a), a);
  }

  /** The statuses after an update are determined. */
  lemma TargetsExist(cfgs: seq<ServiceConfig>, known: Checks, before: Statuses) returns (after: Statuses)
    ensures Targeted(cfgs, known, before, after)
  {
    var addresses := set i, j | 0 <= i < |cfgs| && 0 <= j < |cfgs[i].backends| :: cfgs[i].backends[j].address;
    after := map a | a in addresses && TargetOf(cfgs, known, StatusOf(before, a), a).Some?
      :: TargetOf(cfgs, known, StatusOf(before, a), a).value;
    forall a | a !in addresses ensures !ListedAtAll(cfgs, |cfgs|, a) {
    }
  }

  /** A status after the update is an old one or was started by it. */
  lemma TargetOrigin(cfgs: seq<ServiceConfig>, known: Checks, before: Statuses, after: Statuses, a: string)
    requires Targeted(cfgs, known, before, after) && a in after
    ensures ListedAtAll(cfgs, |cfgs|, a)
    ensures (a in before && after[a] == before[a]) || StartedFor(cfgs, |cfgs|, a, after[a])
  {
    StatusOrigin(cfgs, |cfgs|, known, StatusOf(before, a), a);
    assert StatusOf(after, a) == TargetOf(cfgs, known, StatusOf(before, a), a);
  }

  /** `names` and `services` when the first `n` services have been looked at. */
  ghost predicate ChecksAfter(cfgs: seq<ServiceConfig>, n: nat, known: Checks, names: set<string>, services: Checks)
    requires n <= |cfgs|
  {
    names == TableUpTo(NamedChecks(cfgs), n).Keys && services == KnownAfter(known, cfgs, n)
  }

  lemma ChecksStep(cfgs: seq<ServiceConfig>, i: nat, known: Checks, names: set<string>, before: Checks, after: Checks)
    requires i < |cfgs| && ChecksAfter(cfgs, i, known, names, before)
    requires after == before[cfgs[i].name := CheckOf(cfgs[i])]
    ensures ChecksAfter(cfgs, i + 1, known, names + {cfgs[i].name}, after)
  {
  }

  /** The addresses seen when the first `n` services have been looked at. */
  ghost predicate AddressesAfter(cfgs: seq<ServiceConfig>, n: nat, addresses: set<string>)
    requires n <= |cfgs|
  {
    forall a :: a in addresses <==> ListedAtAll(cfgs, n, a)
  }

  lemma AddressesStep(cfgs: seq<ServiceConfig>, i: nat, addresses: set<string>)
    requires i < |cfgs| && AddressesAfter(cfgs, i, addresses)
    ensures AddressesAfter(cfgs, i + 1, addresses + Addresses(cfgs[i]))
  {
    var n: nat := i + 1;
    forall a ensures ListedAtAll(cfgs, n, a) <==> ListedAtAll(cfgs, i, a) || Lists(cfgs[i], a) {
      ListedByStep(cfgs, i, a);
    }
  }

  lemma {:induction false} FirstCheckerExists(cfgs: seq<ServiceConfig>, n: nat, a: string)
    requires n <= |cfgs| && ListedBy(cfgs, n, true, a)
    ensures exists i :: 0 <= i < n && FirstChecker(cfgs, i, a)
  {
    ListedByStep(cfgs, n - 1, a);
    if ListedBy(cfgs, n - 1, true, a) {
      FirstCheckerExists(cfgs, n - 1, a);
    } else {
      assert FirstChecker(cfgs, n - 1, a);
    }
  }

  lemma TargetsStep(cfgs: seq<ServiceConfig>, i: nat, known: Checks, before: Statuses, now: Statuses, after: Statuses)
    requires i < |cfgs| && TargetsAfter(cfgs, i, known, before, now)
    requires ServiceTargeted(cfgs[i], KnownAfter(known, cfgs, i), now, after)
    ensures TargetsAfter(cfgs, i + 1, known, before, after)
  {
    var n: nat := i + 1;
    forall a ensures StatusOf(after, a) == AfterServices(cfgs, n, known, StatusOf(before, a), a) {
      assert StatusOf(now, a) == AfterServices(cfgs, i, known, StatusOf(before, a), a);
    }
  }

  /** Forgetting what no service lists. */
  lemma ForgetTargets(cfgs: seq<ServiceConfig>, known: Checks, before: Statuses, now: Statuses,
    addresses: set<string>, after: Statuses)
    requires TargetsAfter(cfgs, |cfgs|, known, before, now) && AddressesAfter(cfgs, |cfgs|, addresses)
    requires after == map a | a in now && a in addresses :: now[a]
    ensures Targeted(cfgs, known, before, after)
  {
    forall a ensures StatusOf(after, a) == TargetOf(cfgs, known, StatusOf(before, a), a) {
      assert StatusOf(now, a) == AfterServices(cfgs, |cfgs|, known, StatusOf(before, a), a);
    }
  }

  class Manager {
    var services: Checks
    var statuses: Statuses
    /** How often onChange was called. */
    var notifications: nat

    constructor ()
      ensures services == map[] && statuses == map[] && notifications == 0
    {
      services, statuses, notifications := map[], map[], 0;
    }

    predicate IsHealthy(address: string)
      reads this
    {
      HealthyIn(statuses, address)
    }

    /** One check result: the counters move, and onChange is called exactly when the verdict flips. */
    method HandleCheckResult(address: string, ok: bool, check: ServiceCheck)
      modifies this`statuses, this`notifications
      ensures address !in old(statuses) ==> statuses == old(statuses) && notifications == old(notifications)
      ensures address in old(statuses) ==>
        && statuses == old(statuses)[address := AfterResult(old(statuses)[address], ok, check)]
        && notifications == old(notifications) + (if old(IsHealthy(address)) != IsHealthy(address) then 1 else 0)
    {
      if address !in statuses {
        return;
      }
      var status := statuses[address];
      var previouslyHealthy := status.healthy;
      if !ok {
        status := status.(consecutiveFails := status.consecutiveFails + 1, consecutiveOK := 0);
        if status.healthy && status.consecutiveFails >= check.failCount {
          status := status.(healthy := false);
        }
      } else {
        status := status.(consecutiveOK := status.consecutiveOK + 1, consecutiveFails := 0);
        if !status.healthy && status.consecutiveOK >= check.riseCount {
          status := status.(healthy := true);
        }
      }
      statuses := statuses[address := status];
      if previouslyHealthy != status.healthy {
        notifications := notifications + 1;
      }
    }

    /** One tick of the check that runs for a tracked backend: it uses the thresholds it was started with. */
    method CheckTick(address: string, ok: bool)
      requires address in statuses
      modifies this`statuses, this`notifications
      ensures var st := old(statuses)[address]; statuses == old(statuses)[address := AfterResult(st, ok, st.check)]
      ensures notifications == old(notifications) + (if old(IsHealthy(address)) != IsHealthy(address) then 1 else 0)
    {
      HandleCheckResult(address, ok, statuses[address].check);
    }

    /** Stops the checks of a service that is no longer health-checked. */
    method StopServiceBackends(cfg: ServiceConfig)
      modifies this`statuses
      ensures forall a :: a in statuses <==> a in old(statuses) && !Lists(cfg, a)
      ensures forall a | a in statuses :: statuses[a] == old(statuses)[a]
    {
      for j := 0 to |cfg.backends|
        invariant forall a :: a in statuses <==> a in old(statuses) && !ListsUpTo(cfg, j, a)
        invariant forall a | a in statuses :: statuses[a] == old(statuses)[a]
      {
        statuses := statuses - {cfg.backends[j].address};
      }
    }

    /** Starts a check, initially healthy, for every backend of a health-checked service that has none. */
    method StartServiceBackends(cfg: ServiceConfig, check: ServiceCheck)
      modifies this`statuses
      ensures forall a :: a in statuses <==> a in old(statuses) || Lists(cfg, a)
      ensures forall a | a in statuses :: statuses[a] == if a in old(statuses) then old(statuses)[a] else Started(check)
    {
      for j := 0 to |cfg.backends|
        invariant forall a :: a in statuses <==> a in old(statuses) || ListsUpTo(cfg, j, a)
        invariant forall a | a in statuses ::
          statuses[a] == if a in old(statuses) then old(statuses)[a] else Started(check)
      {
        if cfg.backends[j].address !in statuses {
          statuses := statuses[cfg.backends[j].address := Started(check)];
        }
      }
    }

    /** One turn of the first loop of UpdateTargets. */
    method TargetService(cfg: ServiceConfig)
      modifies this`services, this`statuses
      ensures services == old(services)[cfg.name := CheckOf(cfg)]
      ensures ServiceTargeted(cfg, old(services), old(statuses), statuses)
    {
      if !cfg.healthCheck.IsEnabled() {
        if cfg.name in services && services[cfg.name].enabled {
          StopServiceBackends(cfg);
        }
        services := services[cfg.name := ServiceCheck(0, 0, false)];
      } else {
        var check := ServiceCheck(cfg.healthCheck.GetFailCount(), cfg.healthCheck.GetRiseCount(), true);
        services := services[cfg.name := check];
        StartServiceBackends(cfg, check);
      }
    }

    /** UpdateTargets brings the checks that run, and the list of services, in line with a configuration. */
    method UpdateTargets(cfgs: seq<ServiceConfig>)
      modifies this`services, this`statuses
      ensures Targeted(cfgs, old(services), old(statuses), statuses)
      ensures services == Table(NamedChecks(cfgs))
    {
      var names: set<string> := {};
      var addresses: set<string> := {};
      ghost var before, known0 := statuses, services;
      for i := 0 to |cfgs|
        invariant ChecksAfter(cfgs, i, known0, names, services) && AddressesAfter(cfgs, i, addresses)
        invariant TargetsAfter(cfgs, i, known0, before, statuses)
      {
        var cfg := cfgs[i];
        ghost var now, known := statuses, services;
        TargetService(cfg);
        ChecksStep(cfgs, i, known0, names, known, services);
        AddressesStep(cfgs, i, addresses);
        names := names + {cfg.name};
        addresses := addresses + Addresses(cfg);
        TargetsStep(cfgs, i, known0, before, now, statuses);
      }
      ghost var now := statuses;
      Forget(names, addresses);
      ForgetTargets(cfgs, known0, before, now, addresses, statuses);
    }

    /** The last two loops of UpdateTargets: what is no longer configured is forgotten. */
    method Forget(names: set<string>, addresses: set<string>)
      modifies this`services, this`statuses
      ensures services == map name | name in old(services) && name in names :: old(services)[name]
      ensures statuses == map a | a in old(statuses) && a in addresses :: old(statuses)[a]
    {
      services := map name | name in services && name in names :: services[name];
      statuses := map a | a in statuses && a in addresses :: statuses[a];
    }
  }

  lemma ListedByStep(cfgs: seq<ServiceConfig>, i: nat, a: string)
    requires i < |cfgs|
    ensures forall enabled :: ListedBy(cfgs, i + 1, enabled, a) <==>
      ListedBy(cfgs, i, enabled, a) || (cfgs[i].healthCheck.IsEnabled() == enabled && Lists(cfgs[i], a))
  {
  }
}
