# A verified model of FastVIP

FastVIP keeps the kernel's IPVS table, a set of iptables rules, a pool of HTTP backend connections and a set of
exported counters in line with a configuration file and with the health of the configured backends. This project
models the parts of it that hold state and proves what they keep, in Dafny 4.11. `dafny verify dfyconfig.toml` checks
all of it.

## How the model is laid out

- **IPVS reconciliation.** `Reconciler` is the class of pkg/lvs/reconciler.go, working on `FakeHandle`, the in-memory
  table of pkg/lvs/ipvs_handle_fake.go. Its `faults` say what fails: any mutating call may be refused without effect,
  as a failing kernel call is, the listing of the services may fail, and that of the destinations of some services. Go's
  map order is a free choice of the next key. `Diff` defines, apart from
  any algorithm, the set of calls that separates a table from a desired state and the table that results when some of
  them have been made. `ReconcileLoops` says what a whole run is, for any spelling of the listen hosts: one turn for
  each desired service, then the deletions. `DestinationDiff`, `ServicePass` and `Pass` show that such a run works off
  the difference when the hosts are canonical; `Convergence`, `Settling` and `Ownership` say what follows for one run,
  for two runs and for whole histories.
- **What a configuration asks for.** `LvsTypes`, `DesiredState`, `Validation` and `ValidConfigs`. Health is read one
  backend at a time, so the answers need not agree with each other: they are a function of the position that was read.
- **Rules.** `Snat` (in-memory manager), `SnatLinux` and `ForwardRun` (iptables: the outcomes of the commands are an
  input, a `Scripts` script, and failures are skipped as in the code), `Packets` (what the argument lists in a chain do
  to a packet), `CrossTable` (rules against destinations).
- **Health.** `Health` (counters, targets and the thresholds each check was started with), `Hysteresis` (the verdict as
  a function of the whole trace of results), `Thresholds` (which thresholds are in force over histories of updates and
  results), `HealthProtocol` (flip, callback, non-atomic reads, serialised reconciles that may give up, as interleaved
  steps), `AtRest` (when exactly the table is up to date once everything has come to rest), `LostHealth` (a run after
  which it is not).
- **Reload.** `ReloadProtocol`: any number of reloaders, the channel of capacity one, the main loop, health callbacks.
- **Traffic.** `StatsAdapter` (reading the kernel's statistics), `Traffic` (keys and labels), `PollHistory`
  (carry-forward as a compressed history, totals, the kernel's counters), `Counters`, `PollCharges`, `Gauges`,
  `Collector`, `CollectorTotals`.
- **HTTP.** `Ledger` (the books: where every connection is), `Pool`, `Transport`, `ConnProtocol` (many requests, sweeps
  and shutdown interleaved), `Selector`.

The steps of `Ownership`, `HealthProtocol`, `Thresholds` and `ConnProtocol` are written with the predicates and
functions that appear in the postconditions of the class methods (`TableReport`, `ReconcileEffect`, `CleanupEffect`,
`SNATEffect`, `AfterResult`, `Targeted`; `Took`, `Dialled`, `Closed`, `BodyClosed`, `Sweeping` on the books), so a step
is what the method was proved to do.

Inputs that come from outside are parameters: the results of net and strconv (`Config.Lib`, arbitrary functions, so
that the theorems hold whatever they return), health answers, dial and exchange outcomes, outcomes of iptables commands,
clock readings, statistics.

## Where the code falls short of what one would expect

Each of these is a theorem below, with the exact condition where there is one.

- Service keys are taken from the listen text, while the table is keyed by the address the kernel prints. They agree
  exactly for canonically written hosts (`KeysAgreeIffCanonical`). A run without errors leaves every configured service
  in the table; the next run on the same configuration then succeeds, unless calls are refused, if and only if all
  listen hosts are canonical (`SecondRunDecides`).
- Validation compares listen texts, not keys. Listen addresses whose host and port are both written as they would be
  printed never collide, neither in the desired state nor in the kernel (`NoServiceLost`). For every listen address of
  which this is not true there is a valid configuration with a second service that the kernel cannot tell from the
  first (`OtherwiseKeysCollide`).
- Validation does not look into ports. A validated configuration can be converted under all health answers exactly if
  all its ports are numbers (`ConvertsIffPortsNumeric`); a named port can stop the reconciliation of every service.
- A health callback whose Reconcile gives up is not made up for. At rest the table is up to date whenever the
  configuration converts under the verdicts of that moment (`NoLostTransition`). From any moment without a Reconcile
  under way, if no further results come in, every way to come to rest ends up to date exactly if the configuration
  converts under the verdicts of that moment, or was up to date already (`RestIsCurrentIff`); and there always is such a
  way (`ComesToRest`). While a health-checked backend with a named port is healthy nothing is programmed at all,
  whatever flips (`EveryFlipIsLost`). A validated configuration with one named port has a run, from checks just started
  and without any failing kernel call, that comes to rest with a failed backend in the table (`TransitionGetsLost`); one
  service with two backends is enough (`LossHappens`). If all ports are numbers none of this can happen
  (`AlwaysConverts`).
- Services under a listen host that is not canonical are managed under a key the kernel does not report. A reconciler
  that brings its configuration about and then cleans up, both without errors, removes what it has brought about exactly
  if all listen hosts are canonical; otherwise a service stays with nobody managing it (`CleanupRemovesIffCanonical`).
- An error-free run leaves a service with the desired scheduler, and a destination with the desired weight, as it was:
  whatever else of the entry differs from the configuration stays so (`ConvergedEntries`).
- A running health check keeps the thresholds it was started with. A changed fail_count or rise_count takes effect only
  for backends that begin to be tracked afterwards (`FirstThresholdsStay`, `ChangedThresholdsIgnored`).
- An update of a SNAT rule whose delete succeeds and whose add fails leaves the rule tracked but not in the chain
  (`ThreeRunsLose`, `LoseRule`), and it stays out of the chain for as long as the old snat_ip is desired, however often
  Reconcile runs (`LostRuleStaysLost`, `LostRuleIsNotInChain`); packets to the backend then pass the chain as they are
  (`LostRuleDoesNothing`). `CleanReconcile` says exactly when a failure-free run ends with the desired chain.
- A health callback reads the configuration before it takes the reconciler's mutex. A stored configuration is sure to
  end up in force exactly if no callback is under way when it is stored (`NewestIffNoCallback`); otherwise the older one
  can win (`OldConfigCanWin`).
- A response body must be closed once. A second Close, whether its drain fails or not, leaves the connection in more
  than one place, or takes it from another request (`SecondCloseBreaks`).
- A counter that was away for more than 720 polls is added a second time (`LongAbsenceCountsTwice`). For every history
  of traffic, removal, revival and recreation the total is stated exactly (`ExactTotal`); of a counter that was never
  recreated it is right if and only if no restart the collector saw followed a value other than zero
  (`NeverRecreated`).
- The comment in pkg/trafficlog/collector.go says that the key built from the configuration matches
  ServiceKeyFromIPVS().String(). That text has no brackets, so statistics of a service listed as "[v6]:port" are never
  found (`StatsFoundIffPlainListen`, `BracketsAreNeverFound`). The model follows the code.
- The error text for an unsupported health_check.type in pkg/config/config.go names tcp and http only; the code also
  accepts udp, and so does the model.

## Model

| member | source | states |
|---|---|---|
| LvsTypes.Uint16 | pkg/lvs/types.go:92-96 | the low 16 bits, also of a negative number |
| LvsTypes.KeysAgreeIffCanonical | pkg/lvs/types.go:76-106 | a convertible service has a key, and it is the key of the converted IPVS service exactly if the host is written as net.IP prints it |
| LvsTypes.ConvertedService | pkg/lvs/types.go:117-151 | every field of a converted service and both its keys, or which conversion fails first |
| LvsTypes.ConvertedDestination | pkg/lvs/types.go:154-182 | the same for a destination |
| LastWins.TableMeaning | pkg/lvs/reconciler.go:241-280 | a table filled in list order holds exactly the listed keys, each with the value of its last entry |
| Diff.WantedLast | pkg/lvs/reconciler.go:298-305 | the last listed destination with a key is the one wanted under it |
| FakeHandle.Handle.NewService | pkg/lvs/ipvs_handle_fake.go:67-79 | a new service gets an empty destination table; one that exists is refused and nothing changes |
| FakeHandle.Handle.UpdateService | pkg/lvs/ipvs_handle_fake.go:81-92 | an existing service is replaced, its destinations stay; a missing one is an error |
| FakeHandle.Handle.DelService | pkg/lvs/ipvs_handle_fake.go:94-106 | the service goes together with all its destinations; a missing one is an error |
| FakeHandle.Handle.GetServices | pkg/lvs/ipvs_handle_fake.go:108-117 | every service in the table is listed, and nothing else |
| FakeHandle.Handle.NewDestination | pkg/lvs/ipvs_handle_fake.go:119-137 | added to an existing service unless already there |
| FakeHandle.Handle.UpdateDestination | pkg/lvs/ipvs_handle_fake.go:139-157 | replaced only if service and destination exist |
| FakeHandle.Handle.DelDestination | pkg/lvs/ipvs_handle_fake.go:159-177 | removed only if service and destination exist |
| FakeHandle.Handle.GetDestinations | pkg/lvs/ipvs_handle_fake.go:179-194 | every destination of an existing service is listed, and nothing else |
| DesiredState.DesiredEntry | pkg/lvs/reconciler.go:241-280 | every configured service is desired under its key, and the last one listed for a key decides |
| DesiredState.DesiredOrigin | pkg/lvs/reconciler.go:241-280 | nothing is desired that is not configured |
| DesiredState.CanonicalHosts | pkg/lvs/reconciler.go:241-280 | with canonical listen hosts every desired service is filed under the key the kernel reports |
| DesiredState.WantedIffListed | pkg/lvs/reconciler.go:255-271 | a destination is wanted exactly if a backend with its key passed the health filter |
| DesiredState.LastListedWins | pkg/lvs/reconciler.go:298-305 | of several such backends the last one listed gives the destination and its weight |
| DesiredState.FirstFailure | pkg/lvs/reconciler.go:241-280 | the conversion fails exactly with the error of the first service that has one, its own before those of its selected backends; other backends are not looked at |
| DesiredState.RulesListed | pkg/lvs/reconciler.go:184-226 | a rule is asked for exactly if it has the address, port, protocol (tcp by default) and snat_ip of a selected backend of a full_nat service |
| Reconciler.Reconciler.BuildDestinations | pkg/lvs/reconciler.go:255-271 | the loop computes the destinations of the backends that pass the filter, or the first conversion error |
| Reconciler.Reconciler.BuildDesiredState | pkg/lvs/reconciler.go:241-280 | the loop computes the desired state of the configuration under the health answers read, or its first error |
| Reconciler.Reconciler.ReadServices | pkg/lvs/reconciler.go:65-81 | the services in the table that are managed or desired, by the key the kernel reports |
| Reconciler.Reconciler.BuildRules | pkg/lvs/reconciler.go:184-226 | the loops compute the rules of the selected backends of full_nat services, or the first conversion error |
| Reconciler.Reconciler.ReconcileDestinations | pkg/lvs/reconciler.go:284-341 | if the destinations can be read, the calls made are exactly those by which the two tables differ, whatever fails on the way, and the error lists exactly the failed ones; otherwise no call is made |
| Reconciler.Reconciler.BringAboutService | pkg/lvs/reconciler.go:87-107 | for any spelling of the host: a service not listed is created and owned if that succeeds, one with another scheduler is updated, no other call is made; which calls fail and what the table becomes |
| Reconciler.Reconciler.ReconcileService | pkg/lvs/reconciler.go:87-112 | one turn of the service loop, for any spelling of the host: the service call, and unless it failed the destination diff |
| Reconciler.Reconciler.DeleteServices | pkg/lvs/reconciler.go:114-122 | exactly the listed services that are not desired are tried; those deleted are gone with their destinations and forgotten, failed deletions are reported and kept |
| Reconciler.Reconciler.ReconcileSNAT | pkg/lvs/reconciler.go:184-237 | the rule tables follow the rules of the full_nat services under a second set of health answers, or stay as they are if one cannot be built |
| Reconciler.Reconciler.Reconcile | pkg/lvs/reconciler.go:53-140 | whatever fails and however hosts are written: a turn for each desired service, then the deletions, then the rules, with the errors of each; and what TableReported says about that |
| ReconcileLoops.TurnTouches | pkg/lvs/reconciler.go:87-112 | a turn removes no service and touches only the one it is about; a service the table hides under another spelling makes the create call fail and nothing else happen |
| ReconcileLoops.TrailIsPass | pkg/lvs/reconciler.go:87-112 | with canonical hosts the turns, in any order, work off the difference of the services taken |
| ReconcileLoops.TableReported | pkg/lvs/reconciler.go:83-122 | with canonical hosts the run works off the difference: exactly the needed calls that can be reached are made, so every needed destination call of a service whose call succeeded and whose destinations can be read, the table is what the successful ones make of it, every call left over is covered by an error; with any hosts nothing foreign is touched, hidden services are reported, and an error-free run leaves every desired service in the table under its kernel key |
| Reconciler.Reconciler.Cleanup | pkg/lvs/reconciler.go:145-178 | a pass with nothing desired over the managed services, which also forgets absent ones |
| Diff.DiffAfter | pkg/lvs/reconciler.go:83-122 | making calls of the difference removes exactly these from it: each lowers the disagreement by one and none raises it |
| Diff.Frame | pkg/lvs/reconciler.go:71-122 | a service that is neither desired nor managed is left exactly as it was |
| Pass.Compose | pkg/lvs/reconciler.go:83-122 | passes over disjoint services compose into one pass over all of them |
| Convergence.AgreesIffNoDiff | pkg/lvs/reconciler.go:87-122 | the difference is empty exactly if schedulers, destination keys and weights agree and nothing managed is left over |
| Convergence.Progress | pkg/lvs/reconciler.go:83-140 | under any failures: calls made belong to the difference, it shrinks by exactly the successful ones, the rest is covered by errors, and no error means nothing is left; every needed service call is made, and every needed destination call unless the call on its service failed or its destinations could not be read |
| Convergence.ErrorsTellFailures | pkg/lvs/reconciler.go:83-140 | a call is named in the errors if and only if it was made and failed, unread destinations are reported as such, and no error is recorded twice |
| Convergence.ManagedMeaning | pkg/lvs/reconciler.go:87-122 | under any failures: a desired service is managed afterwards exactly if it was or is now in the table, another one exactly if it was and has not just been deleted |
| Convergence.Converges | pkg/lvs/reconciler.go:53-140 | an error-free run ends in agreement, leaves all other services alone, makes as many calls as the difference has members, and manages the desired keys and the managed ones already absent |
| Convergence.ConvergedEntries | pkg/lvs/reconciler.go:87-112 | the entries after an error-free run: an existing service or destination stays as it was if its scheduler or weight is the desired one, every other is as configured |
| Convergence.OrderIrrelevant | pkg/lvs/reconciler.go:83-122 | two error-free runs from one table end alike, whatever the map order |
| Convergence.Idempotent | pkg/lvs/reconciler.go:87-122 | from agreement a further run makes no call and changes nothing |
| Convergence.AgreesWithConfig | pkg/lvs/reconciler.go:241-341 | agreement in terms of the configuration: scheduler, exactly the selected backends, weight of the last one listed |
| Settling.CanonicalIffListens | pkg/lvs/reconciler.go:241-280 | the desired state is filed under kernel keys exactly if every configured host is canonical, shadowed services included |
| Settling.SecondRunDecides | pkg/lvs/reconciler.go:53-140 | after an error-free run, a second one on the same configuration with no refused call succeeds exactly if all listen hosts are canonical |
| Ownership.RunsAreSafe | pkg/lvs/reconciler.go:53-178 | over all histories with any configurations, failures and foreign edits: only services desired at some time are ever deleted, and every service created for canonical hosts and not deleted since is present and still managed |
| Ownership.NeverDesiredUntouched | pkg/lvs/reconciler.go:71-122 | a service never desired, under a configured key or the kernel's, survives every step but a foreign one, untouched |
| Ownership.CleanupIsComplete | pkg/lvs/reconciler.go:145-178 | an error-free Cleanup leaves nothing managed, no formerly managed service, and everything else as it was |
| Ownership.CleanupKeeps | pkg/lvs/reconciler.go:145-178 | a Cleanup with failing calls: every managed service in the table is tried, those that stay in the table stay managed and untouched, and nothing else is managed |
| Ownership.CleanupRemovesIffCanonical | pkg/lvs/reconciler.go:83-178 | an error-free Reconcile of a reconciler just started, followed by an error-free Cleanup, leaves none of the desired services in the table exactly if all listen hosts are canonical, and nothing managed in either case |
| Snat.SNATMergedIsDesired | pkg/snat/manager_fake.go:38-66 | comparing keys and snat_ip only loses nothing: the rules kept are the desired rules themselves |
| Snat.ForwardMergedIsDesired | pkg/snat/manager_fake.go:69-96 | the same for FORWARD rules |
| Snat.FakeManager.Reconcile | pkg/snat/manager_fake.go:38-66 | the tracked rules become the desired ones, a tracked rule with the same snat_ip being kept |
| Snat.FakeManager.ReconcileForward | pkg/snat/manager_fake.go:69-96 | the tracked FORWARD rules become the desired ones |
| Text.HostPortProtoInjective | pkg/snat/snat.go:21-23 | two rules share a key only if address, port and protocol are the same |
| SnatLinux.SpecInjective | pkg/snat/manager_linux.go:246-259 | a rule can be read back from its arguments |
| Packets.RuleRewrites | pkg/snat/manager_linux.go:246-259 | the arguments of a rule match exactly the packets to its address, protocol and port, whatever their source, and give them its snat_ip as source, or masquerade them if it has none |
| Packets.ForwardRuleAccepts | pkg/snat/manager_linux.go:272-280 | the arguments of a FORWARD rule match exactly the packets to its address, protocol and port, and accept them |
| Packets.RewrittenIffInPlace | pkg/snat/manager_linux.go:246-269 | the chain of a manager rewrites a packet exactly if a rule in place is for its destination, protocol and port, and as this rule says |
| Packets.RewrittenAsDesired | pkg/snat/manager_linux.go:118-163 | with exactly the desired rules in the chain a packet is treated as the desired rule with its key says, and left alone if there is none |
| Packets.AcceptedIffTracked | pkg/snat/manager_linux.go:107-111 | the FORWARD chain accepts a packet exactly if it belongs to an established connection or a tracked rule is for it |
| SnatLinux.LinuxManager.Reconcile | pkg/snat/manager_linux.go:118-163 | a command for each stale key, in some order, and then for each desired key the commands it needs, in some order; what becomes of each key is decided by the outcomes of its own commands, and no failure ends the run; the chain holds only tracked rules |
| SnatLinux.EachKeyDecided | pkg/snat/manager_linux.go:118-163 | the positions of the commands of each key, and the four ends of a desired key by their outcomes: trusted, kept because the delete failed, replaced, or tracked without being in the chain |
| SnatLinux.LinuxManager.PutRule | pkg/snat/manager_linux.go:140-160 | for the given outcomes: trust a rule with the same snat_ip, else delete the old rule and add the new one, stopping at a failure |
| SnatLinux.ReconciledAt | pkg/snat/manager_linux.go:118-163 | whatever the order and the outcomes, a key ends unchanged, removed, replaced or tracked without being in the chain, each only where the code can lead there |
| SnatLinux.LinuxManager.ReconcileForward | pkg/snat/manager_linux.go:166-201 | one command for each stale key, in some order, then one for each missing key; a stale key stays exactly if its own command fails, a missing one is added exactly if its own succeeds, all others stay, and the chain follows; without failures the tracked rules become the desired ones |
| Packets.OneActionPerPacket | pkg/snat/manager_linux.go:118-163 | two rules of the chain that match the same packet are the same rule |
| SnatLinux.CleanReconcile | pkg/snat/manager_linux.go:118-163 | a failure-free run tracks what FakeManager tracks; the chain is then exactly the desired one if and only if no rule desired unchanged had been lost |
| SnatLinux.CleanFromAgreement | pkg/snat/manager_linux.go:118-163 | from agreement a failure-free run gives exactly the desired rules |
| SnatLinux.LostRuleStaysLost | pkg/snat/manager_linux.go:140-160 | over any history of runs, with any failures, a tracked rule missing from the chain stays missing as long as its snat_ip is desired |
| SnatLinux.LostRuleIsNotInChain | pkg/snat/manager_linux.go:140-160 | so at no time during such a history is the rule in the chain, although it is tracked |
| Packets.LostRuleDoesNothing | pkg/snat/manager_linux.go:140-160 | packets to the backend of a lost rule pass the chain as they are |
| SnatLinux.ThreeRunsLose | pkg/snat/manager_linux.go:140-160 | three runs from an empty manager that want one rule, the same with another snat_ip, and the first again, where the add of the update is the only command that fails, end with the rule tracked and not in the chain |
| SnatLinux.LoseRule | pkg/snat/manager_linux.go:118-163 | these three runs on the manager itself, for any two rules with one key and different snat_ip |
| CrossTable.RulesMatchDestinations | pkg/lvs/reconciler.go:184-237 | under one health snapshot and canonical backends a rule exists exactly for the destinations wanted by full_nat services, with the snat_ip of the last service asking for it |
| CrossTable.ForwardKeys | pkg/lvs/reconciler.go:205-226 | FORWARD and SNAT rules have the same keys |
| CrossTable.TablesCoherent | pkg/lvs/reconciler.go:184-271 | the same on the tables: rule keys are exactly those of the destinations programmed for full_nat services |
| Health.Manager.HandleCheckResult | pkg/healthcheck/manager.go:201-245 | counters and verdict move by one result, other backends stay, and onChange is called exactly at a flip; unknown addresses change nothing |
| Health.Manager.CheckTick | pkg/healthcheck/manager.go:184-197 | a tick of a running check counts with the thresholds the check was started with |
| Health.Manager.StopServiceBackends | pkg/healthcheck/manager.go:151-164 | exactly the listed addresses are no longer tracked |
| Health.Manager.StartServiceBackends | pkg/healthcheck/manager.go:119-127 | listed addresses not yet tracked start healthy with the thresholds of the service, tracked ones keep status and thresholds |
| Health.Manager.TargetService | pkg/healthcheck/manager.go:76-127 | one service: its thresholds are stored; health-checked, it starts the checks its backends do not have; switched off, it drops its backends; otherwise no status changes |
| Health.Manager.UpdateTargets | pkg/healthcheck/manager.go:67-147 | the status of every address is the one the services lead to in turn, from the old status and the checks known before; what no service lists is dropped, and the thresholds of the services are those of the configuration |
| Health.UpdateKeeps | pkg/healthcheck/manager.go:105-127 | a backend listed with health checks only keeps its status and thresholds, or else starts with those of the first service listing it |
| Health.UncheckedTargets | pkg/healthcheck/manager.go:76-103 | a backend listed without health checks only stops being tracked, and so counts as healthy at once, exactly if one of its services was health-checked before; otherwise its status stays |
| Health.TargetOrigin | pkg/healthcheck/manager.go:67-147 | every status is an old one or was started for a health-checked service listing the address, and only listed addresses have one |
| Hysteresis.CountersAreTails | pkg/healthcheck/manager.go:210-235 | the two counters are the lengths of the failing and the succeeding tail of the trace |
| Hysteresis.UnhealthyIffDown | pkg/healthcheck/manager.go:210-244 | a backend that started fresh is unhealthy exactly if some run of failCount failures has no later run of riseCount successes |
| Hysteresis.FlipsAreBounded | pkg/healthcheck/manager.go:210-244 | the verdict is the parity of the flips, and f flips take at least ceil(f/2)*failCount + floor(f/2)*riseCount results |
| Thresholds.TrackedSince | pkg/healthcheck/manager.go:168-245 | over any history a tracked backend has the thresholds of the configuration that started its check, and the counters and verdict of the results since |
| Thresholds.VerdictSince | pkg/healthcheck/manager.go:168-245 | a tracked backend is healthy exactly if the results since its check was started do not leave it down by the fail_count (3 by default) and rise_count (2 by default) of the service it was started for |
| Thresholds.FirstThresholdsStay | pkg/healthcheck/manager.go:119-127 | a backend that stays listed with health checks keeps the check it was started with through all later configurations |
| Thresholds.ChangedThresholdsIgnored | pkg/healthcheck/manager.go:119-127 | the thresholds of a later configuration are in force exactly if they equal those the check was started with |
| HealthProtocol.CurrentReads | pkg/lvs/reconciler.go:255-271 | reads that are complete and up to date give the desired state and the rules of the current verdicts |
| HealthProtocol.FreshReadsConvert | pkg/lvs/reconciler.go:184-271 | up-to-date answers, even if only some have been read, make no Reconcile give up if the current verdicts would not |
| HealthProtocol.AlwaysConverts | pkg/lvs/reconciler.go:184-280 | a validated configuration with numeric ports converts, services and rules, under all health answers, so no Reconcile gives up |
| HealthProtocol.StepKeepsInv | pkg/server/server.go:77-80 | with canonical listen hosts every step keeps: the tables are those of the answers they were made from, and these can be out of date only while a callback is waiting or while the configuration does not convert under the current verdicts |
| HealthProtocol.NoLostTransition | pkg/server/server.go:166-177 | canonical hosts, no refused kernel call: under every interleaving, once no callback is waiting or running and the configuration converts under the verdicts of that moment, each service has its scheduler and exactly its available backends with their weights |
| HealthProtocol.TablesCoherentAtRest | pkg/lvs/reconciler.go:184-271 | at that point the rules fit the programmed destinations although health was read separately for each |
| AtRest.RestIsCurrentIff | pkg/server/server.go:166-177 | from any moment of any run without a Reconcile under way, and without further results: a service at rest is up to date if and only if the configuration converts under the verdicts of that moment or the service was up to date then |
| AtRest.StoppersHaveNamedPorts | pkg/config/config.go:452-480 | in a validated configuration the health-checked backends that cannot be converted are those with named ports |
| AtRest.EveryFlipIsLost | pkg/lvs/reconciler.go:53-62 | along every path on which such a backend stays healthy no Reconcile programs anything, and the configured services and the rules stay as they were |
| LostHealth.ComesToRest | pkg/server/server.go:166-177 | from every moment without a Reconcile under way there is a way to come to rest without further results, which changes nothing if the configuration does not convert |
| LostHealth.ConvertsIffDown | pkg/lvs/reconciler.go:255-271 | a validated configuration with one named port, of a health-checked backend, converts exactly while that backend is down |
| LostHealth.TransitionGetsLost | pkg/healthcheck/manager.go:168-245 | for every such configuration, from checks just started: a whole run that comes to rest with a failed backend still in the table |
| LostHealth.LossHappens | pkg/server/server.go:166-177 | such a configuration exists, with one service and two backends |
| ReloadProtocol.NoLostReload | pkg/config/config.go:492-515 | a configuration the loop has not read is announced, about to be announced or about to be read; and the loop never runs more often than configurations were stored |
| ReloadProtocol.Work | pkg/server/server.go:121-143 | the number of steps left for reloaders and loop, zero exactly when all have settled |
| ReloadProtocol.LoopDrains | pkg/server/server.go:121-143 | every send and loop step lowers the work, callbacks leave it, and while there is work such a step is possible |
| ReloadProtocol.NewestInForce | pkg/server/server.go:121-143 | once settled the loop has read the newest configuration, and only a callback's Reconcile can have put an older one in force after that |
| ReloadProtocol.NoCallbackAcrossStore | pkg/server/server.go:166-177 | if no callback is under way at the last store of a run the newest configuration ends up in force |
| ReloadProtocol.OldConfigCanWin | pkg/server/server.go:166-168 | from every state in which a callback holds an older configuration everything can settle with that one in force |
| ReloadProtocol.NewestIffNoCallback | pkg/server/server.go:166-177 | just after a store: every way to settle without further stores ends with the newest configuration if and only if no callback was under way at the store |
| Validation.CheckBackends | pkg/config/config.go:452-480 | accepts exactly non-empty lists of distinct well-formed addresses with positive weights |
| Validation.ServiceSpelledOut | pkg/config/config.go:368-480 | all conditions under which a service is accepted, in terms of its own fields and those of the services before it |
| Validation.ValidSpelledOut | pkg/config/config.go:343-363 | the conditions on log level, interval and number of services |
| Validation.CheckService | pkg/config/config.go:371-480 | reports the first check the service fails, and fills in its protocol once the address is accepted |
| Validation.Validate | pkg/config/config.go:343-484 | accepts exactly the valid configurations, else names the first failing check, of the log level, the interval, the number of services or the first rejected service; fills in missing protocols in place for the services looked at, and changes no others |
| Validation.Manager.Reload | pkg/config/config.go:492-515 | replaces the configuration, with missing protocols filled in, and announces it exactly if the file was read and is valid; otherwise nothing changes |
| ValidConfigs.KeysDiffer | pkg/config/config.go:368-404 | two services of a valid configuration with canonical listen addresses have different keys, in the configuration and in the kernel |
| ValidConfigs.ValidatedNames | pkg/config/config.go:368-377 | a validated configuration has unique service names, as the metric labels need |
| ValidConfigs.NoServiceLost | pkg/lvs/reconciler.go:241-280 | then every configured service has its own entry in the desired state, converted and under the key the kernel reports, there are no other entries, and all kernel keys differ |
| ValidConfigs.OtherwiseKeysCollide | pkg/config/config.go:399-404 | for every listen address whose host or port is not written canonically there is a valid configuration with a second service of the same kernel key |
| ValidConfigs.ConvertsIffPortsNumeric | pkg/config/config.go:378-387 | a validated configuration converts under all health answers exactly if all its ports are numbers |
| Traffic.StatsFoundIffPlainListen | pkg/trafficlog/collector.go:275-283 | statistics are found by the configuration exactly if the service is listed as the kernel prints it, unbracketed |
| Traffic.BracketsAreNeverFound | pkg/trafficlog/collector.go:275-283 | statistics of a bracketed listen address are never found |
| Traffic.BuildServiceConfigMap | pkg/trafficlog/collector.go:275-283 | the lookup map of the configuration, the last of several services with a key counting |
| Traffic.LastConfigured | pkg/trafficlog/collector.go:275-283 | the service looked up for "listen/protocol" is the last one configured with these two |
| Traffic.ExtractUndoesJoin | pkg/trafficlog/collector.go:468-475 | extractBackendAddress undoes the "svc->dst" join exactly if neither part has an arrow |
| Traffic.AdapterKeys | pkg/trafficlog/lvs_stats_adapter.go:44-78 | the statistics keys of different backends differ, and their backend address is extracted correctly |
| StatsAdapter.ReadServiceStats | pkg/trafficlog/lvs_stats_adapter.go:22-40 | the statistics of all listed services by key, or the error of the listing |
| StatsAdapter.ReadBackendStats | pkg/trafficlog/lvs_stats_adapter.go:44-78 | the statistics of all destinations of all listed services by joined key, or the error of the first listing that cannot be read |
| StatsAdapter.BackendsApart | pkg/trafficlog/lvs_stats_adapter.go:44-78 | every destination of every service is found under "service->address:port" with every count as listed, negative ones as zero, and its address can be read back from that key |
| StatsAdapter.ServicesApart | pkg/trafficlog/lvs_stats_adapter.go:22-40 | every service is found with its own statistics under "address:port/protocol" |
| StatsAdapter.AdapterIsWellFormed | pkg/trafficlog/lvs_stats_adapter.go:44-78 | there are no other keys, and all have the form the collector needs |
| Traffic.ServiceLabelsDiffer | pkg/trafficlog/collector.go:348-374 | different service keys update different series |
| Traffic.BackendLabelsDiffer | pkg/trafficlog/collector.go:386-419 | with unique names and well-formed keys different backends update different series |
| PollHistory.HistoryRefinement | pkg/trafficlog/collector.go:328-350 | a key is remembered exactly if its latest occurrence is at most 720 polls old, with that value and that age as its absence count |
| PollHistory.LatestMeaning | pkg/trafficlog/collector.go:328-350 | what the latest occurrence and its age mean, read off the history |
| PollHistory.RememberedIffRecent | pkg/trafficlog/collector.go:46-52 | a key is remembered exactly if it is in the current or one of the preceding 720 snapshots |
| PollHistory.TotalFormula | pkg/trafficlog/collector.go:335-383 | the total added for a counter is the last value seen plus the values just before each restart |
| PollHistory.TotalWithShortGaps | pkg/trafficlog/collector.go:335-383 | with gaps of at most 720 polls only drops of the value count as restarts |
| PollHistory.LongAbsenceCountsTwice | pkg/trafficlog/collector.go:335-346 | whatever was polled before: a counter seen again after a gap adds its increase, and its old value a second time exactly if the gap was longer than 720 polls |
| PollHistory.ExactTotal | pkg/trafficlog/collector.go:302-383 | for every history: first value plus true traffic, plus the values before long absences from which the counter went on, less the values before restarts already passed again and the traffic no poll saw |
| PollHistory.NeverOvercounts | pkg/trafficlog/collector.go:302-323 | however the kernel drops, revives or resets a counter, no more is added than the first value, the true traffic, and the values before absences of more than 720 polls |
| PollHistory.NeverRecreated | pkg/trafficlog/collector.go:302-383 | of a counter never recreated the total exceeds the truth by exactly the values before the restarts the collector saw, so it is exact if and only if these are all zero |
| Counters.ChargedInAnyOrder | pkg/trafficlog/collector.go:348-420 | when no two keys share a series the map order does not matter |
| PollCharges.CarryForward | pkg/trafficlog/collector.go:333-346 | exactly the missing keys below the bound are carried over, with value and count |
| PollCharges.ChargeSeen | pkg/trafficlog/collector.go:348-420 | every key seen is stored, and every configured one charged once with its change |
| PollCharges.PollOnce | pkg/trafficlog/collector.go:328-420 | if maps and counters followed the history of polls they follow it extended by this one |
| Collector.Collector.UpdateMetrics | pkg/trafficlog/collector.go:296-427 | memory and counters follow the history extended by this snapshot, under the configuration of the moment, and the gauges show the active and inactive connections of the configured backends seen |
| Collector.Collector.Collect | pkg/trafficlog/collector.go:135-143 | the same for a poll whose reads may fail |
| Gauges.SetConnections | pkg/trafficlog/collector.go:410-420 | a series shown by some backend seen gets the counts of one of these, all other series stay |
| Gauges.GaugesAreCurrent | pkg/trafficlog/collector.go:410-420 | with unique names and well-formed keys every configured backend seen shows its own active and inactive count, each in its own gauge, under the name and protocol of its service and its own address |
| CollectorTotals.ServiceTotals | pkg/trafficlog/collector.go:348-374 | each exported total of a service configured at every poll is the total of that field over what the polls saw |
| CollectorTotals.BackendTotals | pkg/trafficlog/collector.go:386-411 | the same for a backend, under configurations with unique names and well-formed keys |
| Ledger.TakenOut | pkg/http/pool.go:51-71 | taking connections out of a list loses none and duplicates none |
| Ledger.PutBack | pkg/http/pool.go:74-92 | nor does appending one |
| Ledger.GivenUpTwice | pkg/http/transport.go:52-76 | closing or returning a connection that is in nobody's hands upsets the books, always |
| Pool.OverAgeIsPrefix | pkg/http/pool.go:124-137 | in an ordered list the over-age connections are exactly a prefix |
| Pool.GetUndoesPut | pkg/http/pool.go:51-92 | a Get right after a Put that found room hands out the connection just returned, and all books are as before the Put |
| Pool.ConnPool.Get | pkg/http/pool.go:51-71 | hands out the most recently returned connection, which was open and in nobody's hands; the rest of its list and all other lists stay |
| Pool.ConnPool.Put | pkg/http/pool.go:74-92 | with room for the backend the connection is appended to its list with the time, and nothing else changes; otherwise it is closed and the pool stays |
| Pool.ConnPool.TakeExpired | pkg/http/pool.go:117-147 | under the mutex exactly the over-age fronts leave the pool, into the hands of the sweep |
| Pool.ConnPool.Cleanup | pkg/http/pool.go:117-153 | closes exactly the over-age front of each list and keeps the rest in order |
| Pool.ConnPool.Close | pkg/http/pool.go:156-177 | the first call empties the pool and closes exactly what was in it; later calls do nothing |
| Transport.Transport.RoundTrip | pkg/http/transport.go:79-142 | which connection answers, and which are taken, dialled and closed in each case; the response holds exactly one and all others obtained are closed |
| Transport.Transport.CloseBody | pkg/http/transport.go:52-76 | the connection is appended to the list of its backend if body and response allow it and there is room, otherwise closed; it is no longer held |
| ConnProtocol.SweepBalanced | pkg/http/pool.go:117-153 | a sweep moves connections into the sweeper's hands and loses none |
| ConnProtocol.StepKeeps | pkg/http/transport.go:79-142 | every step of every request, sweep or shutdown keeps the ledger and the shape of the pool |
| ConnProtocol.ExactlyOnePlace | pkg/http/transport.go:52-142 | in every reachable state each dialled connection is with one request, with one sweep, in one slot, or closed once |
| ConnProtocol.HandedOutOpen | pkg/http/pool.go:51-71 | a connection handed to a request was open and in nobody's hands |
| ConnProtocol.SecondCloseBreaks | pkg/http/transport.go:52-76 | at any time after a Close of a body, in every run: a further Close of it, whether its drain fails or finds it empty, breaks the invariant |
| Selector.Service.NextBackend | pkg/http/selector.go:4-16 | the empty string without backends, else the backend at the counter's position, and the counter moves by one |
| Selector.Fair | pkg/http/selector.go:4-16 | in any n consecutive calls over k backends every position is chosen n/k times, rounded down or up |

## Left out

- Sockets, dialling, HTTP parsing, probes, netlink and the real IPVS handle: their outcomes are parameters.
- Logging, Prometheus, viper, fsnotify, the admin server, the CLI and kernel preflight; a counter is a natural number per label.
- The parsers of net, strconv and time: arbitrary functions; that they read back what was printed (`ReadsWhatIsPrinted`, `ReadsOwnPrint`) is assumed only in `OtherwiseKeysCollide`, `SecondRunDecides` and `CleanupRemovesIffCanonical`.
- Statistics and connection counts inside the entries the reconciler handles, and cloning of entries by the handle: nothing in the reconciler depends on them; `StatsAdapter` lists them separately.
- Flush and Close of the handle, and its use after Close.
- The managed map of booleans is a set, and backend statuses are values in a map: no aliasing of a status by a running check.
- The check goroutines and their cancellation: a running check is a source of results. A result of a cancelled check that arrives after its address has been tracked anew, and that then counts with the older thresholds, is not a step of Thresholds.
- HealthProtocol.NoLostTransition: the configuration is fixed and no kernel call fails; the code does not retry after a failing call, so a transition whose Reconcile meets one is lost until the next Reconcile. Changes of the configuration are the subject of ReloadProtocol.
- Ownership.RunsAreSafe: services created under a listen host that is not canonical are not counted as owned; the code does not manage them under the key the kernel reports, and CleanupRemovesIffCanonical says what becomes of them.
- Packets.RuleRewrites: addresses and protocols are compared as texts, as the rules write them; prefixes, host names and what iptables makes of other options are not part of the model.
- Cleanup of the iptables manager, creation of its chains, chains filled by an earlier process, and the order of rules within a chain (a set).
- Statistics parsing in pkg/snat/stats_parse.go.
- aggregateServiceConnectionCounts and the traffic log lines: current values copied from a snapshot.
- Wrap-around of the 64-bit statistics and of the selector's counter.
- Pool.ConnPool.Put: a connection put back after the pool was closed stays idle for ever; the ledger allows it, and it is not claimed that it gets closed.
- Server start and shutdown, RunOnce and the synchronisation of HTTP services: straight-line calls of what is modelled here.
- The getters with defaults in pkg/config/config.go other than those health checking uses.
