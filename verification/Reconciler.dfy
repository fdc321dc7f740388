/** Declarative reconciliation of the IPVS table with the configuration (pkg/lvs/reconciler.go). */
module Reconciler {
  import opened Wrappers
  import opened Config
  import opened LvsTypes
  import opened LastWins
  import opened Diff
  import opened CallLog
  import opened Pass
  import opened Snat
  import opened DesiredState
  import opened FakeHandle
  import opened DestinationDiff
  import opened ReconcileLoops

  /** The rule tables after reconcileSNAT: merged with the desired rules, or untouched if these could not be built. */
  ghost predicate SNATEffect(rules: Result<seq<SNATRule>, ConversionError>, snat0: SNATTable, forward0: ForwardTable,
    snat: SNATTable, forward: ForwardTable, err: Option<ReconcileError>)
  {
    match rules
    case Failure(e) => err == Some(SnatFailed(e)) && snat == snat0 && forward == forward0
    case Success(rs) =>
      && err == None
      && snat == SNATMerged(snat0, SNATTableOf(rs))
      && forward == ForwardMerged(forward0, ForwardTableOf(ForwardRules(rs)))
  }

  class Reconciler {
    const lib: Lib
    const handle: Handle
    const snatMgr: FakeManager
    var managed: set<ServiceKey>
    /** The reconcile error counter exported as a metric. */
    var errorCount: nat

    constructor (lib: Lib, handle: Handle, snatMgr: FakeManager)
      ensures this.lib == lib && this.handle == handle && this.snatMgr == snatMgr
      ensures managed == {} && errorCount == 0
    {
      this.lib, this.handle, this.snatMgr, managed, errorCount := lib, handle, snatMgr, {}, 0;
    }

    /** The inner loop of buildDesiredState: unhealthy backends are left out, and not even converted. */
    method BuildDestinations(cfgs: seq<ServiceConfig>, i: nat, answers: Answers)
      returns (r: Result<seq<Destination>, ConversionError>)
      requires i < |cfgs|
      ensures r == DestinationsUpTo(lib, cfgs, i, |cfgs[i].backends|, answers)
    {
      var destinations: seq<Destination> := [];
      for j := 0 to |cfgs[i].backends|
        invariant DestinationsUpTo(lib, cfgs, i, j, answers) == Success(destinations)
      {
        if cfgs[i].healthCheck.IsEnabled() && !answers(i, j) {
          continue;
        }
        var dst := ConfigToDestination(lib, cfgs[i].backends[j]);
        if dst.Failure? {
          DestinationsFailEarly(lib, cfgs, i, j + 1, |cfgs[i].backends|, answers);
          return Failure(dst.error);
        }
        destinations := destinations + [dst.value];
      }
      r := Success(destinations);
    }

    ghost function Here(): Situation
      reads this, handle
    {
      Situation(handle.Contents(), handle.calls, managed)
    }

    method BuildDesiredState(cfgs: seq<ServiceConfig>, answers: Answers) returns (r: Result<Desired, ConversionError>)
      ensures r == DesiredOf(lib, cfgs, answers)
    {
      var result: Desired := map[];
      for i := 0 to |cfgs|
        invariant EntriesUpTo(lib, cfgs, i, answers).Success?
        invariant result == Table(EntriesUpTo(lib, cfgs, i, answers).value)
      {
        var svc := ConfigToService(lib, cfgs[i]);
        if svc.Failure? {
          EntriesFailEarly(lib, cfgs, i + 1, |cfgs|, answers);
          return Failure(svc.error);
        }
        var key := ServiceKeyFromConfig(lib, cfgs[i]);
        if key.Failure? {
          // The same address and protocol have just been converted.
          assert false;
        }
        var destinations := BuildDestinations(cfgs, i, answers);
        if destinations.Failure? {
          EntriesFailEarly(lib, cfgs, i + 1, |cfgs|, answers);
          return Failure(destinations.error);
        }
        TableSnoc(EntriesUpTo(lib, cfgs, i, answers).value, (key.value, DesiredService(svc.value, destinations.value)));
        result := result[key.value := DesiredService(svc.value, destinations.value)];
      }
      r := Success(result);
    }

    /** The destinations of `svc` as the handle lists them, by key. */
    method ReadDestinations(svc: Service) returns (r: Option<DestinationMap>)
      requires handle.Valid()
      ensures r.Some? <==> KeyOfService(svc) in handle.destinations && KeyOfService(svc) !in handle.faults.unread
      ensures r.Some? ==> r.value == handle.destinations[KeyOfService(svc)]
    {
      var listed := handle.GetDestinations(svc);
      if listed.Failure? {
        return None;
      }
      ghost var table := handle.destinations[KeyOfService(svc)];
      var actual: DestinationMap := map[];
      for i := 0 to |listed.value|
        invariant forall d | d in actual :: actual[d] in listed.value && KeyOfDestination(actual[d]) == d
        invariant forall x | 0 <= x < i :: KeyOfDestination(listed.value[x]) in actual
      {
        actual := actual[KeyOfDestination(listed.value[i]) := listed.value[i]];
      }
      forall d | d in table ensures d in actual {
        assert table[d] in listed.value;
      }
      r := Some(actual);
    }

    method DesiredDestinations(want: DesiredService) returns (desired: DestinationMap)
      ensures desired == Wanted(want)
    {
      desired := map[];
      for i := 0 to |want.destinations|
        invariant desired == TableUpTo(Keyed(want.destinations), i)
      {
        desired := desired[KeyOfDestination(want.destinations[i]) := want.destinations[i]];
      }
    }

    /** The first loop of reconcileDestinations: create or update. */
    method BringAbout(svc: Service, actual: DestinationMap, desired: DestinationMap)
      returns (failed: seq<Op>, ghost work: DestWork)
      requires handle.Valid() && KeyOfService(svc) in handle.destinations
      requires actual == handle.destinations[KeyOfService(svc)] && FiledUnderKey(desired)
      modifies handle
      ensures handle.Valid() && handle.faults == old(handle.faults) && failed == work.failed
      ensures Progress(KeyOfService(svc), desired, old(handle.Seen()), work, actual.Keys - desired.Keys, handle.Seen())
      ensures !handle.faults.refusals ==> failed == []
    {
      ghost var start, open := handle.Seen(), actual.Keys + desired.Keys;
      failed, work := [], NO_DEST_WORK;
      Starts(KeyOfService(svc), desired, start, open);
      var todo := desired.Keys;
      while todo != {}
        invariant handle.Valid() && handle.faults == old(handle.faults)
        invariant StillToDo(open, todo, actual.Keys, desired.Keys)
        invariant Progress(KeyOfService(svc), desired, start, work, open, handle.Seen())
        invariant failed == work.failed && (!handle.faults.refusals ==> failed == [])
      {
        var d :| d in todo;
        StillToDoStep(open, todo, actual.Keys, desired.Keys, d);
        failed, work := TouchDestination(svc, d, actual, desired, failed, start, work, open);
        todo, open := todo - {d}, open - {d};
      }
      assert open == actual.Keys - desired.Keys;
    }

    /** The second loop of reconcileDestinations: delete what is not desired. */
    method RemoveStale(svc: Service, actual: DestinationMap, desired: DestinationMap, failed0: seq<Op>,
      ghost start: View, ghost work0: DestWork)
      returns (failed: seq<Op>, ghost work: DestWork)
      requires handle.Valid() && FiledUnderKey(desired) && FiledUnderKey(actual) && failed0 == work0.failed
      requires Progress(KeyOfService(svc), desired, start, work0, actual.Keys - desired.Keys, handle.Seen())
      requires actual == start.store.dests[KeyOfService(svc)]
      modifies handle
      ensures handle.Valid() && handle.faults == old(handle.faults) && failed == work.failed
      ensures Progress(KeyOfService(svc), desired, start, work, {}, handle.Seen())
      ensures !handle.faults.refusals && failed0 == [] ==> failed == []
    {
      failed, work := failed0, work0;
      var todo := actual.Keys;
      ghost var open := actual.Keys - desired.Keys;
      while todo != {}
        invariant handle.Valid() && handle.faults == old(handle.faults)
        invariant todo <= actual.Keys && forall d :: d in open <==> d in todo && d !in desired
        invariant Progress(KeyOfService(svc), desired, start, work, open, handle.Seen())
        invariant failed == work.failed && (!handle.faults.refusals && failed0 == [] ==> failed == [])
      {
        var d :| d in todo;
        todo := todo - {d};
        if d !in desired {
          failed, work := TouchDestination(svc, d, actual, desired, failed, start, work, open);
          open := open - {d};
        }
      }
      assert open == {};
    }

    /** One turn of either loop: the call the destination needs, if any; a failure does not stop the loop. */
    method TouchDestination(svc: Service, d: DestinationKey, actual: DestinationMap, desired: DestinationMap,
      failed0: seq<Op>, ghost start: View, ghost work0: DestWork, ghost open: set<DestinationKey>)
      returns (failed: seq<Op>, ghost work: DestWork)
      requires handle.Valid() && FiledUnderKey(desired) && FiledUnderKey(actual) && failed0 == work0.failed
      requires Progress(KeyOfService(svc), desired, start, work0, open, handle.Seen()) && d in open
      requires actual == start.store.dests[KeyOfService(svc)] && (d in actual || d in desired)
      modifies handle
      ensures handle.Valid() && handle.faults == old(handle.faults) && failed == work.failed
      ensures Progress(KeyOfService(svc), desired, start, work, open - {d}, handle.Seen())
      ensures !handle.faults.refusals && failed0 == [] ==> failed == []
    {
      var key := KeyOfService(svc);
      AtOpen(key, desired, start, work0, open, handle.Seen(), d);
      var op, dst: Destination;
      if d in desired && d !in actual {
        op, dst := CreateDestination(key, d), desired[d];
      } else if d !in desired {
        op, dst := DeleteDestination(key, d), actual[d];
      } else if actual[d].weight != desired[d].weight {
        op, dst := UpdateDestination(key, d), desired[d];
      } else {
        return failed0, work0;
      }
      failed, work := TryDestination(svc, op, dst, failed0, actual, desired, start, work0, open);
    }

    /** One call on one destination; a failure is recorded. */
    method TryDestination(svc: Service, op: Op, dst: Destination, failed0: seq<Op>, ghost actual: DestinationMap,
      ghost desired: DestinationMap, ghost start: View, ghost work0: DestWork, ghost open: set<DestinationKey>)
      returns (failed: seq<Op>, ghost work: DestWork)
      requires handle.Valid() && FiledUnderKey(desired) && failed0 == work0.failed
      requires Progress(KeyOfService(svc), desired, start, work0, open, handle.Seen())
      requires actual == start.store.dests[KeyOfService(svc)]
      requires DestNeeded(op, KeyOfService(svc), actual, desired) && op.d in open && KeyOfDestination(dst) == op.d
      requires op.d in handle.destinations[KeyOfService(svc)] <==> op.d in actual
      requires !op.DeleteDestination? ==> dst == desired[op.d]
      modifies handle
      ensures handle.Valid() && handle.faults == old(handle.faults) && failed == work.failed
      ensures Progress(KeyOfService(svc), desired, start, work, open - {op.d}, handle.Seen())
      ensures !handle.faults.refusals && failed0 == [] ==> failed == []
    {
      ghost var before := handle.Seen();
      var e: Option<HandleError>;
      match op {
        case CreateDestination(_, _) => e := handle.NewDestination(svc, dst);
        case UpdateDestination(_, _) => e := handle.UpdateDestination(svc, dst);
        case DeleteDestination(_, _) => e := handle.DelDestination(svc, dst);
      }
      Advance(KeyOfService(svc), desired, start, work0, open, before, Call(op, e.None?), handle.Seen());
      failed := if e.Some? then failed0 + [op] else failed0;
      work := work0.And(Call(op, e.None?));
    }

    /**
     reconcileDestinations: at most one error is returned, joining the failures of this service.  No failure stops the
     diff: if the destinations can be read, exactly the needed calls are made, and those that failed are joined.
     */
    method ReconcileDestinations(want: DesiredService) returns (err: Option<ReconcileError>, ghost work: DestWork)
      requires handle.Valid()
      modifies handle
      ensures handle.Valid() && handle.faults == old(handle.faults)
      ensures DestinationsDiffed(want, old(Here()), work, err, Here(), handle.faults)
      ensures var k := KeyOfService(want.service);
        k in old(handle.destinations) && k !in handle.faults.unread ==>
          && ExactCalls(k, old(handle.destinations[k]), Wanted(want), work)
          && err == if work.failed == [] then None else Some(DestinationCalls(k, work.failed))
    {
      ghost var start := handle.Seen();
      TracksNothing(start.calls);
      var actual := ReadDestinations(want.service);
      if actual.None? {
        return Some(DestinationsUnread(KeyOfService(want.service))), NO_DEST_WORK;
      }
      var desired := DesiredDestinations(want);
      var failed;
      failed, work := BringAbout(want.service, actual.value, desired);
      failed, work := RemoveStale(want.service, actual.value, desired, failed, start, work);
      AllLookedAt(KeyOfService(want.service), actual.value, desired, work);
      err := if failed != [] then Some(DestinationCalls(KeyOfService(want.service), failed)) else None;
    }

    /** The service call of one turn: create a missing service, update one with another scheduler. */
    method BringAboutService(key: ServiceKey, want: DesiredService, actual: Option<Service>)
      returns (err: Option<ReconcileError>)
      requires handle.Valid()
      modifies this`managed, handle
      ensures handle.Valid() && handle.faults == old(handle.faults)
      ensures ServiceCalled(key, want, actual, old(Here()), err, Here(), handle.faults)
    {
      ghost var before := Here();
      match actual {
        case None =>
          var e := handle.NewService(want.service);
          if e.None? {
            managed := managed + {key};
          }
          CreateCalled(key, want, before, e.None?, Here(), handle.faults);
          err := if e.Some? then Some(ServiceCall(CreateService(key))) else None;
        case Some(found) =>
          managed := managed + {key};
          if found.schedName == want.service.schedName {
            NoneCalled(key, want, found, before, Here(), handle.faults);
            return None;
          }
          var e := handle.UpdateService(want.service);
          UpdateCalled(key, want, found, before, e.None?, Here(), handle.faults);
          err := if e.Some? then Some(ServiceCall(UpdateService(key))) else None;
      }
    }

    /** One turn of the service loop of Reconcile. */
    method ReconcileService(key: ServiceKey, want: DesiredService, actual: Option<Service>)
      returns (errs: seq<ReconcileError>, ghost work: Work)
      requires handle.Valid()
      modifies this`managed, handle
      ensures handle.Valid() && handle.faults == old(handle.faults) && errs == work.errs
      ensures ServiceTurn(key, want, actual, old(Here()), work, Here(), handle.faults)
    {
      ghost var a, calls := Here(), Calls(CallFor(want, actual));
      var called := BringAboutService(key, want, actual);
      ghost var mid := Here();
      if called.Some? {
        work := Work({}, calls, [called.value], {});
        assert TurnBy(key, want, actual, a, work, mid, handle.faults, mid, called, NO_DEST_WORK, None);
        return [called.value], work;
      }
      var err;
      ghost var dests;
      err, dests := ReconcileDestinations(want);
      errs := Errors(err);
      work := Work(calls + dests.done, calls + dests.tried, errs, Unread(err));
      assert TurnBy(key, want, actual, a, work, Here(), handle.faults, mid, called, dests, err);
    }

    /** The services in the table that are managed or desired. */
    method ReadServices(desired: Desired) returns (r: Option<map<ServiceKey, Service>>)
      requires handle.Valid()
      ensures r.Some? <==> !handle.faults.unlisted
      ensures r.Some? ==> r.value == Listing(handle.services, managed, desired)
    {
      var listed := handle.GetServices();
      if listed.Failure? {
        return None;
      }
      var actual: map<ServiceKey, Service> := map[];
      for i := 0 to |listed.value|
        invariant forall k | k in actual :: actual[k] in listed.value && KeyOfService(actual[k]) == k
        invariant forall k | k in actual :: k in managed || k in desired
        invariant forall x | 0 <= x < i :: var k := KeyOfService(listed.value[x]);
          k in managed || k in desired ==> k in actual
      {
        var svc := listed.value[i];
        if KeyOfService(svc) in managed || KeyOfService(svc) in desired {
          actual := actual[KeyOfService(svc) := svc];
        }
      }
      forall k | k in handle.services && (k in managed || k in desired) ensures k in actual {
        assert handle.services[k] in listed.value;
      }
      r := Some(actual);
    }

    /** The first service loop of Reconcile: create or update, then the destinations, in some order of the keys. */
    method BringAboutServices(desired: Desired, actual: Services)
      returns (errs: seq<ReconcileError>, ghost trail: seq<Turn>)
      requires handle.Valid()
      modifies this`managed, handle
      ensures handle.Valid() && handle.faults == old(handle.faults)
      ensures Trail(trail, desired, actual, old(Here()), Here(), handle.faults)
      ensures KeysOf(trail) == desired.Keys && errs == WorkOf(trail).errs
    {
      ghost var start := Here();
      errs, trail := [], [];
      var todo := desired.Keys;
      while todo != {}
        invariant handle.Valid() && handle.faults == old(handle.faults)
        invariant UnderWay(trail, desired, actual, start, Here(), todo, errs, handle.faults)
      {
        var key :| key in todo;
        errs, trail := TakeTurn(key, desired, actual, errs, start, trail, todo);
        todo := todo - {key};
      }
      AllTaken(trail, desired, actual, start, Here(), errs, handle.faults);
    }

    method TakeTurn(key: ServiceKey, desired: Desired, actual: Services, errs0: seq<ReconcileError>,
      ghost start: Situation, ghost trail0: seq<Turn>, ghost todo: set<ServiceKey>)
      returns (errs: seq<ReconcileError>, ghost trail: seq<Turn>)
      requires handle.Valid() && key in todo && key in desired
      requires UnderWay(trail0, desired, actual, start, Here(), todo, errs0, handle.faults)
      modifies this`managed, handle
      ensures handle.Valid() && handle.faults == old(handle.faults)
      ensures UnderWay(trail, desired, actual, start, Here(), todo - {key}, errs, handle.faults)
    {
      ghost var before := Here();
      var more;
      ghost var work;
      more, work := ReconcileService(key, desired[key], if key in actual then Some(actual[key]) else None);
      ghost var turn := Turn(key, before, work, Here());
      OneTaken(trail0, turn, desired, actual, start, todo, errs0, handle.faults);
      errs, trail := errs0 + more, trail0 + [turn];
    }

    /** The second service loop of Reconcile: delete what is managed and no longer desired. */
    method DeleteServices(desired: Desired, actual: Services) returns (errs: seq<ReconcileError>,
      ghost gone: set<ServiceKey>)
      requires handle.Valid() && forall k | k in actual :: KeyOfService(actual[k]) == k && k in handle.services
      modifies this`managed, handle
      ensures handle.Valid() && handle.faults == old(handle.faults) && managed == old(managed) - gone
      ensures Deleted(old(handle.Seen()), actual.Keys - desired.Keys, gone, errs, handle.Seen(), handle.faults)
    {
      ghost var start, managed0 := handle.Seen(), managed;
      errs, gone := [], {};
      var todo := actual.Keys;
      ghost var stale: set<ServiceKey> := {};
      NothingDeleted(start, stale, handle.faults);
      while todo != {}
        invariant handle.Valid() && handle.faults == old(handle.faults)
        invariant LookedAt(actual.Keys, todo, desired.Keys, stale) && Forgot(managed0, gone, {}, managed)
        invariant Deleted(start, stale, gone, errs, handle.Seen(), handle.faults)
      {
        var key :| key in todo;
        LookedAtStep(actual.Keys, todo, desired.Keys, stale, key, todo - {key});
        todo := todo - {key};
        if key !in desired {
          errs, gone := DeleteOne(key, actual[key], errs, start, stale, gone, managed0, {});
          stale := stale + {key};
        }
      }
      LookedAtAll(actual.Keys, desired.Keys, stale);
    }

    /** Deletes one service, and forgets it if that succeeded. */
    method DeleteOne(key: ServiceKey, svc: Service, errs0: seq<ReconcileError>, ghost start: View,
      ghost stale: set<ServiceKey>, ghost gone0: set<ServiceKey>, ghost managed0: set<ServiceKey>,
      ghost absent: set<ServiceKey>)
      returns (errs: seq<ReconcileError>, ghost gone: set<ServiceKey>)
      requires handle.Valid() && KeyOfService(svc) == key && key in start.store.services && key !in stale
      requires Deleted(start, stale, gone0, errs0, handle.Seen(), handle.faults)
      requires Forgot(managed0, gone0, absent, managed)
      modifies this`managed, handle
      ensures handle.Valid() && handle.faults == old(handle.faults)
      ensures Deleted(start, stale + {key}, gone, errs, handle.Seen(), handle.faults)
      ensures Forgot(managed0, gone, absent, managed)
    {
      ghost var before := handle.Seen();
      var e := handle.DelService(svc);
      DeletedStep(start, stale, gone0, errs0, before, handle.faults, key, e.None?, handle.Seen());
      if e.Some? {
        return errs0 + [ServiceCall(DeleteService(key))], gone0;
      }
      ForgotStep(managed0, gone0, absent, managed, key);
      managed := managed - {key};
      errs, gone := errs0, gone0 + {key};
    }

    /** The rule list of reconcileSNAT. */
    method BuildRules(cfgs: seq<ServiceConfig>, answers: Answers)
      returns (r: Result<(seq<SNATRule>, seq<ForwardRule>), ConversionError>)
      ensures r == match RulesOf(lib, cfgs, answers)
                   case Failure(e) => Failure(e)
                   case Success(rules) => Success((rules, ForwardRules(rules)))
    {
      var snatRules: seq<SNATRule> := [];
      var forwardRules: seq<ForwardRule> := [];
      for i := 0 to |cfgs|
        invariant RulesUpTo(lib, cfgs, i, answers) == Success(snatRules)
        invariant forwardRules == ForwardRules(snatRules)
      {
        if !cfgs[i].fullNAT {
          continue;
        }
        ghost var before := snatRules;
        for j := 0 to |cfgs[i].backends|
          invariant BackendRulesUpTo(lib, cfgs, i, j, answers).Success?
          invariant snatRules == before + BackendRulesUpTo(lib, cfgs, i, j, answers).value
          invariant forwardRules == ForwardRules(snatRules)
        {
          if cfgs[i].healthCheck.IsEnabled() && !answers(i, j) {
            continue;
          }
          var address := SplitAddress(lib, cfgs[i].backends[j].address);
          if address.Failure? {
            BackendRulesFailEarly(lib, cfgs, i, j + 1, |cfgs[i].backends|, answers);
            RulesFailEarly(lib, cfgs, i + 1, |cfgs|, answers);
            return Failure(address.error);
          }
          var protocol := if cfgs[i].protocol == "" then "tcp" else cfgs[i].protocol;
          var (host, port) := address.value;
          snatRules := snatRules + [SNATRule(host, protocol, cfgs[i].snatIP, port)];
          forwardRules := forwardRules + [ForwardRule(host, protocol, port)];
        }
      }
      r := Success((snatRules, forwardRules));
    }

    method ReconcileSNAT(cfgs: seq<ServiceConfig>, answers: Answers) returns (err: Option<ReconcileError>)
      modifies snatMgr
      ensures SNATEffect(RulesOf(lib, cfgs, answers), old(snatMgr.managed), old(snatMgr.managedForward),
                snatMgr.managed, snatMgr.managedForward, err)
    {
      var built := BuildRules(cfgs, answers);
      if built.Failure? {
        return Some(SnatFailed(built.error));
      }
      snatMgr.Reconcile(built.value.0);
      snatMgr.ReconcileForward(built.value.1);
      err := None;
    }

    /**
     Reconcile: `answers` and `snatAnswers` are the health answers read while building the desired state and the
     rule lists; `work` are the handle calls made, those that succeeded, and the errors from them.  `applied` says that
     the desired state was built and the table read.
     */
    method Reconcile(cfgs: seq<ServiceConfig>, answers: Answers, snatAnswers: Answers)
      returns (errs: seq<ReconcileError>, ghost applied: bool, ghost work: Work)
      requires handle.Valid()
      modifies this, handle, snatMgr
      ensures handle.Valid() && handle.faults == old(handle.faults)
      ensures applied <==> DesiredOf(lib, cfgs, answers).Success? && !handle.faults.unlisted
      // A configuration that cannot be converted, or a table that cannot be read, stops everything.
      ensures !applied ==>
        && errs == (match DesiredOf(lib, cfgs, answers)
             case Failure(e) => [BuildFailed(e)]
             case Success(_) => [ServicesUnread])
        && work == NO_WORK
        && Here() == old(Here()) && errorCount == old(errorCount)
        && snatMgr.managed == old(snatMgr.managed) && snatMgr.managedForward == old(snatMgr.managedForward)
      // Otherwise both service loops run, and the rules follow.
      ensures applied ==> errorCount == old(errorCount) + |errs|
      ensures applied ==>
        && TableRun(old(Here()), DesiredOf(lib, cfgs, answers).value, work, Here(), handle.faults)
        && TableReport(old(Here()), DesiredOf(lib, cfgs, answers).value, work, Here(), handle.faults)
      ensures applied ==> exists err ::
        && SNATEffect(RulesOf(lib, cfgs, snatAnswers), old(snatMgr.managed), old(snatMgr.managedForward),
             snatMgr.managed, snatMgr.managedForward, err)
        && errs == (if err.Some? then work.errs + [err.value] else work.errs)
    {
      var built := BuildDesiredState(cfgs, answers);
      if built.Failure? {
        return [BuildFailed(built.error)], false, NO_WORK;
      }
      var desired := built.value;
      var actual := ReadServices(desired);
      if actual.None? {
        return [ServicesUnread], false, NO_WORK;
      }
      applied := true;
      errs, work := ReconcileTable(desired, actual.value);
      ghost var end := Here();
      var err := ReconcileSNAT(cfgs, snatAnswers);
      if err.Some? {
        errs := errs + [err.value];
      }
      errorCount := errorCount + |errs|;
      assert Here() == end;
    }

    /** Phases 3 and 4 of Reconcile. */
    method ReconcileTable(desired: Desired, actual: Services) returns (errs: seq<ReconcileError>, ghost work: Work)
      requires handle.Valid() && actual == Listing(handle.services, managed, desired)
      modifies this`managed, handle
      ensures handle.Valid() && handle.faults == old(handle.faults) && errs == work.errs
      ensures TableRun(old(Here()), desired, work, Here(), handle.faults)
      ensures TableReport(old(Here()), desired, work, Here(), handle.faults)
    {
      ghost var start := Here();
      var more;
      ghost var trail, gone;
      errs, trail := BringAboutServices(desired, actual);
      ghost var mid, stale := Here(), actual.Keys - desired.Keys;
      TrailKeeps(trail, desired, actual, start, mid, handle.faults);
      more, gone := DeleteServices(desired, actual);
      work := WorkOf(trail).Plus(DeletionWork(gone, stale, more));
      assert RunBy(start, desired, work, Here(), handle.faults, trail, mid, gone, more);
      TableReported(start, desired, work, Here(), handle.faults);
      errs := errs + more;
    }

    method ReadAllServices() returns (r: Option<Services>)
      requires handle.Valid()
      ensures r.Some? <==> !handle.faults.unlisted
      ensures r.Some? ==> r.value == handle.services
    {
      var listed := handle.GetServices();
      if listed.Failure? {
        return None;
      }
      var actual: Services := map[];
      for i := 0 to |listed.value|
        invariant forall k | k in actual :: actual[k] in listed.value && KeyOfService(actual[k]) == k
        invariant forall x | 0 <= x < i :: KeyOfService(listed.value[x]) in actual
      {
        actual := actual[KeyOfService(listed.value[i]) := listed.value[i]];
      }
      forall k | k in handle.services ensures k in actual {
        assert handle.services[k] in listed.value;
      }
      r := Some(actual);
    }

    /** Cleanup deletes the managed services, and no others. */
    method Cleanup() returns (errs: seq<ReconcileError>, ghost applied: bool, ghost work: Work)
      requires handle.Valid()
      modifies this`managed, handle
      ensures handle.Valid() && handle.faults == old(handle.faults)
      ensures applied <==> !handle.faults.unlisted
      ensures !applied ==> errs == [ServicesUnread] && Here() == old(Here())
      ensures applied && !handle.faults.refusals ==> errs == []
      ensures applied ==>
        && errs == work.errs
        && Tracks(old(handle.calls), handle.calls, work.done, work.tried)
        && CleanupEffect(old(handle.Contents()), old(managed), work, handle.Contents(), managed)
    {
      ghost var start, managed0 := handle.Seen(), managed;
      var actual := ReadAllServices();
      if actual.None? {
        return [ServicesUnread], false, NO_WORK;
      }
      errs, applied := [], true;
      var todo := managed;
      ghost var stale: set<ServiceKey>, gone: set<ServiceKey>, absent: set<ServiceKey> := {}, {}, {};
      NothingDeleted(start, stale, handle.faults);
      while todo != {}
        invariant handle.Valid() && handle.faults == old(handle.faults) && todo <= managed0
        invariant Sorted(managed0, todo, actual.value.Keys, stale, absent) && Forgot(managed0, gone, absent, managed)
        invariant Deleted(start, stale, gone, errs, handle.Seen(), handle.faults)
      {
        var key :| key in todo;
        SortedStep(managed0, todo, actual.value.Keys, stale, absent, key, todo - {key});
        todo := todo - {key};
        if key in actual.value {
          errs, gone := DeleteOne(key, actual.value[key], errs, start, stale, gone, managed0, absent);
          stale := stale + {key};
        } else {
          ForgotStep(managed0, gone, absent, managed, key);
          managed, absent := managed - {key}, absent + {key};
        }
      }
      CleanupSplits(managed0, actual.value.Keys, stale, gone, absent, managed);
      work := DeletionWork(gone, stale, errs);
      CleanupIsPass(start, managed0, stale, gone, errs, handle.Seen(), managed, handle.faults);
    }
  }
}
