/** The in-memory IPVS handle (pkg/lvs/ipvs_handle_fake.go), with an optional environment that refuses calls. */
module FakeHandle {
  import opened Wrappers
  import opened LvsTypes
  import opened Diff
  import opened CallLog

  datatype HandleError = AlreadyExists | NotFound | Refused

  /**
   Mutating calls may be refused, without effect; the services cannot be listed; the destinations of some services
   cannot be listed.
   */
  datatype Faults = Faults(refusals: bool, unlisted: bool, unread: set<ServiceKey>) {
    predicate Absent() {
      this == NO_FAULTS
    }
  }

  const NO_FAULTS := Faults(false, false, {})

  ghost function AddService(s: Store, svc: Service): Store {
    var k := KeyOfService(svc);
    Store(s.services[k := svc], s.dests[k := map[]])
  }

  ghost function ReplaceService(s: Store, svc: Service): Store {
    Store(s.services[KeyOfService(svc) := svc], s.dests)
  }

  /** Deleting a service takes its destinations with it. */
  ghost function DropService(s: Store, k: ServiceKey): Store {
    Store(s.services - {k}, s.dests - {k})
  }

  ghost function SetDestination(s: Store, k: ServiceKey, dst: Destination): Store
    requires k in s.dests
  {
    Store(s.services, s.dests[k := s.dests[k][KeyOfDestination(dst) := dst]])
  }

  ghost function DropDestination(s: Store, k: ServiceKey, d: DestinationKey): Store
    requires k in s.dests
  {
    Store(s.services, s.dests[k := s.dests[k] - {d}])
  }

  class Handle {
    var services: map<ServiceKey, Service>
    var destinations: map<ServiceKey, DestinationMap>
    /** What the environment refuses. */
    var faults: Faults
    /** Every mutating call made so far, with its result. */
    ghost var calls: seq<Call>

    ghost function Contents(): Store
      reads this
    {
      Store(services, destinations)
    }

    ghost function Seen(): View
      reads this
    {
      View(Contents(), calls)
    }

    ghost predicate Valid()
      reads this
    {
      WellFormed(Contents())
    }

    constructor ()
      ensures Valid() && Contents() == Store(map[], map[]) && calls == [] && faults == NO_FAULTS
    {
      services, destinations, faults, calls := map[], map[], NO_FAULTS, [];
    }

    /** Does the environment refuse this mutating call? */
    method Refuses() returns (refused: bool)
      ensures refused ==> faults.refusals
    {
      var choice: bool := *;
      refused := faults.refusals && choice;
    }

    method NewService(svc: Service) returns (err: Option<HandleError>)
      requires Valid()
      modifies this`services, this`destinations, this`calls
      ensures Valid()
      ensures calls == old(calls) + [Call(CreateService(KeyOfService(svc)), err.None?)]
      ensures err.None? ==> KeyOfService(svc) !in old(services)
      ensures !faults.refusals ==> err == if KeyOfService(svc) in old(services) then Some(AlreadyExists) else None
      ensures Contents() == if err.None? then AddService(old(Contents()), svc) else old(Contents())
    {
      var key := KeyOfService(svc);
      var refused := Refuses();
      if refused {
        err := Some(Refused);
      } else if key in services {
        err := Some(AlreadyExists);
      } else {
        services := services[key := svc];
        destinations := destinations[key := map[]];
        err := None;
      }
      calls := calls + [Call(CreateService(key), err.None?)];
    }

    method UpdateService(svc: Service) returns (err: Option<HandleError>)
      requires Valid()
      modifies this`services, this`calls
      ensures Valid()
      ensures calls == old(calls) + [Call(Op.UpdateService(KeyOfService(svc)), err.None?)]
      ensures err.None? ==> KeyOfService(svc) in old(services)
      ensures !faults.refusals ==> err == if KeyOfService(svc) in old(services) then None else Some(NotFound)
      ensures Contents() == if err.None? then ReplaceService(old(Contents()), svc) else old(Contents())
    {
      var key := KeyOfService(svc);
      var refused := Refuses();
      if refused {
        err := Some(Refused);
      } else if key !in services {
        err := Some(NotFound);
      } else {
        services := services[key := svc];
        err := None;
      }
      calls := calls + [Call(Op.UpdateService(key), err.None?)];
    }

    method DelService(svc: Service) returns (err: Option<HandleError>)
      requires Valid()
      modifies this`services, this`destinations, this`calls
      ensures Valid()
      ensures calls == old(calls) + [Call(DeleteService(KeyOfService(svc)), err.None?)]
      ensures err.None? ==> KeyOfService(svc) in old(services)
      ensures !faults.refusals ==> err == if KeyOfService(svc) in old(services) then None else Some(NotFound)
      ensures Contents() == if err.None? then DropService(old(Contents()), KeyOfService(svc)) else old(Contents())
    {
      var key := KeyOfService(svc);
      var refused := Refuses();
      if refused {
        err := Some(Refused);
      } else if key !in services {
        err := Some(NotFound);
      } else {
        services := services - {key};
        destinations := destinations - {key};
        err := None;
      }
      calls := calls + [Call(DeleteService(key), err.None?)];
    }

    /** All services, in an order the caller cannot rely on. */
    method GetServices() returns (r: Result<seq<Service>, HandleError>)
      requires Valid()
      ensures r.Failure? <==> faults.unlisted
      ensures r.Success? ==>
        forall svc :: svc in r.value <==> KeyOfService(svc) in services && services[KeyOfService(svc)] == svc
    {
      if faults.unlisted {
        return Failure(Refused);
      }
      var listed: seq<Service> := [];
      var todo := services.Keys;
      while todo != {}
        invariant todo <= services.Keys
        invariant forall svc :: svc in listed <==>
          KeyOfService(svc) in services && KeyOfService(svc) !in todo && services[KeyOfService(svc)] == svc
      {
        var key :| key in todo;
        todo := todo - {key};
        listed := listed + [services[key]];
      }
      r := Success(listed);
    }

    method NewDestination(svc: Service, dst: Destination) returns (err: Option<HandleError>)
      requires Valid()
      modifies this`destinations, this`calls
      ensures Valid()
      ensures calls == old(calls) + [Call(CreateDestination(KeyOfService(svc), KeyOfDestination(dst)), err.None?)]
      ensures var k, d := KeyOfService(svc), KeyOfDestination(dst);
        && (err.None? ==> k in old(destinations) && d !in old(destinations)[k])
        && (!faults.refusals && k !in old(destinations) ==> err == Some(NotFound))
        && (!faults.refusals && k in old(destinations) ==>
              err == if d in old(destinations)[k] then Some(AlreadyExists) else None)
        && Contents() == if err.None? then SetDestination(old(Contents()), k, dst) else old(Contents())
    {
      var key, dstKey := KeyOfService(svc), KeyOfDestination(dst);
      var refused := Refuses();
      if refused {
        err := Some(Refused);
      } else if key !in destinations {
        err := Some(NotFound);
      } else if dstKey in destinations[key] {
        err := Some(AlreadyExists);
      } else {
        destinations := destinations[key := destinations[key][dstKey := dst]];
        err := None;
      }
      calls := calls + [Call(CreateDestination(key, dstKey), err.None?)];
    }

    method UpdateDestination(svc: Service, dst: Destination) returns (err: Option<HandleError>)
      requires Valid()
      modifies this`destinations, this`calls
      ensures Valid()
      ensures calls == old(calls) + [Call(Op.UpdateDestination(KeyOfService(svc), KeyOfDestination(dst)), err.None?)]
      ensures var k, d := KeyOfService(svc), KeyOfDestination(dst);
        && (err.None? ==> k in old(destinations) && d in old(destinations)[k])
        && (!faults.refusals ==>
              err == if k in old(destinations) && d in old(destinations)[k] then None else Some(NotFound))
        && Contents() == if err.None? then SetDestination(old(Contents()), k, dst) else old(Contents())
    {
      var key, dstKey := KeyOfService(svc), KeyOfDestination(dst);
      var refused := Refuses();
      if refused {
        err := Some(Refused);
      } else if key !in destinations || dstKey !in destinations[key] {
        err := Some(NotFound);
      } else {
        destinations := destinations[key := destinations[key][dstKey := dst]];
        err := None;
      }
      calls := calls + [Call(Op.UpdateDestination(key, dstKey), err.None?)];
    }

    method DelDestination(svc: Service, dst: Destination) returns (err: Option<HandleError>)
      requires Valid()
      modifies this`destinations, this`calls
      ensures Valid()
      ensures calls == old(calls) + [Call(DeleteDestination(KeyOfService(svc), KeyOfDestination(dst)), err.None?)]
      ensures var k, d := KeyOfService(svc), KeyOfDestination(dst);
        && (err.None? ==> k in old(destinations) && d in old(destinations)[k])
        && (!faults.refusals ==>
              err == if k in old(destinations) && d in old(destinations)[k] then None else Some(NotFound))
        && Contents() == if err.None? then DropDestination(old(Contents()), k, d) else old(Contents())
    {
      var key, dstKey := KeyOfService(svc), KeyOfDestination(dst);
      var refused := Refuses();
      if refused {
        err := Some(Refused);
      } else if key !in destinations || dstKey !in destinations[key] {
        err := Some(NotFound);
      } else {
        destinations := destinations[key := destinations[key] - {dstKey}];
        err := None;
      }
      calls := calls + [Call(DeleteDestination(key, dstKey), err.None?)];
    }

    method GetDestinations(svc: Service) returns (r: Result<seq<Destination>, HandleError>)
      requires Valid()
      ensures r.Success? <==> KeyOfService(svc) in destinations && KeyOfService(svc) !in faults.unread
      ensures r.Success? ==> forall dst :: dst in r.value <==>
        var table := destinations[KeyOfService(svc)];
        KeyOfDestination(dst) in table && table[KeyOfDestination(dst)] == dst
    {
      var key := KeyOfService(svc);
      if key in faults.unread {
        return Failure(Refused);
      }
      if key !in destinations {
        return Failure(NotFound);
      }
      var table := destinations[key];
      var listed: seq<Destination> := [];
      var todo := table.Keys;
      while todo != {}
        invariant todo <= table.Keys
        invariant forall dst :: dst in listed <==>
          KeyOfDestination(dst) in table && KeyOfDestination(dst) !in todo && table[KeyOfDestination(dst)] == dst
      {
        var d :| d in todo;
        todo := todo - {d};
        listed := listed + [table[d]];
      }
      r := Success(listed);
    }
  }
}
