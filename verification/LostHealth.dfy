/**
 That it does happen: from every moment there is a way to come to rest, and a validated configuration with one named
 port has a run, from checks just started, that comes to rest out of date without any failing kernel call.
 */
module LostHealth {
  import opened Wrappers
  import opened Config
  import opened LvsTypes
  import opened Diff
  import opened Pass
  import opened Snat
  import opened DesiredState
  import opened Convergence
  import opened Health
  import opened Settling
  import opened Validation
  import opened ValidConfigs
  import opened HealthProtocol
  import opened AtRest

  // ----- Paths -----

  /** Some steps lead from `a` to `b`, none of which fails in the kernel, and if `quiet` none is a check result. */
  ghost predicate Leads(lib: Lib, cfgs: seq<ServiceConfig>, a: State, b: State, quiet: bool) {
    exists states, steps :: LeadsBy(lib, cfgs, a, b, quiet, states, steps)
  }

  ghost predicate LeadsBy(lib: Lib, cfgs: seq<ServiceConfig>, a: State, b: State, quiet: bool, states: seq<State>,
    steps: seq<Step>)
  {
    && Path(lib, cfgs, states, steps) && states[0] == a && states[|steps|] == b
    && (quiet ==> forall n | 0 <= n < |steps| :: !steps[n].Checked?)
  }

  lemma LeadsNowhere(lib: Lib, cfgs: seq<ServiceConfig>, a: State, quiet: bool)
    ensures Leads(lib, cfgs, a, a, quiet)
  {
    assert LeadsBy(lib, cfgs, a, a, quiet, [a], []);
  }

  lemma LeadsOn(lib: Lib, cfgs: seq<ServiceConfig>, a: State, b: State, quiet: bool, step: Step, c: State)
    requires Leads(lib, cfgs, a, b, quiet) && Next(lib, cfgs, b, step, c) && Reliable(step)
    requires quiet ==> !step.Checked?
    ensures Leads(lib, cfgs, a, c, quiet)
  {
    var states, steps :| LeadsBy(lib, cfgs, a, b, quiet, states, steps);
    PathGrows(lib, cfgs, states, steps, step, c);
    assert LeadsBy(lib, cfgs, a, c, quiet, states + [c], steps + [step]);
  }

  lemma PathGrows(lib: Lib, cfgs: seq<ServiceConfig>, states: seq<State>, steps: seq<Step>, step: Step, c: State)
    requires Path(lib, cfgs, states, steps) && Next(lib, cfgs, states[|steps|], step, c) && Reliable(step)
    ensures Path(lib, cfgs, states + [c], steps + [step])
  {
    var states', steps' := states + [c], steps + [step];
    forall n | 0 <= n < |steps'| ensures Next(lib, cfgs, states'[n], steps'[n], states'[n + 1]) && Reliable(steps'[n]) {
      if n < |steps| {
        assert states'[n] == states[n] && states'[n + 1] == states[n + 1] && steps'[n] == steps[n];
      }
    }
  }

  /** Everything asked for has been read, except perhaps what is in `todo`. */
  ghost predicate ReadBut(cfgs: seq<ServiceConfig>, record: Reads, todo: set<(nat, nat)>) {
    forall i: nat, j: nat | Asked(cfgs, i, j) :: (i, j) in record || (i, j) in todo
  }

  ghost function AllAsked(cfgs: seq<ServiceConfig>): (pairs: set<(nat, nat)>)
    ensures forall i: nat, j: nat :: (i, j) in pairs <==> Asked(cfgs, i, j)
  {
    set i: nat, j: nat | i < |cfgs| && j < |cfgs[i].backends| && Asked(cfgs, i, j) :: (i, j)
  }

  /** What is left to be read can be read, and with nothing happening in between all answers are the current ones. */
  lemma {:induction false} ReadOn(lib: Lib, cfgs: seq<ServiceConfig>, a: State, b: State, quiet: bool,
    todo: set<(nat, nat)>)
    returns (c: State)
    requires Leads(lib, cfgs, a, b, quiet) && !b.phase.Idle?
    requires Fresh(cfgs, b.phase.record, b.statuses) && ReadBut(cfgs, b.phase.record, todo)
    requires forall p | p in todo :: Asked(cfgs, p.0, p.1)
    ensures Leads(lib, cfgs, a, c, quiet) && !c.phase.Idle? && c == b.(phase := b.phase.(record := c.phase.record))
    ensures Complete(cfgs, c.phase.record) && Fresh(cfgs, c.phase.record, c.statuses)
    decreases todo
  {
    if todo == {} {
      c := b;
    } else {
      var p :| p in todo;
      var next := Read(cfgs, b, p.0, p.1);
      LeadsOn(lib, cfgs, a, b, quiet, ReadHealth(p.0, p.1), next);
      c := ReadOn(lib, cfgs, a, next, quiet, todo - {p});
    }
  }

  lemma ReadAll(lib: Lib, cfgs: seq<ServiceConfig>, a: State, b: State, quiet: bool) returns (c: State)
    requires Leads(lib, cfgs, a, b, quiet) && !b.phase.Idle? && b.phase.record == map[]
    ensures Leads(lib, cfgs, a, c, quiet) && !c.phase.Idle? && c == b.(phase := b.phase.(record := c.phase.record))
    ensures Complete(cfgs, c.phase.record) && Fresh(cfgs, c.phase.record, c.statuses)
  {
    c := ReadOn(lib, cfgs, a, b, quiet, AllAsked(cfgs));
  }

  // ----- There is always a way to come to rest -----

  /**
   A waiting callback can be left to run undisturbed: it succeeds if the configuration converts, and else gives up.
   */
  lemma OneCallback(lib: Lib, cfgs: seq<ServiceConfig>, a: State, b: State, quiet: bool) returns (c: State)
    requires Leads(lib, cfgs, a, b, quiet) && b.phase.Idle? && b.pending > 0
    requires WellFormed(b.store) && CanonicalListens(lib, cfgs)
    ensures Leads(lib, cfgs, a, c, quiet) && c.phase.Idle? && c.pending == b.pending - 1 && c.statuses == b.statuses
    ensures WellFormed(c.store)
    ensures if Converts(lib, cfgs, b.statuses) then c.ruled.Some? else c == b.(pending := b.pending - 1)
  {
    var begun := b.(pending := b.pending - 1, phase := ReadingBackends(map[]));
    LeadsOn(lib, cfgs, a, b, quiet, Begin(true), begun);
    var read := ReadAll(lib, cfgs, a, begun, quiet);
    CurrentReads(lib, cfgs, read.phase.record, read.statuses);
    if Converts(lib, cfgs, b.statuses) {
      var programmed := Programmed(lib, cfgs, a, read, quiet);
      var again := ReadAll(lib, cfgs, a, programmed, quiet);
      c := Ruled(lib, cfgs, a, again, quiet);
    } else {
      c := read.(phase := Idle);
      LeadsOn(lib, cfgs, a, read, quiet, BuildFails, c);
    }
  }

  lemma Programmed(lib: Lib, cfgs: seq<ServiceConfig>, a: State, s: State, quiet: bool) returns (b: State)
    requires Leads(lib, cfgs, a, s, quiet) && s.phase.ReadingBackends? && WellFormed(s.store)
    requires CanonicalListens(lib, cfgs) && Converts(lib, cfgs, s.statuses)
    requires Complete(cfgs, s.phase.record) && Fresh(cfgs, s.phase.record, s.statuses)
    ensures Leads(lib, cfgs, a, b, quiet) && b.phase == ReadingRules(map[]) && WellFormed(b.store)
    ensures b == s.(store := b.store, managed := b.managed, phase := b.phase, programmed := b.programmed)
  {
    CurrentReads(lib, cfgs, s.phase.record, s.statuses);
    var want := DesiredOf(lib, cfgs, Recorded(s.phase.record)).value;
    CanonicalHosts(lib, cfgs, Recorded(s.phase.record));
    var all := DiffOf(s.store, s.managed, want);
    var store, managed := Outcome(s.store, want, all), ManagedAfter(s.store, s.managed, want, all);
    Achievable(s.store, s.managed, want, all);
    OutcomeWellFormed(s.store, want, all);
    b := s.(store := store, managed := managed, phase := ReadingRules(map[]), programmed := Some(s.phase.record));
    LeadsOn(lib, cfgs, a, s, quiet, Program(want, Work(all, all, [], {})), b);
  }

  lemma Ruled(lib: Lib, cfgs: seq<ServiceConfig>, a: State, s: State, quiet: bool) returns (b: State)
    requires Leads(lib, cfgs, a, s, quiet) && s.phase.ReadingRules? && Converts(lib, cfgs, s.statuses)
    requires Complete(cfgs, s.phase.record) && Fresh(cfgs, s.phase.record, s.statuses)
    ensures Leads(lib, cfgs, a, b, quiet) && b.phase == Idle && b.ruled.Some?
    ensures b == s.(phase := Idle, ruled := b.ruled, snat := b.snat, forward := b.forward)
  {
    FreshReadsConvert(lib, cfgs, s.phase.record, s.statuses);
    var rules := RulesOf(lib, cfgs, Recorded(s.phase.record)).value;
    b := s.(phase := Idle, ruled := Some(s.phase.record),
            snat := SNATMerged(s.snat, SNATTableOf(rules)),
            forward := ForwardMerged(s.forward, ForwardTableOf(ForwardRules(rules))));
    LeadsOn(lib, cfgs, a, s, quiet, Finish, b);
  }

  /**
   From every moment without a Reconcile under way the callbacks can run out without further results; the state at rest
   is then either up to date or, if the configuration does not convert, the one before.
   */
  lemma {:induction false} ComesToRest(lib: Lib, cfgs: seq<ServiceConfig>, a: State, b: State, quiet: bool)
    returns (c: State)
    requires Leads(lib, cfgs, a, b, quiet) && b.phase.Idle? && WellFormed(b.store) && CanonicalListens(lib, cfgs)
    requires b.ruled.Some? || (b.pending > 0 && Converts(lib, cfgs, b.statuses))
    ensures Leads(lib, cfgs, a, c, quiet) && Quiescent(c) && c.statuses == b.statuses && WellFormed(c.store)
    ensures !Converts(lib, cfgs, b.statuses) ==> c == b.(pending := 0)
    decreases b.pending
  {
    if b.pending == 0 {
      c := b;
    } else {
      var next := OneCallback(lib, cfgs, a, b, quiet);
      c := ComesToRest(lib, cfgs, a, next, quiet);
    }
  }

  // ----- The transition that gets lost -----

  /** Only this backend has a port that is not a number. */
  ghost predicate OneNamedPort(lib: Lib, cfgs: seq<ServiceConfig>, i: nat, j: nat) {
    && Asked(cfgs, i, j) && !NumericPort(lib, cfgs[i].backends[j].address)
    && (forall x | 0 <= x < |cfgs| :: NumericPort(lib, cfgs[x].listen))
    && (forall x: nat, y: nat | x < |cfgs| && y < |cfgs[x].backends| && (x != i || y != j) ::
          NumericPort(lib, cfgs[x].backends[y].address))
  }

  /** Such a configuration converts exactly while this backend is down. */
  lemma ConvertsIffDown(lib: Lib, cfgs: seq<ServiceConfig>, i: nat, j: nat, statuses: Statuses)
    requires Validated(lib, cfgs) && OneNamedPort(lib, cfgs, i, j)
    ensures Converts(lib, cfgs, statuses) <==> !HealthyIn(statuses, cfgs[i].backends[j].address)
  {
    var answers := Verdicts(cfgs, statuses);
    if HealthyIn(statuses, cfgs[i].backends[j].address) {
      StoppersHaveNamedPorts(lib, cfgs, i, j);
      StopperStops(lib, cfgs, i, j, answers);
    } else {
      forall x | 0 <= x < |cfgs| ensures DesiredServiceOf(lib, cfgs, x, answers).Success? {
        ServiceConverts(lib, cfgs, x, answers);
        forall y | 0 <= y < |cfgs[x].backends| && Selected(cfgs, x, y, answers)
          ensures NumericPort(lib, cfgs[x].backends[y].address)
        {
          assert x != i || y != j;
        }
      }
      EntriesConvert(lib, cfgs, |cfgs|, answers);
    }
  }

  function Result(statuses: Statuses, address: string, ok: bool): Statuses
    requires address in statuses
  {
    statuses[address := AfterResult(statuses[address], ok, statuses[address].check)]
  }

  /** The same result until the verdict has flipped to it, as it must sooner or later. */
  lemma {:induction false} UntilFlipped(lib: Lib, cfgs: seq<ServiceConfig>, a: State, b: State, address: string,
    ok: bool)
    returns (c: State)
    requires Leads(lib, cfgs, a, b, false) && address in b.statuses && b.statuses[address].healthy != ok
    ensures Leads(lib, cfgs, a, c, false) && address in c.statuses && c.statuses[address].healthy == ok
    ensures c == b.(statuses := c.statuses, pending := b.pending + 1)
    ensures forall other | other != address :: StatusOf(c.statuses, other) == StatusOf(b.statuses, other)
    decreases var st := b.statuses[address];
      if ok then st.check.riseCount - st.consecutiveOK else st.check.failCount - st.consecutiveFails
  {
    var statuses := Result(b.statuses, address, ok);
    if statuses[address].healthy == ok {
      c := b.(statuses := statuses, pending := b.pending + 1);
      LeadsOn(lib, cfgs, a, b, false, Checked(address, ok), c);
    } else {
      var next := b.(statuses := statuses);
      LeadsOn(lib, cfgs, a, b, false, Checked(address, ok), next);
      c := UntilFlipped(lib, cfgs, a, next, address, ok);
    }
  }

  /** Backend (x, y) is health-checked and the only one with its destination in its service. */
  ghost predicate OnlyFor(lib: Lib, cfgs: seq<ServiceConfig>, x: nat, y: nat, d: DestinationKey) {
    && Asked(cfgs, x, y) && Names(lib, cfgs[x].backends[y], d)
    && forall y' | 0 <= y' < |cfgs[x].backends| && y' != y :: !Names(lib, cfgs[x].backends[y'], d)
  }

  predicate Names(lib: Lib, backend: BackendConfig, d: DestinationKey) {
    ConfigToDestination(lib, backend).Success? && KeyOfDestination(ConfigToDestination(lib, backend).value) == d
  }

  lemma AvailableIffHealthy(lib: Lib, cfgs: seq<ServiceConfig>, x: nat, y: nat, d: DestinationKey, statuses: Statuses)
    requires OnlyFor(lib, cfgs, x, y, d)
    ensures SomeAvailable(lib, cfgs[x], d, statuses) <==> HealthyIn(statuses, cfgs[x].backends[y].address)
  {
    if HealthyIn(statuses, cfgs[x].backends[y].address) {
      assert Available(lib, cfgs[x], y, d, statuses);
    }
    if j :| 0 <= j < |cfgs[x].backends| && Available(lib, cfgs[x], j, d, statuses) {
      assert Names(lib, cfgs[x].backends[j], d);
    }
  }

  /** Just started, a backend listed with health checks only is tracked and healthy. */
  lemma FreshlyStarted(cfgs: seq<ServiceConfig>, statuses: Statuses, a: string)
    requires Targeted(cfgs, map[], map[], statuses) && OnlyChecked(cfgs, a)
    ensures a in statuses && statuses[a].healthy
  {
    FirstCheckerExists(cfgs, |cfgs|, a);
    var i :| 0 <= i < |cfgs| && FirstChecker(cfgs, i, a);
    UpdateKeeps(cfgs, map[], map[], statuses, a, i);
  }

  lemma NamedPortIsOnlyChecked(lib: Lib, cfgs: seq<ServiceConfig>, i: nat, j: nat)
    requires OneNamedPort(lib, cfgs, i, j)
    ensures OnlyChecked(cfgs, cfgs[i].backends[j].address)
  {
    var address := cfgs[i].backends[j].address;
    assert Health.Lists(cfgs[i], address);
    forall x: nat, y: nat | x < |cfgs| && y < |cfgs[x].backends| && cfgs[x].backends[y].address == address
      ensures cfgs[x].healthCheck.IsEnabled()
    {
      assert x == i;
    }
  }

  /**
   The loss.  In a validated configuration with one named port, that of a health-checked backend, all checks have just
   been started and nothing is programmed yet.  Then this backend fails, and the table is brought up to date; it
   recovers; and another backend fails, the only one of a destination of service `x`.  Everything comes to rest, with
   no kernel call having failed, and the failed backend is still in the table.
   */
  lemma TransitionGetsLost(lib: Lib, cfgs: seq<ServiceConfig>, start: State, i: nat, j: nat, x: nat, y: nat,
    k: ServiceKey, d: DestinationKey)
    returns (states: seq<State>, steps: seq<Step>)
    requires Validated(lib, cfgs) && CanonicalListens(lib, cfgs) && OneNamedPort(lib, cfgs, i, j)
    requires x < |cfgs| && Files(lib, cfgs, x, k) && OnlyFor(lib, cfgs, x, y, d)
    requires OnlyChecked(cfgs, cfgs[x].backends[y].address)
    requires cfgs[x].backends[y].address != cfgs[i].backends[j].address
    requires Initial(start) && Targeted(cfgs, map[], map[], start.statuses)
    ensures Run(lib, cfgs, states, steps) && states[0] == start
    ensures var end := states[|steps|];
      && Quiescent(end) && !Current(lib, cfgs[x], k, end)
      && k in end.store.dests && d in end.store.dests[k] && !SomeAvailable(lib, cfgs[x], d, end.statuses)
  {
    var named, failing := cfgs[i].backends[j].address, cfgs[x].backends[y].address;
    NamedPortIsOnlyChecked(lib, cfgs, i, j);
    FreshlyStarted(cfgs, start.statuses, named);
    FreshlyStarted(cfgs, start.statuses, failing);
    LeadsNowhere(lib, cfgs, start, false);
    var down := UntilFlipped(lib, cfgs, start, start, named, false);
    assert StatusOf(down.statuses, failing) == StatusOf(start.statuses, failing);
    ConvertsIffDown(lib, cfgs, i, j, down.statuses);
    var rest := ComesToRest(lib, cfgs, start, down, false);
    ShownAtRest(lib, cfgs, start, rest, x, y, k, d);
    var end := LostAfterRest(lib, cfgs, start, rest, i, j, x, y, d);
    AvailableIffHealthy(lib, cfgs, x, y, d, end.statuses);
    states, steps :| LeadsBy(lib, cfgs, start, end, false, states, steps);
  }

  lemma ShownAtRest(lib: Lib, cfgs: seq<ServiceConfig>, start: State, rest: State, x: nat, y: nat, k: ServiceKey,
    d: DestinationKey)
    requires CanonicalListens(lib, cfgs) && Initial(start) && Leads(lib, cfgs, start, rest, false)
    requires Quiescent(rest) && Converts(lib, cfgs, rest.statuses)
    requires x < |cfgs| && Files(lib, cfgs, x, k) && OnlyFor(lib, cfgs, x, y, d)
    requires HealthyIn(rest.statuses, cfgs[x].backends[y].address)
    ensures k in rest.store.dests && d in rest.store.dests[k]
  {
    var states, steps :| LeadsBy(lib, cfgs, start, rest, false, states, steps);
    NoLostTransition(lib, cfgs, states, steps, |steps|, x, k);
    AvailableIffHealthy(lib, cfgs, x, y, d, rest.statuses);
  }

  /** From rest: the named-port backend recovers, the other one fails, and nothing is done about it. */
  lemma LostAfterRest(lib: Lib, cfgs: seq<ServiceConfig>, start: State, rest: State, i: nat, j: nat, x: nat, y: nat,
    d: DestinationKey) returns (end: State)
    requires Validated(lib, cfgs) && CanonicalListens(lib, cfgs) && OneNamedPort(lib, cfgs, i, j)
    requires OnlyFor(lib, cfgs, x, y, d) && cfgs[x].backends[y].address != cfgs[i].backends[j].address
    requires Leads(lib, cfgs, start, rest, false) && Quiescent(rest) && WellFormed(rest.store)
    requires var named := cfgs[i].backends[j].address; named in rest.statuses && !rest.statuses[named].healthy
    requires var failing := cfgs[x].backends[y].address; failing in rest.statuses && rest.statuses[failing].healthy
    ensures Leads(lib, cfgs, start, end, false) && Quiescent(end) && end.store == rest.store
    ensures !HealthyIn(end.statuses, cfgs[x].backends[y].address)
  {
    var named, failing := cfgs[i].backends[j].address, cfgs[x].backends[y].address;
    var up := UntilFlipped(lib, cfgs, start, rest, named, true);
    ConvertsIffDown(lib, cfgs, i, j, up.statuses);
    var idle := ComesToRest(lib, cfgs, start, up, false);
    assert StatusOf(idle.statuses, failing) == StatusOf(rest.statuses, failing);
    var failed := UntilFlipped(lib, cfgs, start, idle, failing, false);
    assert StatusOf(failed.statuses, named) == StatusOf(up.statuses, named);
    ConvertsIffDown(lib, cfgs, i, j, failed.statuses);
    end := ComesToRest(lib, cfgs, start, failed, false);
  }

  // ----- A configuration that meets all this -----

  /** A library that reads the addresses below; a port "http" is not a number. */
  const EXAMPLE_LIB := Lib(
    (address: string) =>
      if address == "10.0.0.9:80" then Some(("10.0.0.9", "80"))
      else if address == "10.0.0.1:80" then Some(("10.0.0.1", "80"))
      else if address == "10.0.0.2:http" then Some(("10.0.0.2", "http"))
      else None,
    (port: string) => if port == "80" then Some(80) else None,
    (host: string) => Some(IP(host)),
    (ip: IP) => true,
    (text: string) => None)

  const EXAMPLE := ServiceConfig("web", "10.0.0.9:80", "tcp", "rr", "",
    [BackendConfig("10.0.0.1:80", 1), BackendConfig("10.0.0.2:http", 1)],
    HealthCheckConfig(None, "", "", "", "", 0, 0, 0), false)

  lemma ExampleIsValid()
    ensures Validated(EXAMPLE_LIB, [EXAMPLE])
  {
    var cfg := Config("", "", [EXAMPLE]);
    forall reason ensures Passes(EXAMPLE_LIB, [EXAMPLE], 0, reason) {
      if reason == Backends {
        assert BackendOK(EXAMPLE_LIB, EXAMPLE.backends, 0) && BackendOK(EXAMPLE_LIB, EXAMPLE.backends, 1);
      }
    }
    assert ServiceOK(EXAMPLE_LIB, cfg.services, 0);
    assert Valid(EXAMPLE_LIB, cfg);
    assert [EXAMPLE] == DefaultedAll(cfg.services);
  }

  /** One service with two backends, one of them with a named port, is enough. */
  lemma LossHappens() returns (states: seq<State>, steps: seq<Step>)
    ensures Validated(EXAMPLE_LIB, [EXAMPLE]) && CanonicalListens(EXAMPLE_LIB, [EXAMPLE])
    ensures Run(EXAMPLE_LIB, [EXAMPLE], states, steps) && Quiescent(states[|steps|])
    ensures !Current(EXAMPLE_LIB, EXAMPLE, ServiceKey("10.0.0.9", 80, IPPROTO_TCP), states[|steps|])
  {
    var lib, cfgs := EXAMPLE_LIB, [EXAMPLE];
    ExampleIsValid();
    assert cfgs[0].backends[0].address == "10.0.0.1:80" && cfgs[0].backends[1].address == "10.0.0.2:http";
    var statuses := TargetsExist(cfgs, map[], map[]);
    var start := State(statuses, 0, Idle, Store(map[], map[]), {}, map[], map[], None, None);
    var d := DestinationKey("10.0.0.1", 80);
    assert OneNamedPort(lib, cfgs, 0, 1);
    assert OnlyFor(lib, cfgs, 0, 0, d);
    assert OnlyChecked(cfgs, "10.0.0.1:80") by {
      assert Health.Lists(cfgs[0], "10.0.0.1:80");
    }
    states, steps := TransitionGetsLost(lib, cfgs, start, 0, 1, 0, 0, ServiceKey("10.0.0.9", 80, IPPROTO_TCP), d);
  }
}
