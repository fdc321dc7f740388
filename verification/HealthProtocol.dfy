/**
 Health flip, callback, mutex-serialised Reconcile (pkg/healthcheck/manager.go, pkg/server/server.go,
 pkg/lvs/reconciler.go) as interleaved steps, for a fixed configuration.
 */
module HealthProtocol {
  import opened Wrappers
  import opened Config
  import opened LvsTypes
  import opened Diff
  import opened Pass
  import opened Snat
  import opened DesiredState
  import opened Convergence
  import opened CrossTable
  import opened Health
  import opened Settling
  import opened ValidConfigs
  import R = Reconciler

  /** Health answers recorded so far, by service and backend position. */
  type Reads = map<(nat, nat), bool>

  /** Who holds the reconciler's mutex, and how far it got. */
  datatype Phase = Idle | ReadingBackends(record: Reads) | ReadingRules(record: Reads)

  /**
   `pending` counts the onChange callbacks that have been caused but have not taken the mutex yet.  `programmed` and
   `ruled` remember the answers from which the IPVS table and the rules were last made.
   */
  datatype State = State(
    statuses: Statuses,
    pending: nat,
    phase: Phase,
    store: Store,
    managed: set<ServiceKey>,
    snat: SNATTable,
    forward: ForwardTable,
    programmed: Option<Reads>,
    ruled: Option<Reads>)

  datatype Step =
    | Checked(address: string, ok: bool)
    | Begin(callback: bool)
    | ReadHealth(i: nat, j: nat)
    | BuildFails
    | Unread
    | Program(want: Desired, work: Work)
    | RulesFail
    | Finish
    | Foreign

  function Recorded(record: Reads): Answers {
    (i: nat, j: nat) => (i, j) in record && record[(i, j)]
  }

  /** What a reader would be told if it asked about every backend now. */
  function Verdicts(cfgs: seq<ServiceConfig>, statuses: Statuses): Answers {
    (i: nat, j: nat) => i < |cfgs| && j < |cfgs[i].backends| && HealthyIn(statuses, cfgs[i].backends[j].address)
  }

  predicate Asked(cfgs: seq<ServiceConfig>, i: nat, j: nat) {
    i < |cfgs| && j < |cfgs[i].backends| && cfgs[i].healthCheck.IsEnabled()
  }

  ghost predicate Complete(cfgs: seq<ServiceConfig>, record: Reads) {
    forall i: nat, j: nat | Asked(cfgs, i, j) :: (i, j) in record
  }

  /** The recorded answers are the current ones. */
  ghost predicate Fresh(cfgs: seq<ServiceConfig>, record: Reads, statuses: Statuses) {
    forall i: nat, j: nat | Asked(cfgs, i, j) && (i, j) in record ::
      record[(i, j)] == HealthyIn(statuses, cfgs[i].backends[j].address)
  }

  function Read(cfgs: seq<ServiceConfig>, s: State, i: nat, j: nat): State
    requires !s.phase.Idle? && Asked(cfgs, i, j)
  {
    s.(phase := s.phase.(record := s.phase.record[(i, j) := HealthyIn(s.statuses, cfgs[i].backends[j].address)]))
  }

  ghost predicate Next(lib: Lib, cfgs: seq<ServiceConfig>, a: State, step: Step, b: State) {
    match step
    case Checked(address, ok) =>
      if address !in a.statuses then b == a else
        var statuses := a.statuses[address := AfterResult(a.statuses[address], ok, a.statuses[address].check)];
        var flipped := HealthyIn(a.statuses, address) != HealthyIn(statuses, address);
        b == a.(statuses := statuses, pending := if flipped then a.pending + 1 else a.pending)
    case Begin(callback) =>
      // Either a waiting callback or the main loop takes the mutex.
      && a.phase.Idle? && (callback ==> a.pending > 0)
      && b == a.(pending := if callback then a.pending - 1 else a.pending, phase := ReadingBackends(map[]))
    case ReadHealth(i, j) =>
      !a.phase.Idle? && Asked(cfgs, i, j) && b == Read(cfgs, a, i, j)
    case BuildFails =>
      // A backend that passed the health filter, or a service, cannot be converted: Reconcile gives up.
      && a.phase.ReadingBackends? && DesiredOf(lib, cfgs, Recorded(a.phase.record)).Failure?
      && b == a.(phase := Idle)
    case Unread =>
      // The table cannot be read: Reconcile gives up.
      a.phase.ReadingBackends? && b == a.(phase := Idle)
    case Program(want, work) =>
      && a.phase.ReadingBackends? && Complete(cfgs, a.phase.record)
      && DesiredOf(lib, cfgs, Recorded(a.phase.record)) == Success(want)
      && ReconcileEffect(a.store, a.managed, want, work, b.store, b.managed)
      && b == a.(store := b.store, managed := b.managed, phase := ReadingRules(map[]),
                 programmed := Some(a.phase.record))
    case RulesFail =>
      && a.phase.ReadingRules?
      && (exists err ::
            R.SNATEffect(RulesOf(lib, cfgs, Recorded(a.phase.record)), a.snat, a.forward, b.snat, b.forward, Some(err)))
      && b == a.(phase := Idle)
    case Finish =>
      && a.phase.ReadingRules? && Complete(cfgs, a.phase.record)
      && R.SNATEffect(RulesOf(lib, cfgs, Recorded(a.phase.record)), a.snat, a.forward, b.snat, b.forward, None)
      && b == a.(snat := b.snat, forward := b.forward, phase := Idle, ruled := Some(a.phase.record))
    case Foreign =>
      // Somebody else edits services this configuration does not name.
      && WellFormed(b.store) && b == a.(store := b.store)
      && forall i, k | 0 <= i < |cfgs| && ServiceKeyFromConfig(lib, cfgs[i]) == Success(k) ::
           SameAt(b.store, a.store, k)
  }

  /** No call to the kernel table fails in this step. */
  predicate Reliable(step: Step) {
    !step.Unread? && (step.Program? ==> step.work.errs == [])
  }

  ghost predicate Initial(s: State) {
    && WellFormed(s.store) && s.pending == 0 && s.phase == Idle && s.snat == map[] && s.forward == map[]
    && s.programmed == None && s.ruled == None
  }

  ghost predicate Path(lib: Lib, cfgs: seq<ServiceConfig>, states: seq<State>, steps: seq<Step>) {
    && |states| == |steps| + 1
    && forall n | 0 <= n < |steps| :: Next(lib, cfgs, states[n], steps[n], states[n + 1]) && Reliable(steps[n])
  }

  /** A run in which the kernel refuses nothing. */
  ghost predicate Run(lib: Lib, cfgs: seq<ServiceConfig>, states: seq<State>, steps: seq<Step>) {
    Path(lib, cfgs, states, steps) && Initial(states[0])
  }

  /** No callback is waiting or running, and some Reconcile has completed. */
  predicate Quiescent(s: State) {
    s.pending == 0 && s.phase == Idle && s.ruled.Some?
  }

  ghost predicate ProgrammedFrom(lib: Lib, cfgs: seq<ServiceConfig>, s: State, record: Reads) {
    && Complete(cfgs, record)
    && DesiredOf(lib, cfgs, Recorded(record)).Success?
    && Agrees(s.store, {}, DesiredOf(lib, cfgs, Recorded(record)).value)
  }

  ghost predicate RuledFrom(lib: Lib, cfgs: seq<ServiceConfig>, s: State, record: Reads) {
    && Complete(cfgs, record)
    && RulesOf(lib, cfgs, Recorded(record)).Success?
    && var rules := RulesOf(lib, cfgs, Recorded(record)).value;
       s.snat == SNATTableOf(rules) && s.forward == ForwardTableOf(ForwardRules(rules))
  }

  /** The configuration can be converted under the verdicts of the moment. */
  ghost predicate Converts(lib: Lib, cfgs: seq<ServiceConfig>, statuses: Statuses) {
    DesiredOf(lib, cfgs, Verdicts(cfgs, statuses)).Success?
  }

  /**
   The tables are those of the answers they were made from, and a record can be out of date only while a callback is
   waiting, or while the configuration cannot be converted under the current verdicts.
   */
  ghost predicate Inv(lib: Lib, cfgs: seq<ServiceConfig>, s: State) {
    && WellFormed(s.store) && SNATFiled(s.snat) && ForwardFiled(s.forward)
    && (s.programmed.Some? ==> ProgrammedFrom(lib, cfgs, s, s.programmed.value))
    && (s.ruled.Some? ==> s.programmed.Some? && RuledFrom(lib, cfgs, s, s.ruled.value))
    && (s.phase.ReadingRules? ==> s.programmed.Some?)
    && (s.pending == 0 && !s.phase.Idle? ==> Fresh(cfgs, s.phase.record, s.statuses))
    && (s.pending == 0 && Converts(lib, cfgs, s.statuses) ==> RecordsFresh(cfgs, s))
  }

  ghost predicate RecordsFresh(cfgs: seq<ServiceConfig>, s: State) {
    && (!s.phase.ReadingBackends? && s.programmed.Some? ==> Fresh(cfgs, s.programmed.value, s.statuses))
    && (s.phase.Idle? && s.ruled.Some? ==> Fresh(cfgs, s.ruled.value, s.statuses))
  }

  // ----- Only the answers about health-checked backends matter -----

  ghost predicate SameWhereAsked(cfgs: seq<ServiceConfig>, a: Answers, b: Answers) {
    forall i: nat, j: nat | Asked(cfgs, i, j) :: a(i, j) == b(i, j)
  }

  lemma {:induction false} SameDestinations(lib: Lib, cfgs: seq<ServiceConfig>, a: Answers, b: Answers, i: nat, n: nat)
    requires SameWhereAsked(cfgs, a, b) && i < |cfgs| && n <= |cfgs[i].backends|
    ensures DestinationsUpTo(lib, cfgs, i, n, a) == DestinationsUpTo(lib, cfgs, i, n, b)
    ensures BackendRulesUpTo(lib, cfgs, i, n, a) == BackendRulesUpTo(lib, cfgs, i, n, b)
  {
    if n > 0 {
      SameDestinations(lib, cfgs, a, b, i, n - 1);
      assert Selected(cfgs, i, n - 1, a) == Selected(cfgs, i, n - 1, b) by {
        if cfgs[i].healthCheck.IsEnabled() {
          assert Asked(cfgs, i, n - 1);
        }
      }
    }
  }

  lemma {:induction false} SameEntries(lib: Lib, cfgs: seq<ServiceConfig>, a: Answers, b: Answers, n: nat)
    requires SameWhereAsked(cfgs, a, b) && n <= |cfgs|
    ensures EntriesUpTo(lib, cfgs, n, a) == EntriesUpTo(lib, cfgs, n, b)
    ensures RulesUpTo(lib, cfgs, n, a) == RulesUpTo(lib, cfgs, n, b)
  {
    if n > 0 {
      SameEntries(lib, cfgs, a, b, n - 1);
      SameDestinations(lib, cfgs, a, b, n - 1, |cfgs[n - 1].backends|);
    }
  }

  lemma CurrentReads(lib: Lib, cfgs: seq<ServiceConfig>, record: Reads, statuses: Statuses)
    requires Complete(cfgs, record) && Fresh(cfgs, record, statuses)
    ensures DesiredOf(lib, cfgs, Recorded(record)) == DesiredOf(lib, cfgs, Verdicts(cfgs, statuses))
    ensures RulesOf(lib, cfgs, Recorded(record)) == RulesOf(lib, cfgs, Verdicts(cfgs, statuses))
  {
    SameEntries(lib, cfgs, Recorded(record), Verdicts(cfgs, statuses), |cfgs|);
  }

  // ----- The invariant -----

  lemma {:induction false} BackendRuleProtocols(lib: Lib, cfgs: seq<ServiceConfig>, i: nat, n: nat, answers: Answers)
    requires i < |cfgs| && n <= |cfgs[i].backends| && BackendRulesUpTo(lib, cfgs, i, n, answers).Success?
    requires '/' !in cfgs[i].protocol
    ensures forall r | r in BackendRulesUpTo(lib, cfgs, i, n, answers).value :: '/' !in r.protocol
  {
    if n > 0 {
      BackendRuleProtocols(lib, cfgs, i, n - 1, answers);
    }
  }

  ghost predicate PlainProtocols(cfgs: seq<ServiceConfig>) {
    forall i | 0 <= i < |cfgs| :: '/' !in cfgs[i].protocol
  }

  lemma {:induction false} RuleProtocols(lib: Lib, cfgs: seq<ServiceConfig>, n: nat, answers: Answers)
    requires n <= |cfgs| && RulesUpTo(lib, cfgs, n, answers).Success? && PlainProtocols(cfgs)
    ensures forall r | r in RulesUpTo(lib, cfgs, n, answers).value :: '/' !in r.protocol
  {
    if n > 0 {
      RuleProtocols(lib, cfgs, n - 1, answers);
      if cfgs[n - 1].fullNAT {
        BackendRuleProtocols(lib, cfgs, n - 1, |cfgs[n - 1].backends|, answers);
      }
    }
  }

  lemma DesiredProtocols(lib: Lib, cfgs: seq<ServiceConfig>, answers: Answers)
    requires DesiredOf(lib, cfgs, answers).Success?
    ensures PlainProtocols(cfgs)
  {
    forall i | 0 <= i < |cfgs| ensures '/' !in cfgs[i].protocol {
      DesiredEntry(lib, cfgs, answers, i);
    }
  }

  lemma {:induction false} BackendRulesConvert(lib: Lib, cfgs: seq<ServiceConfig>, i: nat, n: nat, answers: Answers)
    requires i < |cfgs| && n <= |cfgs[i].backends| && DestinationsUpTo(lib, cfgs, i, n, answers).Success?
    ensures BackendRulesUpTo(lib, cfgs, i, n, answers).Success?
  {
    if n > 0 {
      BackendRulesConvert(lib, cfgs, i, n - 1, answers);
    }
  }

  /** Health answers for which the services convert let the rules be built. */
  lemma {:induction false} RulesConvert(lib: Lib, cfgs: seq<ServiceConfig>, n: nat, answers: Answers)
    requires n <= |cfgs| && EntriesUpTo(lib, cfgs, n, answers).Success?
    ensures RulesUpTo(lib, cfgs, n, answers).Success?
  {
    if n > 0 {
      RulesConvert(lib, cfgs, n - 1, answers);
      BackendRulesConvert(lib, cfgs, n - 1, |cfgs[n - 1].backends|, answers);
    }
  }

  /** `a` selects no backend that `b` does not. */
  ghost predicate SelectsFewer(cfgs: seq<ServiceConfig>, a: Answers, b: Answers) {
    forall i: nat, j: nat | Asked(cfgs, i, j) && a(i, j) :: b(i, j)
  }

  /** What converts still does when fewer backends are selected. */
  lemma FewerConvert(lib: Lib, cfgs: seq<ServiceConfig>, a: Answers, b: Answers)
    requires SelectsFewer(cfgs, a, b) && DesiredOf(lib, cfgs, b).Success?
    ensures DesiredOf(lib, cfgs, a).Success? && RulesOf(lib, cfgs, a).Success?
  {
    EntriesConvert(lib, cfgs, |cfgs|, b);
    forall i | 0 <= i < |cfgs| ensures DesiredServiceOf(lib, cfgs, i, a).Success? {
      assert DesiredServiceOf(lib, cfgs, i, b).Success?;
      FewerDestinationsConvert(lib, cfgs, a, b, i, |cfgs[i].backends|);
    }
    EntriesConvert(lib, cfgs, |cfgs|, a);
    RulesConvert(lib, cfgs, |cfgs|, a);
  }

  lemma {:induction false} FewerDestinationsConvert(lib: Lib, cfgs: seq<ServiceConfig>, a: Answers, b: Answers,
    i: nat, n: nat)
    requires SelectsFewer(cfgs, a, b) && i < |cfgs| && n <= |cfgs[i].backends|
    requires DestinationsUpTo(lib, cfgs, i, n, b).Success?
    ensures DestinationsUpTo(lib, cfgs, i, n, a).Success?
  {
    if n > 0 {
      FewerDestinationsConvert(lib, cfgs, a, b, i, n - 1);
      assert Selected(cfgs, i, n - 1, a) ==> Selected(cfgs, i, n - 1, b) by {
        if cfgs[i].healthCheck.IsEnabled() {
          assert Asked(cfgs, i, n - 1);
        }
      }
    }
  }

  /** Up-to-date answers, even if not all have been read, convert if the current verdicts do. */
  lemma FreshReadsConvert(lib: Lib, cfgs: seq<ServiceConfig>, record: Reads, statuses: Statuses)
    requires Fresh(cfgs, record, statuses) && Converts(lib, cfgs, statuses)
    ensures DesiredOf(lib, cfgs, Recorded(record)).Success? && RulesOf(lib, cfgs, Recorded(record)).Success?
  {
    FewerConvert(lib, cfgs, Recorded(record), Verdicts(cfgs, statuses));
  }

  /** A validated configuration whose ports are numbers converts under all health answers. */
  lemma AlwaysConverts(lib: Lib, cfgs: seq<ServiceConfig>, answers: Answers)
    requires Validated(lib, cfgs) && NumericPorts(lib, cfgs)
    ensures DesiredOf(lib, cfgs, answers).Success? && RulesOf(lib, cfgs, answers).Success?
  {
    ConvertsIffPortsNumeric(lib, cfgs);
    assert DesiredOf(lib, cfgs, answers).Success?;
    RulesConvert(lib, cfgs, |cfgs|, answers);
  }

  lemma ProgramKeepsInv(lib: Lib, cfgs: seq<ServiceConfig>, a: State, step: Step, b: State)
    requires CanonicalListens(lib, cfgs)
    requires Inv(lib, cfgs, a) && step.Program? && Next(lib, cfgs, a, step, b) && Reliable(step)
    ensures Inv(lib, cfgs, b)
  {
    var want := step.want;
    CanonicalHosts(lib, cfgs, Recorded(a.phase.record));
    OutcomeWellFormed(a.store, want, step.work.done);
    Progress(a.store, a.managed, want, step.work, b.store, b.managed);
    AgreesIffNoDiff(b.store, b.managed, want);
    assert Agrees(b.store, {}, want);
  }

  lemma RulesBecomeDesired(rules: seq<SNATRule>, snat0: SNATTable, forward0: ForwardTable, snat: SNATTable,
    forward: ForwardTable)
    requires SNATFiled(snat0) && ForwardFiled(forward0) && forall r | r in rules :: '/' !in r.protocol
    requires R.SNATEffect(Success(rules), snat0, forward0, snat, forward, None)
    ensures snat == SNATTableOf(rules) && forward == ForwardTableOf(ForwardRules(rules))
    ensures SNATFiled(snat) && ForwardFiled(forward)
  {
    var fs := ForwardRules(rules);
    forall f | f in fs ensures '/' !in f.protocol {
      var t :| 0 <= t < |fs| && fs[t] == f;
      assert rules[t] in rules;
    }
    SNATTableFiled(rules);
    ForwardTableFiled(fs);
    SNATMergedIsDesired(snat0, SNATTableOf(rules));
    ForwardMergedIsDesired(forward0, ForwardTableOf(fs));
  }

  lemma FinishKeepsInv(lib: Lib, cfgs: seq<ServiceConfig>, a: State, step: Step, b: State)
    requires Inv(lib, cfgs, a) && step.Finish? && Next(lib, cfgs, a, step, b)
    ensures Inv(lib, cfgs, b)
  {
    var answers := Recorded(a.phase.record);
    DesiredProtocols(lib, cfgs, Recorded(a.programmed.value));
    RuleProtocols(lib, cfgs, |cfgs|, answers);
    RulesBecomeDesired(RulesOf(lib, cfgs, answers).value, a.snat, a.forward, b.snat, b.forward);
  }

  lemma ForeignKeepsInv(lib: Lib, cfgs: seq<ServiceConfig>, a: State, step: Step, b: State)
    requires Inv(lib, cfgs, a) && step.Foreign? && Next(lib, cfgs, a, step, b)
    ensures Inv(lib, cfgs, b)
  {
    if a.programmed.Some? {
      var answers := Recorded(a.programmed.value);
      var want := DesiredOf(lib, cfgs, answers).value;
      forall k | k in want ensures AgreesAt(b.store, want, k) {
        var i := DesiredOrigin(lib, cfgs, answers, k);
        assert AgreesAt(a.store, want, k) && SameAt(b.store, a.store, k);
      }
    }
  }

  /** A check result that does not flip the verdict changes no answer. */
  lemma VerdictKept(cfgs: seq<ServiceConfig>, record: Reads, statuses: Statuses, address: string, status: BackendStatus)
    requires Fresh(cfgs, record, statuses)
    requires HealthyIn(statuses[address := status], address) == HealthyIn(statuses, address)
    ensures Fresh(cfgs, record, statuses[address := status])
  {
  }

  lemma VerdictsKept(cfgs: seq<ServiceConfig>, statuses: Statuses, address: string, status: BackendStatus)
    requires HealthyIn(statuses[address := status], address) == HealthyIn(statuses, address)
    ensures SameWhereAsked(cfgs, Verdicts(cfgs, statuses[address := status]), Verdicts(cfgs, statuses))
  {
  }

  /** A check result that does not flip the verdict does not decide either whether the configuration converts. */
  lemma ConvertsKept(lib: Lib, cfgs: seq<ServiceConfig>, statuses: Statuses, address: string, status: BackendStatus)
    requires HealthyIn(statuses[address := status], address) == HealthyIn(statuses, address)
    ensures Converts(lib, cfgs, statuses[address := status]) <==> Converts(lib, cfgs, statuses)
  {
    VerdictsKept(cfgs, statuses, address, status);
    SameEntries(lib, cfgs, Verdicts(cfgs, statuses[address := status]), Verdicts(cfgs, statuses), |cfgs|);
  }

  lemma CheckedKeepsInv(lib: Lib, cfgs: seq<ServiceConfig>, a: State, step: Step, b: State)
    requires Inv(lib, cfgs, a) && step.Checked? && Next(lib, cfgs, a, step, b)
    ensures Inv(lib, cfgs, b)
  {
    if step.address in a.statuses && b.pending == 0 {
      var status := AfterResult(a.statuses[step.address], step.ok, a.statuses[step.address].check);
      ConvertsKept(lib, cfgs, a.statuses, step.address, status);
      if !a.phase.Idle? {
        VerdictKept(cfgs, a.phase.record, a.statuses, step.address, status);
      }
      if Converts(lib, cfgs, a.statuses) && a.programmed.Some? && !a.phase.ReadingBackends? {
        VerdictKept(cfgs, a.programmed.value, a.statuses, step.address, status);
      }
      if Converts(lib, cfgs, a.statuses) && a.ruled.Some? && a.phase.Idle? {
        VerdictKept(cfgs, a.ruled.value, a.statuses, step.address, status);
      }
    }
  }

  /**
   A Reconcile that gives up with no callback waiting read verdicts under which the configuration does not convert.
   */
  lemma GivesUpKeepsInv(lib: Lib, cfgs: seq<ServiceConfig>, a: State, step: Step, b: State)
    requires Inv(lib, cfgs, a) && Next(lib, cfgs, a, step, b) && (step.BuildFails? || step.RulesFail?)
    ensures Inv(lib, cfgs, b)
  {
    if a.pending == 0 && Converts(lib, cfgs, a.statuses) {
      FreshReadsConvert(lib, cfgs, a.phase.record, a.statuses);
      assert false;
    }
  }

  lemma StepKeepsInv(lib: Lib, cfgs: seq<ServiceConfig>, a: State, step: Step, b: State)
    requires CanonicalListens(lib, cfgs)
    requires Inv(lib, cfgs, a) && Next(lib, cfgs, a, step, b) && Reliable(step)
    ensures Inv(lib, cfgs, b)
  {
    match step
    case Checked(_, _) => CheckedKeepsInv(lib, cfgs, a, step, b);
    case Begin(_) =>
    case ReadHealth(_, _) =>
    case BuildFails => GivesUpKeepsInv(lib, cfgs, a, step, b);
    case Program(_, _) => ProgramKeepsInv(lib, cfgs, a, step, b);
    case RulesFail => GivesUpKeepsInv(lib, cfgs, a, step, b);
    case Finish => FinishKeepsInv(lib, cfgs, a, step, b);
    case Foreign => ForeignKeepsInv(lib, cfgs, a, step, b);
  }

  lemma {:induction false} RunKeepsInv(lib: Lib, cfgs: seq<ServiceConfig>, states: seq<State>, steps: seq<Step>, n: nat)
    requires CanonicalListens(lib, cfgs) && Run(lib, cfgs, states, steps) && n < |states|
    ensures Inv(lib, cfgs, states[n])
  {
    if n > 0 {
      RunKeepsInv(lib, cfgs, states, steps, n - 1);
      StepKeepsInv(lib, cfgs, states[n - 1], steps[n - 1], states[n]);
    }
  }

  // ----- The theorem -----

  /** Backend `j` is programmed as destination `d` and, if the service is health-checked, is healthy. */
  ghost predicate Available(lib: Lib, cfg: ServiceConfig, j: nat, d: DestinationKey, statuses: Statuses)
    requires j < |cfg.backends|
  {
    && ConfigToDestination(lib, cfg.backends[j]).Success?
    && KeyOfDestination(ConfigToDestination(lib, cfg.backends[j]).value) == d
    && (cfg.healthCheck.IsEnabled() ==> HealthyIn(statuses, cfg.backends[j].address))
  }

  lemma ListsIffAvailable(lib: Lib, cfgs: seq<ServiceConfig>, i: nat, j: nat, statuses: Statuses, d: DestinationKey)
    requires i < |cfgs| && j < |cfgs[i].backends|
    ensures DesiredState.Lists(lib, cfgs, i, j, Verdicts(cfgs, statuses), d) <==>
      Available(lib, cfgs[i], j, d, statuses)
  {
  }

  ghost predicate SomeAvailable(lib: Lib, cfg: ServiceConfig, d: DestinationKey, statuses: Statuses) {
    exists j :: 0 <= j < |cfg.backends| && Available(lib, cfg, j, d, statuses)
  }

  /** Backend `j` is the last listed of the available backends programmed as destination `d`. */
  ghost predicate LastAvailable(lib: Lib, cfg: ServiceConfig, j: nat, d: DestinationKey, statuses: Statuses) {
    && j < |cfg.backends| && Available(lib, cfg, j, d, statuses)
    && forall j' | j < j' < |cfg.backends| :: !Available(lib, cfg, j', d, statuses)
  }

  /** Service `i` decides what is desired under key `k`. */
  ghost predicate Files(lib: Lib, cfgs: seq<ServiceConfig>, i: nat, k: ServiceKey)
    requires i < |cfgs|
  {
    LastForKey(lib, cfgs, i) && ServiceKeyFromConfig(lib, cfgs[i]) == Success(k)
  }

  /**
   Service `k` is in the table with its scheduler, and its destinations are exactly those of its available backends,
   with their weights.
   */
  ghost predicate Current(lib: Lib, cfg: ServiceConfig, k: ServiceKey, s: State) {
    && k in s.store.services && s.store.services[k].schedName == cfg.scheduler && k in s.store.dests
    && (forall d :: d in s.store.dests[k] <==> SomeAvailable(lib, cfg, d, s.statuses))
    && (forall d, j: nat | LastAvailable(lib, cfg, j, d, s.statuses) ::
          d in s.store.dests[k] && s.store.dests[k][d].weight == cfg.backends[j].weight)
  }

  /** A table that agrees with the state desired under the current verdicts is current. */
  lemma AgreementIsCurrent(lib: Lib, cfgs: seq<ServiceConfig>, s: State, managed: set<ServiceKey>, i: nat,
    k: ServiceKey)
    requires Converts(lib, cfgs, s.statuses)
    requires Agrees(s.store, managed, DesiredOf(lib, cfgs, Verdicts(cfgs, s.statuses)).value)
    requires i < |cfgs| && Files(lib, cfgs, i, k)
    ensures Current(lib, cfgs[i], k, s)
  {
    var answers := Verdicts(cfgs, s.statuses);
    AgreesWithConfig(lib, cfgs, answers, s.store, managed, i, k);
    forall j, d | 0 <= j < |cfgs[i].backends|
      ensures DesiredState.Lists(lib, cfgs, i, j, answers, d) <==> Available(lib, cfgs[i], j, d, s.statuses)
    {
      ListsIffAvailable(lib, cfgs, i, j, s.statuses, d);
    }
    forall d, j: nat | LastAvailable(lib, cfgs[i], j, d, s.statuses)
      ensures d in s.store.dests[k] && s.store.dests[k][d].weight == cfgs[i].backends[j].weight
    {
      assert DesiredState.Lists(lib, cfgs, i, j, answers, d);
      assert forall j' | j < j' < |cfgs[i].backends| :: !DesiredState.Lists(lib, cfgs, i, j', answers, d);
    }
  }

  /**
   No lost health transition: under every interleaving of check results, per-backend health record, serialised
   reconciles and foreign edits, once no callback is waiting or running, and if the configuration can be converted
   under the verdicts of that moment, every configured service shows exactly its available backends by these verdicts.
   */
  lemma NoLostTransition(lib: Lib, cfgs: seq<ServiceConfig>, states: seq<State>, steps: seq<Step>, n: nat, i: nat,
    k: ServiceKey)
    requires CanonicalListens(lib, cfgs) && Run(lib, cfgs, states, steps) && n < |states| && Quiescent(states[n])
    requires Converts(lib, cfgs, states[n].statuses)
    requires i < |cfgs| && Files(lib, cfgs, i, k)
    ensures Current(lib, cfgs[i], k, states[n])
  {
    RunKeepsInv(lib, cfgs, states, steps, n);
    CurrentReads(lib, cfgs, states[n].programmed.value, states[n].statuses);
    AgreementIsCurrent(lib, cfgs, states[n], {}, i, k);
  }

  /**
   At that point the rule tables fit the IPVS table although health was read separately for each: a SNAT and a FORWARD
   rule exist exactly for the destinations programmed for full_nat services.
   */
  lemma TablesCoherentAtRest(lib: Lib, cfgs: seq<ServiceConfig>, states: seq<State>, steps: seq<Step>, n: nat,
    key: string)
    requires CanonicalListens(lib, cfgs) && Run(lib, cfgs, states, steps) && n < |states| && Quiescent(states[n])
    requires Converts(lib, cfgs, states[n].statuses)
    requires forall i | 0 <= i < |cfgs| :: LastForKey(lib, cfgs, i) && CanonicalBackends(lib, cfgs[i])
    ensures var s := states[n];
      && s.forward.Keys == s.snat.Keys
      && (key in s.snat <==>
            exists i, d :: 0 <= i < |cfgs| && Programs(lib, cfgs, i, s.store, d) && key == RuleKey(d, cfgs[i].protocol))
  {
    RunKeepsInv(lib, cfgs, states, steps, n);
    var s := states[n];
    var answers := Verdicts(cfgs, s.statuses);
    CurrentReads(lib, cfgs, s.programmed.value, s.statuses);
    CurrentReads(lib, cfgs, s.ruled.value, s.statuses);
    forall i | 0 <= i < |cfgs| ensures DesiredServiceOf(lib, cfgs, i, answers).Success? {
      DesiredEntry(lib, cfgs, answers, i);
    }
    TablesCoherent(lib, cfgs, answers, s.store, {}, key);
  }
}
