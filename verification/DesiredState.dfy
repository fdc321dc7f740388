/**
 What a configuration asks for (the meaning of buildDesiredState and of the rule lists of reconcileSNAT
 in pkg/lvs/reconciler.go), as functions of the configuration and of the health answers read.
 */
module DesiredState {
  import opened Wrappers
  import opened Config
  import opened LvsTypes
  import opened Diff
  import opened Snat
  import opened LastWins

  /** The answer to each health read, by service and backend position: reads need not agree with each other. */
  type Answers = (nat, nat) -> bool

  predicate Selected(cfgs: seq<ServiceConfig>, i: nat, j: nat, answers: Answers)
    requires i < |cfgs|
  {
    !cfgs[i].healthCheck.IsEnabled() || answers(i, j)
  }

  function DestinationsUpTo(lib: Lib, cfgs: seq<ServiceConfig>, i: nat, n: nat, answers: Answers)
    : Result<seq<Destination>, ConversionError>
    requires i < |cfgs| && n <= |cfgs[i].backends|
  {
    if n == 0 then Success([]) else
      var before :- DestinationsUpTo(lib, cfgs, i, n - 1, answers);
      if !Selected(cfgs, i, n - 1, answers) then Success(before) else
        var dst :- ConfigToDestination(lib, cfgs[i].backends[n - 1]);
        Success(before + [dst])
  }

  function DesiredServiceOf(lib: Lib, cfgs: seq<ServiceConfig>, i: nat, answers: Answers)
    : Result<(ServiceKey, DesiredService), ConversionError>
    requires i < |cfgs|
  {
    var svc :- ConfigToService(lib, cfgs[i]);
    var key :- ServiceKeyFromConfig(lib, cfgs[i]);
    var dsts :- DestinationsUpTo(lib, cfgs, i, |cfgs[i].backends|, answers);
    Success((key, DesiredService(svc, dsts)))
  }

  function EntriesUpTo(lib: Lib, cfgs: seq<ServiceConfig>, n: nat, answers: Answers)
    : Result<seq<(ServiceKey, DesiredService)>, ConversionError>
    requires n <= |cfgs|
  {
    if n == 0 then Success([]) else
      var before :- EntriesUpTo(lib, cfgs, n - 1, answers);
      var entry :- DesiredServiceOf(lib, cfgs, n - 1, answers);
      Success(before + [entry])
  }

  function DesiredOf(lib: Lib, cfgs: seq<ServiceConfig>, answers: Answers): Result<Desired, ConversionError> {
    var entries :- EntriesUpTo(lib, cfgs, |cfgs|, answers);
    Success(Table(entries))
  }

  function RuleOf(lib: Lib, cfg: ServiceConfig, backend: BackendConfig): Result<SNATRule, ConversionError> {
    var (host, port) :- SplitAddress(lib, backend.address);
    Success(SNATRule(host, if cfg.protocol == "" then "tcp" else cfg.protocol, cfg.snatIP, port))
  }

  function BackendRulesUpTo(lib: Lib, cfgs: seq<ServiceConfig>, i: nat, n: nat, answers: Answers)
    : Result<seq<SNATRule>, ConversionError>
    requires i < |cfgs| && n <= |cfgs[i].backends|
  {
    if n == 0 then Success([]) else
      var before :- BackendRulesUpTo(lib, cfgs, i, n - 1, answers);
      if !Selected(cfgs, i, n - 1, answers) then Success(before) else
        var rule :- RuleOf(lib, cfgs[i], cfgs[i].backends[n - 1]);
        Success(before + [rule])
  }

  function RulesUpTo(lib: Lib, cfgs: seq<ServiceConfig>, n: nat, answers: Answers)
    : Result<seq<SNATRule>, ConversionError>
    requires n <= |cfgs|
  {
    if n == 0 then Success([]) else
      var before :- RulesUpTo(lib, cfgs, n - 1, answers);
      if !cfgs[n - 1].fullNAT then Success(before) else
        var rules :- BackendRulesUpTo(lib, cfgs, n - 1, |cfgs[n - 1].backends|, answers);
        Success(before + rules)
  }

  function RulesOf(lib: Lib, cfgs: seq<ServiceConfig>, answers: Answers): Result<seq<SNATRule>, ConversionError> {
    RulesUpTo(lib, cfgs, |cfgs|, answers)
  }

  function ForwardOf(rule: SNATRule): ForwardRule {
    ForwardRule(rule.backendIP, rule.protocol, rule.backendPort)
  }

  function ForwardRules(rules: seq<SNATRule>): (fs: seq<ForwardRule>)
    ensures |fs| == |rules| && forall i | 0 <= i < |rules| :: fs[i] == ForwardOf(rules[i])
  {
    seq(|rules|, i requires 0 <= i < |rules| => ForwardOf(rules[i]))
  }

  lemma {:induction false} DestinationsFailEarly(lib: Lib, cfgs: seq<ServiceConfig>, i: nat, n: nat, m: nat,
    answers: Answers)
    requires i < |cfgs| && n <= m <= |cfgs[i].backends|
    requires DestinationsUpTo(lib, cfgs, i, n, answers).Failure?
    ensures DestinationsUpTo(lib, cfgs, i, m, answers) == DestinationsUpTo(lib, cfgs, i, n, answers)
  {
    if n < m {
      DestinationsFailEarly(lib, cfgs, i, n, m - 1, answers);
    }
  }

  lemma {:induction false} EntriesFailEarly(lib: Lib, cfgs: seq<ServiceConfig>, n: nat, m: nat, answers: Answers)
    requires n <= m <= |cfgs|
    requires EntriesUpTo(lib, cfgs, n, answers).Failure?
    ensures EntriesUpTo(lib, cfgs, m, answers) == EntriesUpTo(lib, cfgs, n, answers)
  {
    if n < m {
      EntriesFailEarly(lib, cfgs, n, m - 1, answers);
    }
  }

  lemma {:induction false} BackendRulesFailEarly(lib: Lib, cfgs: seq<ServiceConfig>, i: nat, n: nat, m: nat,
    answers: Answers)
    requires i < |cfgs| && n <= m <= |cfgs[i].backends|
    requires BackendRulesUpTo(lib, cfgs, i, n, answers).Failure?
    ensures BackendRulesUpTo(lib, cfgs, i, m, answers) == BackendRulesUpTo(lib, cfgs, i, n, answers)
  {
    if n < m {
      BackendRulesFailEarly(lib, cfgs, i, n, m - 1, answers);
    }
  }

  lemma {:induction false} RulesFailEarly(lib: Lib, cfgs: seq<ServiceConfig>, n: nat, m: nat, answers: Answers)
    requires n <= m <= |cfgs|
    requires RulesUpTo(lib, cfgs, n, answers).Failure?
    ensures RulesUpTo(lib, cfgs, m, answers) == RulesUpTo(lib, cfgs, n, answers)
  {
    if n < m {
      RulesFailEarly(lib, cfgs, n, m - 1, answers);
    }
  }

  // ----- What the recursive definitions mean -----

  lemma {:induction false} EntriesMeaning(lib: Lib, cfgs: seq<ServiceConfig>, n: nat, answers: Answers)
    requires n <= |cfgs| && EntriesUpTo(lib, cfgs, n, answers).Success?
    ensures var entries := EntriesUpTo(lib, cfgs, n, answers).value;
      |entries| == n && forall i | 0 <= i < n :: DesiredServiceOf(lib, cfgs, i, answers) == Success(entries[i])
  {
    if n > 0 {
      EntriesMeaning(lib, cfgs, n - 1, answers);
    }
  }

  /** Configured service `i` is the last one listed for its key. */
  ghost predicate LastForKey(lib: Lib, cfgs: seq<ServiceConfig>, i: nat)
    requires i < |cfgs|
  {
    forall i' | i < i' < |cfgs| :: ServiceKeyFromConfig(lib, cfgs[i']) != ServiceKeyFromConfig(lib, cfgs[i])
  }

  /** Every configured service is desired under its key, and the last one listed for a key decides. */
  lemma DesiredEntry(lib: Lib, cfgs: seq<ServiceConfig>, answers: Answers, i: nat)
    requires DesiredOf(lib, cfgs, answers).Success? && i < |cfgs|
    ensures DesiredServiceOf(lib, cfgs, i, answers).Success?
    ensures var want, entry := DesiredOf(lib, cfgs, answers).value, DesiredServiceOf(lib, cfgs, i, answers).value;
      && ServiceKeyFromConfig(lib, cfgs[i]) == Success(entry.0)
      && entry.0 in want
      && (LastForKey(lib, cfgs, i) ==> want[entry.0] == entry.1)
  {
    var entries := EntriesUpTo(lib, cfgs, |cfgs|, answers).value;
    EntriesMeaning(lib, cfgs, |cfgs|, answers);
    TableMeaning(entries, |entries|);
    if LastForKey(lib, cfgs, i) {
      LastEntry(lib, cfgs, answers, entries, i);
    }
  }

  lemma LastEntry(lib: Lib, cfgs: seq<ServiceConfig>, answers: Answers, entries: seq<(ServiceKey, DesiredService)>,
    i: nat)
    requires |entries| == |cfgs| && i < |cfgs|
    requires forall i | 0 <= i < |cfgs| :: DesiredServiceOf(lib, cfgs, i, answers) == Success(entries[i])
    ensures LastForKey(lib, cfgs, i) <==> IsLast(entries, |entries|, i)
  {
    forall i' | 0 <= i' < |cfgs| ensures ServiceKeyFromConfig(lib, cfgs[i']) == Success(entries[i'].0) {
      assert DesiredServiceOf(lib, cfgs, i', answers) == Success(entries[i']);
    }
  }

  /** Nothing else is desired. */
  lemma DesiredOrigin(lib: Lib, cfgs: seq<ServiceConfig>, answers: Answers, k: ServiceKey) returns (i: nat)
    requires DesiredOf(lib, cfgs, answers).Success? && k in DesiredOf(lib, cfgs, answers).value
    ensures i < |cfgs| && ServiceKeyFromConfig(lib, cfgs[i]) == Success(k) && LastForKey(lib, cfgs, i)
  {
    var entries := EntriesUpTo(lib, cfgs, |cfgs|, answers).value;
    EntriesMeaning(lib, cfgs, |cfgs|, answers);
    TableMeaning(entries, |entries|);
    i :| 0 <= i < |entries| && entries[i].0 == k && IsLast(entries, |entries|, i);
    LastEntry(lib, cfgs, answers, entries, i);
    DesiredEntry(lib, cfgs, answers, i);
  }

  /** Canonical listen hosts make the desired state canonical. */
  lemma CanonicalHosts(lib: Lib, cfgs: seq<ServiceConfig>, answers: Answers)
    requires DesiredOf(lib, cfgs, answers).Success?
    requires forall i | 0 <= i < |cfgs| :: CanonicalHost(lib, cfgs[i].listen)
    ensures Canonical(DesiredOf(lib, cfgs, answers).value)
  {
    var want := DesiredOf(lib, cfgs, answers).value;
    forall k | k in want ensures KeyOfService(want[k].service) == k {
      var i := DesiredOrigin(lib, cfgs, answers, k);
      DesiredEntry(lib, cfgs, answers, i);
      KeysAgreeIffCanonical(lib, cfgs[i]);
    }
  }

  // ----- Which error stops the conversion -----

  /** Backend `j` of service `i` passes the health filter and cannot be converted. */
  ghost predicate Stops(lib: Lib, cfgs: seq<ServiceConfig>, i: nat, j: nat, answers: Answers, e: ConversionError)
    requires i < |cfgs| && j < |cfgs[i].backends|
  {
    && (cfgs[i].healthCheck.enabled == Some(false) || answers(i, j))
    && ConfigToDestination(lib, cfgs[i].backends[j]) == Failure(e)
  }

  ghost predicate NoneStops(lib: Lib, cfgs: seq<ServiceConfig>, i: nat, n: nat, answers: Answers)
    requires i < |cfgs| && n <= |cfgs[i].backends|
  {
    forall j, e | 0 <= j < n :: !Stops(lib, cfgs, i, j, answers, e)
  }

  /** Service `i` itself cannot be converted, or else one of its backends, of which the first decides the error. */
  ghost predicate ServiceStops(lib: Lib, cfgs: seq<ServiceConfig>, i: nat, answers: Answers, e: ConversionError)
    requires i < |cfgs|
  {
    || ConfigToService(lib, cfgs[i]) == Failure(e)
    || (ConfigToService(lib, cfgs[i]).Success? && BackendStops(lib, cfgs, i, |cfgs[i].backends|, answers, e))
  }

  ghost predicate BackendStops(lib: Lib, cfgs: seq<ServiceConfig>, i: nat, n: nat, answers: Answers,
    e: ConversionError)
    requires i < |cfgs| && n <= |cfgs[i].backends|
  {
    exists j :: 0 <= j < n && Stops(lib, cfgs, i, j, answers, e) && NoneStops(lib, cfgs, i, j, answers)
  }

  ghost predicate ServiceGoesThrough(lib: Lib, cfgs: seq<ServiceConfig>, i: nat, answers: Answers)
    requires i < |cfgs|
  {
    ConfigToService(lib, cfgs[i]).Success? && NoneStops(lib, cfgs, i, |cfgs[i].backends|, answers)
  }

  ghost predicate AllConvert(lib: Lib, cfgs: seq<ServiceConfig>, n: nat, answers: Answers)
    requires n <= |cfgs|
  {
    forall i | 0 <= i < n :: ServiceGoesThrough(lib, cfgs, i, answers)
  }

  ghost predicate SomeStops(lib: Lib, cfgs: seq<ServiceConfig>, n: nat, answers: Answers, e: ConversionError)
    requires n <= |cfgs|
  {
    exists i :: 0 <= i < n && ServiceStops(lib, cfgs, i, answers, e) && AllConvert(lib, cfgs, i, answers)
  }

  lemma {:induction false} BackendFailure(lib: Lib, cfgs: seq<ServiceConfig>, i: nat, n: nat, answers: Answers,
    e: ConversionError)
    requires i < |cfgs| && n <= |cfgs[i].backends|
    ensures DestinationsUpTo(lib, cfgs, i, n, answers) == Failure(e) <==> BackendStops(lib, cfgs, i, n, answers, e)
    ensures DestinationsUpTo(lib, cfgs, i, n, answers).Success? <==> NoneStops(lib, cfgs, i, n, answers)
  {
    if n > 0 {
      BackendFailure(lib, cfgs, i, n - 1, answers, e);
      var last := ConfigToDestination(lib, cfgs[i].backends[n - 1]);
      if last.Failure? && (cfgs[i].healthCheck.enabled == Some(false) || answers(i, n - 1)) {
        assert Stops(lib, cfgs, i, n - 1, answers, last.error);
      }
    }
  }

  lemma ServiceFailure(lib: Lib, cfgs: seq<ServiceConfig>, i: nat, answers: Answers, e: ConversionError)
    requires i < |cfgs|
    ensures DesiredServiceOf(lib, cfgs, i, answers) == Failure(e) <==> ServiceStops(lib, cfgs, i, answers, e)
    ensures DesiredServiceOf(lib, cfgs, i, answers).Success? <==> ServiceGoesThrough(lib, cfgs, i, answers)
  {
    BackendFailure(lib, cfgs, i, |cfgs[i].backends|, answers, e);
    if ConfigToService(lib, cfgs[i]).Success? {
      KeysAgreeIffCanonical(lib, cfgs[i]);
    }
  }

  lemma {:induction false} EntriesFailure(lib: Lib, cfgs: seq<ServiceConfig>, n: nat, answers: Answers,
    e: ConversionError)
    requires n <= |cfgs|
    ensures EntriesUpTo(lib, cfgs, n, answers) == Failure(e) <==> SomeStops(lib, cfgs, n, answers, e)
    ensures EntriesUpTo(lib, cfgs, n, answers).Success? <==> AllConvert(lib, cfgs, n, answers)
  {
    if n > 0 {
      EntriesFailure(lib, cfgs, n - 1, answers, e);
      ServiceFailure(lib, cfgs, n - 1, answers, e);
      OneServiceMore(lib, cfgs, n - 1, answers, e);
    }
  }

  lemma OneServiceMore(lib: Lib, cfgs: seq<ServiceConfig>, i: nat, answers: Answers, e: ConversionError)
    requires i < |cfgs|
    ensures AllConvert(lib, cfgs, i + 1, answers) <==>
      AllConvert(lib, cfgs, i, answers) && ServiceGoesThrough(lib, cfgs, i, answers)
    ensures SomeStops(lib, cfgs, i + 1, answers, e) <==>
      SomeStops(lib, cfgs, i, answers, e) ||
      (AllConvert(lib, cfgs, i, answers) && ServiceStops(lib, cfgs, i, answers, e))
  {
  }

  /**
   The conversion stops with the error of the first service that cannot be converted, and there with that of the
   service before those of its backends; backends that do not pass the health filter are not looked at.
   */
  lemma FirstFailure(lib: Lib, cfgs: seq<ServiceConfig>, answers: Answers, e: ConversionError)
    ensures DesiredOf(lib, cfgs, answers) == Failure(e) <==> SomeStops(lib, cfgs, |cfgs|, answers, e)
    ensures DesiredOf(lib, cfgs, answers).Success? <==> AllConvert(lib, cfgs, |cfgs|, answers)
  {
    EntriesFailure(lib, cfgs, |cfgs|, answers, e);
  }

  // ----- Which rules are asked for -----

  /** Backend `j` of the full_nat service `i` passes the health filter, and `r` is its rule. */
  ghost predicate RuleFor(lib: Lib, cfgs: seq<ServiceConfig>, i: nat, j: nat, answers: Answers, r: SNATRule)
    requires i < |cfgs| && j < |cfgs[i].backends|
  {
    && cfgs[i].fullNAT && (cfgs[i].healthCheck.enabled == Some(false) || answers(i, j))
    && match lib.splitHostPort(cfgs[i].backends[j].address)
       case None => false
       case Some((host, portText)) =>
         && r.backendIP == host && r.snatIP == cfgs[i].snatIP
         && r.protocol == (if cfgs[i].protocol == "" then "tcp" else cfgs[i].protocol)
         && lib.atoi(portText).Some? && r.backendPort < 65536
         && (lib.atoi(portText).value - r.backendPort) % 65536 == 0
  }

  ghost predicate RuleAmong(lib: Lib, cfgs: seq<ServiceConfig>, n: nat, answers: Answers, r: SNATRule)
    requires n <= |cfgs|
  {
    exists i, j :: 0 <= i < n && 0 <= j < |cfgs[i].backends| && RuleFor(lib, cfgs, i, j, answers, r)
  }

  lemma {:induction false} BackendRulesListed(lib: Lib, cfgs: seq<ServiceConfig>, i: nat, n: nat, answers: Answers,
    r: SNATRule)
    requires i < |cfgs| && n <= |cfgs[i].backends| && cfgs[i].fullNAT
    requires BackendRulesUpTo(lib, cfgs, i, n, answers).Success?
    ensures r in BackendRulesUpTo(lib, cfgs, i, n, answers).value <==>
      exists j :: 0 <= j < n && RuleFor(lib, cfgs, i, j, answers, r)
  {
    if n > 0 {
      BackendRulesListed(lib, cfgs, i, n - 1, answers, r);
      if Selected(cfgs, i, n - 1, answers) {
        RuleSpelledOut(lib, cfgs, i, n - 1, answers, r);
      }
    }
  }

  lemma RuleSpelledOut(lib: Lib, cfgs: seq<ServiceConfig>, i: nat, j: nat, answers: Answers, r: SNATRule)
    requires i < |cfgs| && j < |cfgs[i].backends| && cfgs[i].fullNAT && Selected(cfgs, i, j, answers)
    ensures RuleFor(lib, cfgs, i, j, answers, r) <==> RuleOf(lib, cfgs[i], cfgs[i].backends[j]) == Success(r)
  {
    match lib.splitHostPort(cfgs[i].backends[j].address)
    case None =>
    case Some((host, portText)) =>
      if lib.atoi(portText).Some? {
        LowBits(lib.atoi(portText).value, r.backendPort);
      }
  }

  /** There is one 16-bit number congruent to `n`. */
  lemma LowBits(n: int, w: nat)
    ensures w == Uint16(n) <==> w < 65536 && (n - w) % 65536 == 0
  {
  }

  lemma {:induction false} RulesListedUpTo(lib: Lib, cfgs: seq<ServiceConfig>, n: nat, answers: Answers, r: SNATRule)
    requires n <= |cfgs| && RulesUpTo(lib, cfgs, n, answers).Success?
    ensures r in RulesUpTo(lib, cfgs, n, answers).value <==> RuleAmong(lib, cfgs, n, answers, r)
  {
    if n > 0 {
      RulesListedUpTo(lib, cfgs, n - 1, answers, r);
      if cfgs[n - 1].fullNAT {
        BackendRulesListed(lib, cfgs, n - 1, |cfgs[n - 1].backends|, answers, r);
      }
    }
  }

  /** The rules are exactly those of the backends of full_nat services that pass the health filter. */
  lemma RulesListed(lib: Lib, cfgs: seq<ServiceConfig>, answers: Answers, r: SNATRule)
    requires RulesOf(lib, cfgs, answers).Success?
    ensures r in RulesOf(lib, cfgs, answers).value <==> RuleAmong(lib, cfgs, |cfgs|, answers, r)
  {
    RulesListedUpTo(lib, cfgs, |cfgs|, answers, r);
  }

  /** The positions of the backends that pass the health filter, in order. */
  ghost function Positions(cfgs: seq<ServiceConfig>, i: nat, n: nat, answers: Answers): (ps: seq<nat>)
    requires i < |cfgs| && n <= |cfgs[i].backends|
    ensures forall j :: j in ps <==> 0 <= j < n && Selected(cfgs, i, j, answers)
    ensures forall a, b | 0 <= a < b < |ps| :: ps[a] < ps[b]
  {
    if n == 0 then [] else
      var before := Positions(cfgs, i, n - 1, answers);
      assert forall a | 0 <= a < |before| :: before[a] in before;
      if Selected(cfgs, i, n - 1, answers) then before + [n - 1] else before
  }

  /** The destination was made from the backend at position `p`. */
  ghost predicate MadeFrom(lib: Lib, cfg: ServiceConfig, p: nat, dst: Destination) {
    p < |cfg.backends| && ConfigToDestination(lib, cfg.backends[p]) == Success(dst)
  }

  lemma {:induction false} DestinationsInOrder(lib: Lib, cfgs: seq<ServiceConfig>, i: nat, n: nat, answers: Answers)
    requires i < |cfgs| && n <= |cfgs[i].backends|
    requires DestinationsUpTo(lib, cfgs, i, n, answers).Success?
    ensures var dsts, ps := DestinationsUpTo(lib, cfgs, i, n, answers).value, Positions(cfgs, i, n, answers);
      |dsts| == |ps| && forall t | 0 <= t < |ps| :: MadeFrom(lib, cfgs[i], ps[t], dsts[t])
  {
    if n > 0 {
      DestinationsInOrder(lib, cfgs, i, n - 1, answers);
      var dsts0, ps0 := DestinationsUpTo(lib, cfgs, i, n - 1, answers).value, Positions(cfgs, i, n - 1, answers);
      var dsts, ps := DestinationsUpTo(lib, cfgs, i, n, answers).value, Positions(cfgs, i, n, answers);
      if Selected(cfgs, i, n - 1, answers) {
        assert ps == ps0 + [n - 1] && dsts == dsts0 + [ConfigToDestination(lib, cfgs[i].backends[n - 1]).value];
      } else {
        assert ps == ps0 && dsts == dsts0;
      }
    }
  }

  /** Backend `j` of service `i` passed the health filter and is filed under `d`. */
  ghost predicate Lists(lib: Lib, cfgs: seq<ServiceConfig>, i: nat, j: nat, answers: Answers, d: DestinationKey)
    requires i < |cfgs| && j < |cfgs[i].backends|
  {
    && (cfgs[i].healthCheck.enabled == Some(false) || answers(i, j))
    && ConfigToDestination(lib, cfgs[i].backends[j]).Success?
    && KeyOfDestination(ConfigToDestination(lib, cfgs[i].backends[j]).value) == d
  }

  ghost predicate ListsSome(lib: Lib, cfgs: seq<ServiceConfig>, i: nat, answers: Answers, d: DestinationKey)
    requires i < |cfgs|
  {
    exists j :: 0 <= j < |cfgs[i].backends| && Lists(lib, cfgs, i, j, answers, d)
  }

  /** The `t`-th wanted destination comes from backend `ps[t]`, and is filed under `d` exactly when that backend is. */
  lemma EntryOrigin(lib: Lib, cfgs: seq<ServiceConfig>, i: nat, answers: Answers, dsts: seq<Destination>,
    ps: seq<nat>, t: nat)
    requires i < |cfgs| && DestinationsUpTo(lib, cfgs, i, |cfgs[i].backends|, answers) == Success(dsts)
    requires ps == Positions(cfgs, i, |cfgs[i].backends|, answers) && t < |ps|
    ensures |dsts| == |ps| && ps[t] < |cfgs[i].backends|
    ensures ConfigToDestination(lib, cfgs[i].backends[ps[t]]) == Success(dsts[t])
    ensures forall d :: Lists(lib, cfgs, i, ps[t], answers, d) <==> KeyOfDestination(dsts[t]) == d
  {
    DestinationsInOrder(lib, cfgs, i, |cfgs[i].backends|, answers);
    assert ps[t] in ps && MadeFrom(lib, cfgs[i], ps[t], dsts[t]);
  }

  /** A destination is wanted exactly when some selected backend has its key. */
  lemma WantedIffListed(lib: Lib, cfgs: seq<ServiceConfig>, i: nat, answers: Answers, want: DesiredService,
    d: DestinationKey)
    requires i < |cfgs| && DestinationsUpTo(lib, cfgs, i, |cfgs[i].backends|, answers) == Success(want.destinations)
    ensures d in Wanted(want) <==> ListsSome(lib, cfgs, i, answers, d)
  {
    var dsts, ps := want.destinations, Positions(cfgs, i, |cfgs[i].backends|, answers);
    WantedKeys(want, d);
    SameLength(lib, cfgs, i, answers, dsts, ps);
    if d in Wanted(want) {
      var t :| 0 <= t < |dsts| && KeyOfDestination(dsts[t]) == d;
      EntryOrigin(lib, cfgs, i, answers, dsts, ps, t);
      assert Lists(lib, cfgs, i, ps[t], answers, d);
    }
    if j :| 0 <= j < |cfgs[i].backends| && Lists(lib, cfgs, i, j, answers, d) {
      assert j in ps;
      var t :| 0 <= t < |ps| && ps[t] == j;
      EntryOrigin(lib, cfgs, i, answers, dsts, ps, t);
    }
  }

  lemma SameLength(lib: Lib, cfgs: seq<ServiceConfig>, i: nat, answers: Answers, dsts: seq<Destination>, ps: seq<nat>)
    requires i < |cfgs| && DestinationsUpTo(lib, cfgs, i, |cfgs[i].backends|, answers) == Success(dsts)
    requires ps == Positions(cfgs, i, |cfgs[i].backends|, answers)
    ensures |dsts| == |ps|
  {
    DestinationsInOrder(lib, cfgs, i, |cfgs[i].backends|, answers);
  }

  /** The last listed of the selected backends with one key decides the destination and its weight. */
  lemma LastListedWins(lib: Lib, cfgs: seq<ServiceConfig>, i: nat, answers: Answers, want: DesiredService,
    d: DestinationKey, j: nat)
    requires i < |cfgs| && DestinationsUpTo(lib, cfgs, i, |cfgs[i].backends|, answers) == Success(want.destinations)
    requires j < |cfgs[i].backends| && Lists(lib, cfgs, i, j, answers, d)
    requires forall j' | j < j' < |cfgs[i].backends| :: !Lists(lib, cfgs, i, j', answers, d)
    ensures d in Wanted(want) && Wanted(want)[d].weight == cfgs[i].backends[j].weight
    ensures Success(Wanted(want)[d]) == ConfigToDestination(lib, cfgs[i].backends[j])
  {
    var dsts, ps := want.destinations, Positions(cfgs, i, |cfgs[i].backends|, answers);
    SameLength(lib, cfgs, i, answers, dsts, ps);
    assert j in ps;
    var t :| 0 <= t < |ps| && ps[t] == j;
    EntryOrigin(lib, cfgs, i, answers, dsts, ps, t);
    forall t' | t < t' < |dsts| ensures KeyOfDestination(dsts[t']) != d {
      EntryOrigin(lib, cfgs, i, answers, dsts, ps, t');
      assert ps[t'] > j && !Lists(lib, cfgs, i, ps[t'], answers, d);
    }
    WantedLast(want, t);
  }
}
