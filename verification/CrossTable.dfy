/**
 SNAT and FORWARD rules against the IPVS destinations of full_nat services (pkg/lvs/reconciler.go, pkg/snat/snat.go).
 */
module CrossTable {
  import opened Wrappers
  import opened Text
  import opened Config
  import opened LvsTypes
  import opened LastWins
  import opened Diff
  import opened Snat
  import opened DesiredState
  import opened Convergence

  /** The key of the rule for destination `d` of a service with the given protocol. */
  function RuleKey(d: DestinationKey, protocol: string): string {
    HostPortProto(d.address, d.port, protocol)
  }

  lemma SNATSnoc(rules: seq<SNATRule>, r: SNATRule)
    ensures SNATTableOf(rules + [r]) == SNATTableOf(rules)[r.Key() := r]
  {
    assert KeyedSNAT(rules + [r]) == KeyedSNAT(rules) + [(r.Key(), r)];
    TableSnoc(KeyedSNAT(rules), (r.Key(), r));
  }

  lemma SNATConcat(a: seq<SNATRule>, b: seq<SNATRule>)
    ensures SNATTableOf(a + b) == SNATTableOf(a) + SNATTableOf(b)
  {
    assert KeyedSNAT(a + b) == KeyedSNAT(a) + KeyedSNAT(b);
    TableConcat(KeyedSNAT(a), KeyedSNAT(b));
  }

  lemma WantedSnoc(dsts: seq<Destination>, dst: Destination)
    ensures Table(Keyed(dsts + [dst])) == Table(Keyed(dsts))[KeyOfDestination(dst) := dst]
  {
    assert Keyed(dsts + [dst]) == Keyed(dsts) + [(KeyOfDestination(dst), dst)];
    TableSnoc(Keyed(dsts), (KeyOfDestination(dst), dst));
  }

  /** The rules of one service, by key, are the rules of its destinations. */
  ghost predicate Matches(rules: SNATTable, dests: DestinationMap, protocol: string, snatIP: string) {
    && (forall d :: d in dests <==> RuleKey(d, protocol) in rules)
    && (forall k | k in rules :: rules[k].snatIP == snatIP && exists d :: d in dests && k == RuleKey(d, protocol))
  }

  lemma MatchesStep(rules: SNATTable, dests: DestinationMap, protocol: string, snatIP: string, dst: Destination,
    r: SNATRule)
    requires '/' !in protocol && Matches(rules, dests, protocol, snatIP)
    requires r.snatIP == snatIP && r.Key() == RuleKey(KeyOfDestination(dst), protocol)
    ensures Matches(rules[r.Key() := r], dests[KeyOfDestination(dst) := dst], protocol, snatIP)
  {
    var d0 := KeyOfDestination(dst);
    forall d | RuleKey(d, protocol) == r.Key() ensures d == d0 {
      HostPortProtoInjective(d.address, d.port, protocol, d0.address, d0.port, protocol);
    }
    var rules', dests' := rules[r.Key() := r], dests[d0 := dst];
    forall k | k in rules' ensures exists d :: d in dests' && k == RuleKey(d, protocol) {
      if k == r.Key() {
        assert d0 in dests' && k == RuleKey(d0, protocol);
      } else {
        var d :| d in dests && k == RuleKey(d, protocol);
        assert d in dests';
      }
    }
  }

  /** For a canonical backend the rule and the destination name the same endpoint. */
  lemma SameEndpoint(lib: Lib, cfg: ServiceConfig, backend: BackendConfig)
    requires CanonicalHost(lib, backend.address) && ProtocolFromString(cfg.protocol).Success?
    requires RuleOf(lib, cfg, backend).Success? && ConfigToDestination(lib, backend).Success?
    ensures var r := RuleOf(lib, cfg, backend).value;
      && r.snatIP == cfg.snatIP
      && r.Key() == RuleKey(KeyOfDestination(ConfigToDestination(lib, backend).value), cfg.protocol)
  {
  }

  ghost predicate CanonicalBackends(lib: Lib, cfg: ServiceConfig) {
    forall j | 0 <= j < |cfg.backends| :: CanonicalHost(lib, cfg.backends[j].address)
  }

  /** The rules of a service, by key, match its destinations when the first `n` backends have been taken. */
  ghost predicate MatchesUpTo(lib: Lib, cfgs: seq<ServiceConfig>, i: nat, n: nat, answers: Answers)
    requires i < |cfgs| && n <= |cfgs[i].backends|
    requires DestinationsUpTo(lib, cfgs, i, n, answers).Success? && BackendRulesUpTo(lib, cfgs, i, n, answers).Success?
  {
    Matches(SNATTableOf(BackendRulesUpTo(lib, cfgs, i, n, answers).value),
      Table(Keyed(DestinationsUpTo(lib, cfgs, i, n, answers).value)), cfgs[i].protocol, cfgs[i].snatIP)
  }

  lemma {:induction false} ServiceRulesMatch(lib: Lib, cfgs: seq<ServiceConfig>, i: nat, n: nat, answers: Answers)
    requires i < |cfgs| && n <= |cfgs[i].backends| && CanonicalBackends(lib, cfgs[i])
    requires ProtocolFromString(cfgs[i].protocol).Success?
    requires DestinationsUpTo(lib, cfgs, i, n, answers).Success? && BackendRulesUpTo(lib, cfgs, i, n, answers).Success?
    ensures MatchesUpTo(lib, cfgs, i, n, answers)
  {
    if n > 0 {
      ServiceRulesMatch(lib, cfgs, i, n - 1, answers);
      BackendMatches(lib, cfgs, i, n - 1, answers);
    }
  }

  lemma BackendMatches(lib: Lib, cfgs: seq<ServiceConfig>, i: nat, j: nat, answers: Answers)
    requires i < |cfgs| && j < |cfgs[i].backends| && CanonicalHost(lib, cfgs[i].backends[j].address)
    requires ProtocolFromString(cfgs[i].protocol).Success?
    requires DestinationsUpTo(lib, cfgs, i, j + 1, answers).Success?
    requires BackendRulesUpTo(lib, cfgs, i, j + 1, answers).Success? && MatchesUpTo(lib, cfgs, i, j, answers)
    ensures MatchesUpTo(lib, cfgs, i, j + 1, answers)
  {
    if Selected(cfgs, i, j, answers) {
      var rules := BackendRulesUpTo(lib, cfgs, i, j, answers).value;
      var dsts := DestinationsUpTo(lib, cfgs, i, j, answers).value;
      var backend := cfgs[i].backends[j];
      var r, dst := RuleOf(lib, cfgs[i], backend).value, ConfigToDestination(lib, backend).value;
      SameEndpoint(lib, cfgs[i], backend);
      SNATSnoc(rules, r);
      WantedSnoc(dsts, dst);
      MatchesStep(SNATTableOf(rules), Table(Keyed(dsts)), cfgs[i].protocol, cfgs[i].snatIP, dst, r);
    }
  }

  /** Service `i` asks for full NAT and programs a destination whose rule has key `k`. */
  ghost predicate Asks(lib: Lib, cfgs: seq<ServiceConfig>, i: nat, answers: Answers, k: string)
    requires i < |cfgs|
  {
    && cfgs[i].fullNAT && DesiredServiceOf(lib, cfgs, i, answers).Success?
    && exists d :: d in Wanted(DesiredServiceOf(lib, cfgs, i, answers).value.1) && k == RuleKey(d, cfgs[i].protocol)
  }

  ghost predicate AllConverted(lib: Lib, cfgs: seq<ServiceConfig>, answers: Answers) {
    forall i | 0 <= i < |cfgs| :: CanonicalBackends(lib, cfgs[i]) && DesiredServiceOf(lib, cfgs, i, answers).Success?
  }

  ghost predicate NoneAsks(lib: Lib, cfgs: seq<ServiceConfig>, from: nat, to: nat, answers: Answers, k: string)
    requires to <= |cfgs|
  {
    forall i | from <= i < to :: !Asks(lib, cfgs, i, answers, k)
  }

  /** The last of the first `n` services that asks for a rule with key `k`. */
  ghost function LastAsking(lib: Lib, cfgs: seq<ServiceConfig>, n: nat, answers: Answers, k: string): (r: Option<nat>)
    requires n <= |cfgs|
    ensures r.Some? ==> r.value < n && Asks(lib, cfgs, r.value, answers, k)
    ensures NoneAsks(lib, cfgs, if r.Some? then r.value + 1 else 0, n, answers, k)
  {
    if n == 0 then None
    else if Asks(lib, cfgs, n - 1, answers, k) then Some(n - 1)
    else LastAsking(lib, cfgs, n - 1, answers, k)
  }

  /**
   A rule with key `k` exists exactly if one of the first `n` services asks for it, and the last such decides its
   snat_ip.
   */
  ghost predicate Coherent(lib: Lib, cfgs: seq<ServiceConfig>, n: nat, answers: Answers, k: string, rules: SNATTable)
    requires n <= |cfgs|
  {
    match LastAsking(lib, cfgs, n, answers, k)
    case None => k !in rules
    case Some(i) => k in rules && rules[k].snatIP == cfgs[i].snatIP
  }

  lemma CoherentStep(lib: Lib, cfgs: seq<ServiceConfig>, i: nat, answers: Answers, k: string, before: SNATTable,
    after: SNATTable)
    requires i < |cfgs| && Coherent(lib, cfgs, i, answers, k, before)
    requires if Asks(lib, cfgs, i, answers, k) then k in after && after[k].snatIP == cfgs[i].snatIP
             else (k in after <==> k in before) && (k in after ==> after[k] == before[k])
    ensures Coherent(lib, cfgs, i + 1, answers, k, after)
  {
  }

  /**
   Cross-table coherence: with one health snapshot and canonical backends, a rule exists exactly for the
   destinations of full_nat services, with the snat_ip of the last service listed that asks for it.
   */
  lemma {:induction false} RulesMatchDestinations(lib: Lib, cfgs: seq<ServiceConfig>, n: nat, answers: Answers,
    k: string)
    requires n <= |cfgs| && AllConverted(lib, cfgs, answers)
    requires RulesUpTo(lib, cfgs, n, answers).Success?
    ensures Coherent(lib, cfgs, n, answers, k, SNATTableOf(RulesUpTo(lib, cfgs, n, answers).value))
  {
    if n > 0 {
      var before, more, after := RulesSplit(lib, cfgs, n - 1, answers);
      RulesMatchDestinations(lib, cfgs, n - 1, answers, k);
      if cfgs[n - 1].fullNAT {
        MoreRulesMatch(lib, cfgs, n - 1, answers, k, before, more);
      } else {
        CoherentStep(lib, cfgs, n - 1, answers, k, SNATTableOf(before), SNATTableOf(before));
      }
    }
  }

  lemma MoreRulesMatch(lib: Lib, cfgs: seq<ServiceConfig>, i: nat, answers: Answers, k: string,
    before: seq<SNATRule>, more: seq<SNATRule>)
    requires i < |cfgs| && DesiredServiceOf(lib, cfgs, i, answers).Success? && cfgs[i].fullNAT
    requires CanonicalBackends(lib, cfgs[i])
    requires BackendRulesUpTo(lib, cfgs, i, |cfgs[i].backends|, answers) == Success(more)
    requires Coherent(lib, cfgs, i, answers, k, SNATTableOf(before))
    ensures Coherent(lib, cfgs, i + 1, answers, k, SNATTableOf(before + more))
  {
    AsksIffRule(lib, cfgs, i, answers, k, more);
    SNATConcat(before, more);
    CoherentMerge(lib, cfgs, i, answers, k, SNATTableOf(before), SNATTableOf(more));
  }

  lemma RulesSplit(lib: Lib, cfgs: seq<ServiceConfig>, i: nat, answers: Answers)
    returns (before: seq<SNATRule>, more: seq<SNATRule>, after: seq<SNATRule>)
    requires i < |cfgs| && RulesUpTo(lib, cfgs, i + 1, answers).Success?
    ensures RulesUpTo(lib, cfgs, i, answers) == Success(before)
    ensures RulesUpTo(lib, cfgs, i + 1, answers) == Success(after)
    ensures after == if cfgs[i].fullNAT then before + more else before
    ensures cfgs[i].fullNAT ==> BackendRulesUpTo(lib, cfgs, i, |cfgs[i].backends|, answers) == Success(more)
  {
    before, after := RulesUpTo(lib, cfgs, i, answers).value, RulesUpTo(lib, cfgs, i + 1, answers).value;
    more := if cfgs[i].fullNAT then BackendRulesUpTo(lib, cfgs, i, |cfgs[i].backends|, answers).value else [];
  }

  lemma CoherentMerge(lib: Lib, cfgs: seq<ServiceConfig>, i: nat, answers: Answers, k: string, before: SNATTable,
    more: SNATTable)
    requires i < |cfgs| && Coherent(lib, cfgs, i, answers, k, before)
    requires Asks(lib, cfgs, i, answers, k) <==> k in more
    requires k in more ==> more[k].snatIP == cfgs[i].snatIP
    ensures Coherent(lib, cfgs, i + 1, answers, k, before + more)
  {
    CoherentStep(lib, cfgs, i, answers, k, before, before + more);
  }

  /** FORWARD rules have the same keys as SNAT rules. */
  lemma ForwardKeys(rules: seq<SNATRule>)
    ensures ForwardTableOf(ForwardRules(rules)).Keys == SNATTableOf(rules).Keys
  {
    var fs := ForwardRules(rules);
    forall t | 0 <= t < |rules| ensures KeyedForward(fs)[t].0 == KeyedSNAT(rules)[t].0 {
      assert fs[t] == ForwardOf(rules[t]);
    }
    SameKeys(KeyedForward(fs), KeyedSNAT(rules), |rules|);
  }

  lemma AsksIffRule(lib: Lib, cfgs: seq<ServiceConfig>, i: nat, answers: Answers, k: string, rules: seq<SNATRule>)
    requires i < |cfgs| && DesiredServiceOf(lib, cfgs, i, answers).Success? && cfgs[i].fullNAT
    requires CanonicalBackends(lib, cfgs[i])
    requires BackendRulesUpTo(lib, cfgs, i, |cfgs[i].backends|, answers) == Success(rules)
    ensures Asks(lib, cfgs, i, answers, k) <==> k in SNATTableOf(rules)
    ensures k in SNATTableOf(rules) ==> SNATTableOf(rules)[k].snatIP == cfgs[i].snatIP
  {
    ServiceRulesMatch(lib, cfgs, i, |cfgs[i].backends|, answers);
  }

  /**
   The same on the tables themselves: when every service has its own key and the IPVS table agrees with the desired
   state, the rule keys are exactly those of the destinations programmed for full_nat services.
   */
  lemma TablesCoherent(lib: Lib, cfgs: seq<ServiceConfig>, answers: Answers, s: Store, managed: set<ServiceKey>,
    k: string)
    requires AllConverted(lib, cfgs, answers) && DesiredOf(lib, cfgs, answers).Success?
    requires RulesOf(lib, cfgs, answers).Success?
    requires forall i | 0 <= i < |cfgs| :: LastForKey(lib, cfgs, i)
    requires Agrees(s, managed, DesiredOf(lib, cfgs, answers).value)
    ensures k in SNATTableOf(RulesOf(lib, cfgs, answers).value) <==>
      exists i, d :: 0 <= i < |cfgs| && Programs(lib, cfgs, i, s, d) && k == RuleKey(d, cfgs[i].protocol)
    ensures var rules := RulesOf(lib, cfgs, answers).value;
      ForwardTableOf(ForwardRules(rules)).Keys == SNATTableOf(rules).Keys
  {
    RulesMatchDestinations(lib, cfgs, |cfgs|, answers, k);
    ForwardKeys(RulesOf(lib, cfgs, answers).value);
    match LastAsking(lib, cfgs, |cfgs|, answers, k)
    case None =>
      forall i, d | 0 <= i < |cfgs| && Programs(lib, cfgs, i, s, d) ensures k != RuleKey(d, cfgs[i].protocol) {
        AsksIffPrograms(lib, cfgs, answers, s, managed, i, d);
        assert !Asks(lib, cfgs, i, answers, k);
      }
    case Some(i) =>
      var d :| d in Wanted(DesiredServiceOf(lib, cfgs, i, answers).value.1) && k == RuleKey(d, cfgs[i].protocol);
      AsksIffPrograms(lib, cfgs, answers, s, managed, i, d);
  }

  lemma AsksIffPrograms(lib: Lib, cfgs: seq<ServiceConfig>, answers: Answers, s: Store, managed: set<ServiceKey>,
    i: nat, d: DestinationKey)
    requires DesiredOf(lib, cfgs, answers).Success? && i < |cfgs| && LastForKey(lib, cfgs, i)
    requires Agrees(s, managed, DesiredOf(lib, cfgs, answers).value)
    ensures DesiredServiceOf(lib, cfgs, i, answers).Success?
    ensures Programs(lib, cfgs, i, s, d) <==>
      cfgs[i].fullNAT && d in Wanted(DesiredServiceOf(lib, cfgs, i, answers).value.1)
  {
    DesiredEntry(lib, cfgs, answers, i);
    assert AgreesAt(s, DesiredOf(lib, cfgs, answers).value, DesiredServiceOf(lib, cfgs, i, answers).value.0);
  }

  /** Full-NAT service `i` has destination `d` in the IPVS table. */
  ghost predicate Programs(lib: Lib, cfgs: seq<ServiceConfig>, i: nat, s: Store, d: DestinationKey)
    requires i < |cfgs|
  {
    && cfgs[i].fullNAT
    && ServiceKeyFromConfig(lib, cfgs[i]).Success?
    && ServiceKeyFromConfig(lib, cfgs[i]).value in s.dests
    && d in s.dests[ServiceKeyFromConfig(lib, cfgs[i]).value]
  }
}
