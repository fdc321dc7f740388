/** The iptables-backed rule manager (pkg/snat/manager_linux.go): per-rule failures are swallowed. */
module SnatLinux {
  import opened Text
  import opened LastWins
  import opened Scripts
  import opened Snat
  import opened ForwardRun

  type RuleSpec = seq<string>

  function BuildRuleSpec(rule: SNATRule): RuleSpec {
    var match_ := ["-d", rule.backendIP, "-p", rule.protocol, "--dport", Itoa(rule.backendPort)];
    if rule.snatIP != "" then match_ + ["-j", "SNAT", "--to-source", rule.snatIP] else match_ + ["-j", "MASQUERADE"]
  }

  function BuildForwardRuleSpec(rule: ForwardRule): RuleSpec {
    ["-d", rule.backendIP, "-p", rule.protocol, "--dport", Itoa(rule.backendPort), "-j", "ACCEPT"]
  }

  const CONNTRACK_RULE: RuleSpec := ["-m", "conntrack", "--ctstate", "ESTABLISHED,RELATED", "-j", "ACCEPT"]

  /** A rule can be read back from its specification. */
  lemma SpecInjective(a: SNATRule, b: SNATRule)
    requires BuildRuleSpec(a) == BuildRuleSpec(b)
    ensures a == b
  {
    var s, t := BuildRuleSpec(a), BuildRuleSpec(b);
    assert s[1] == t[1] && s[3] == t[3] && s[5] == t[5];
    ItoaInjective(a.backendPort, b.backendPort);
    if a.snatIP != "" {
      assert s[9] == a.snatIP && t[9] == b.snatIP;
    }
  }

  lemma ForwardSpecInjective(a: ForwardRule, b: ForwardRule)
    requires BuildForwardRuleSpec(a) == BuildForwardRuleSpec(b)
    ensures a == b
  {
    var s, t := BuildForwardRuleSpec(a), BuildForwardRuleSpec(b);
    assert s[1] == t[1] && s[3] == t[3] && s[5] == t[5];
    ItoaInjective(a.backendPort, b.backendPort);
  }

  /** The specifications of the tracked rules with keys in `present`. */
  ghost function SpecsOf(m: SNATTable, present: set<string>): set<RuleSpec> {
    set k | k in present && k in m :: BuildRuleSpec(m[k])
  }

  ghost function ForwardSpecsOf(m: ForwardTable): set<RuleSpec> {
    set k | k in m :: BuildForwardRuleSpec(m[k])
  }

  lemma DropSpec(m: SNATTable, present: set<string>, k: string)
    requires SNATFiled(m) && k in m
    ensures SpecsOf(m, present) - {BuildRuleSpec(m[k])} == SpecsOf(m, present - {k})
  {
    forall k' | k' in m && BuildRuleSpec(m[k']) == BuildRuleSpec(m[k]) ensures k' == k {
      SpecInjective(m[k'], m[k]);
    }
  }

  lemma UntrackSpec(m: SNATTable, present: set<string>, k: string)
    requires k !in present
    ensures SpecsOf(m - {k}, present) == SpecsOf(m, present)
  {
  }

  lemma AddSpec(m: SNATTable, present: set<string>, rule: SNATRule)
    requires rule.Key() !in present
    ensures SpecsOf(m[rule.Key() := rule], present + {rule.Key()}) == SpecsOf(m, present) + {BuildRuleSpec(rule)}
  {
  }

  lemma DropForwardSpec(m: ForwardTable, k: string)
    requires ForwardFiled(m) && k in m
    ensures ForwardSpecsOf(m - {k}) == ForwardSpecsOf(m) - {BuildForwardRuleSpec(m[k])}
  {
    forall k' | k' in m && BuildForwardRuleSpec(m[k']) == BuildForwardRuleSpec(m[k]) ensures k' == k {
      ForwardSpecInjective(m[k'], m[k]);
    }
    forall k' | k' in m - {k} ensures (m - {k})[k'] == m[k'] {
    }
  }

  lemma AddForwardSpec(m: ForwardTable, rule: ForwardRule)
    requires rule.Key() !in m
    ensures ForwardSpecsOf(m[rule.Key() := rule]) == ForwardSpecsOf(m) + {BuildForwardRuleSpec(rule)}
  {
    var k, m' := rule.Key(), m[rule.Key() := rule];
    assert m'[k] == rule;
    forall k' | k' in m ensures m'[k'] == m[k'] {
    }
  }

  /** The chain is known by the rules tracked and which of them are really there: there are no other rules. */
  ghost predicate Tracked(chain: set<RuleSpec>, m: SNATTable, present: set<string>) {
    SNATFiled(m) && present <= m.Keys && chain == SpecsOf(m, present)
  }

  ghost predicate Same(k: string, m: SNATTable, p: set<string>, m': SNATTable, p': set<string>) {
    (k in m' <==> k in m) && (k in m ==> m'[k] == m[k]) && (k in p' <==> k in p)
  }

  /**
   What one Reconcile may do at key `k`, from tracked rules `m` (really present: `p`) to `m'` and `p'`.  Unless
   commands may fail, the desired rule is in place, except that a tracked rule with the desired snat_ip is trusted.
   */
  ghost predicate KeyEffect(k: string, m: SNATTable, p: set<string>, want: SNATTable, m': SNATTable, p': set<string>,
    steady: bool)
  {
    var same := Same(k, m, p, m', p');
    if k !in want then
      (!steady && same) || (k !in m' && k !in p')
    else if k in m && m[k].snatIP == want[k].snatIP then
      same
    else
      || (k in m' && m'[k] == want[k] && k in p')
      || (!steady && same)
      || (!steady && k in m && k in m' && m'[k] == m[k] && k !in p')
  }

  // ----- Reconcile as a function of the outcomes of the commands -----

  /**
   The tracked rules `m`, of which those in `p` are in the chain, and the outcomes of the commands to come.  When these
   are used up every command succeeds.
   */
  datatype State = State(m: SNATTable, p: set<string>, script: seq<bool>)

  /** Deleting the rule of `key`, which is no longer tracked if that succeeds. */
  ghost function Removed(s: State, key: string): State {
    if Succeeds(s.script) then State(s.m - {key}, s.p - {key}, Rest(s.script)) else s.(script := Rest(s.script))
  }

  ghost function Appended(s: State, key: string, rule: SNATRule): State {
    if Succeeds(s.script) then State(s.m[key := rule], s.p + {key}, Rest(s.script)) else s.(script := Rest(s.script))
  }

  /** Bringing `key` in line with `rule`: trust the rule tracked, or delete it first and then add, or just add. */
  ghost function Put(s: State, key: string, rule: SNATRule): State {
    if key in s.m then
      if s.m[key].snatIP == rule.snatIP then s
      else if !Succeeds(s.script) then s.(script := Rest(s.script))
      else Appended(s.(p := s.p - {key}, script := Rest(s.script)), key, rule)
    else Appended(s, key, rule)
  }

  ghost function RemoveAll(s: State, order: seq<string>): State {
    if order == [] then s else Removed(RemoveAll(s, order[..|order| - 1]), order[|order| - 1])
  }

  ghost function PutAll(s: State, want: SNATTable, order: seq<string>): State
    requires forall k | k in order :: k in want
  {
    if order == [] then s else
      var key := order[|order| - 1];
      Put(PutAll(s, want, order[..|order| - 1]), key, want[key])
  }

  /** One Reconcile, in some order of the two maps it ranges over. */
  ghost predicate Reconciled(s: State, want: SNATTable, s': State) {
    exists order1, order2 ::
      && Enumerates(order1, s.m.Keys - want.Keys) && Enumerates(order2, want.Keys)
      && s' == PutAll(RemoveAll(s, order1), want, order2)
  }

  lemma RemovedAt(s: State, key: string, want: SNATTable, k: string)
    ensures k != key ==> Same(k, s.m, s.p, Removed(s, key).m, Removed(s, key).p)
    ensures key !in want ==> KeyEffect(key, s.m, s.p, want, Removed(s, key).m, Removed(s, key).p, Steady(s.script))
    ensures Steady(s.script) ==> Steady(Removed(s, key).script)
  {
    if Steady(s.script) {
      StaysSteady(s.script);
    }
  }

  lemma PutAt(s: State, key: string, want: SNATTable, k: string)
    requires key in want
    ensures var s' := Put(s, key, want[key]);
      && (k != key ==> Same(k, s.m, s.p, s'.m, s'.p))
      && KeyEffect(key, s.m, s.p, want, s'.m, s'.p, Steady(s.script))
      && (Steady(s.script) ==> Steady(s'.script))
  {
    if Steady(s.script) {
      StaysSteady(s.script);
      StaysSteady(Rest(s.script));
    }
  }

  lemma {:induction false} RemoveAllAt(s: State, want: SNATTable, order: seq<string>, k: string)
    requires forall key | key in order :: key !in want
    requires Distinct(order)
    ensures var s' := RemoveAll(s, order);
      && (k !in order ==> Same(k, s.m, s.p, s'.m, s'.p))
      && (k in order ==> KeyEffect(k, s.m, s.p, want, s'.m, s'.p, Steady(s.script)))
      && (Steady(s.script) ==> Steady(s'.script))
  {
    if order != [] {
      var before := order[..|order| - 1];
      RemoveAllAt(s, want, before, k);
      RemovedAt(RemoveAll(s, before), order[|order| - 1], want, k);
    }
  }

  lemma {:induction false} PutAllAt(s: State, want: SNATTable, order: seq<string>, k: string)
    requires forall key | key in order :: key in want
    requires Distinct(order)
    ensures var s' := PutAll(s, want, order);
      && (k !in order ==> Same(k, s.m, s.p, s'.m, s'.p))
      && (k in order ==> KeyEffect(k, s.m, s.p, want, s'.m, s'.p, Steady(s.script)))
      && (Steady(s.script) ==> Steady(s'.script))
  {
    if order != [] {
      var before := order[..|order| - 1];
      PutAllAt(s, want, before, k);
      PutAt(PutAll(s, want, before), order[|order| - 1], want, k);
    }
  }

  /** Whatever the order, a Reconcile does to each key one of the few things KeyEffect allows. */
  lemma ReconciledAt(s: State, want: SNATTable, s': State, k: string)
    requires Reconciled(s, want, s') && s.p <= s.m.Keys
    ensures KeyEffect(k, s.m, s.p, want, s'.m, s'.p, Steady(s.script))
  {
    var order1, order2 :|
      && Enumerates(order1, s.m.Keys - want.Keys) && Enumerates(order2, want.Keys)
      && s' == PutAll(RemoveAll(s, order1), want, order2);
    RemoveAllAt(s, want, order1, k);
    PutAllAt(RemoveAll(s, order1), want, order2, k);
  }

  // ----- The same by position: which command decides about which key -----

  /** The rule of a stale key stays, in the chain or not, exactly if its own command fails. */
  ghost predicate RemovedBy(k: string, s: State, at: nat, s': State) {
    if Outcome(s.script, at) then k !in s'.m && k !in s'.p else Same(k, s.m, s.p, s'.m, s'.p)
  }

  /**
   A desired key: its commands are those from position `at` up to `next`, none for a tracked rule with the desired
   snat_ip, one to add an untracked rule, and for another snat_ip one to delete, and, if that succeeds, one to add.
   */
  ghost predicate PutBy(k: string, rule: SNATRule, s: State, at: nat, next: nat, s': State) {
    if k in s.m && s.m[k].snatIP == rule.snatIP then
      next == at && Same(k, s.m, s.p, s'.m, s'.p)
    else if k in s.m && !Outcome(s.script, at) then
      next == at + 1 && Same(k, s.m, s.p, s'.m, s'.p)
    else if Outcome(s.script, if k in s.m then at + 1 else at) then
      next == (if k in s.m then at + 2 else at + 1) && k in s'.m && s'.m[k] == rule && k in s'.p
    else
      && next == (if k in s.m then at + 2 else at + 1)
      && (k in s'.m <==> k in s.m) && (k in s.m ==> s'.m[k] == s.m[k] && k !in s'.p)
      && (k !in s.m ==> (k in s'.p <==> k in s.p))
  }

  /** A whole run: the stale keys in the order `stale`, and then the desired ones in the order `order`. */
  ghost predicate DecidedBy(s: State, want: SNATTable, stale: seq<string>, order: seq<string>, at: seq<nat>, s': State)
  {
    && Enumerates(stale, s.m.Keys - want.Keys) && Enumerates(order, want.Keys)
    && |at| == |order| + 1 && at[0] == |stale| && s'.script == Dropped(s.script, at[|order|])
    && (forall t | 0 <= t < |stale| :: RemovedBy(stale[t], s, t, s'))
    && (forall t | 0 <= t < |order| :: order[t] in want && PutBy(order[t], want[order[t]], s, at[t], at[t + 1], s'))
    && (forall k | k !in s.m && k !in want :: Same(k, s.m, s.p, s'.m, s'.p))
  }

  lemma {:induction false} RemovedByPosition(s: State, order: seq<string>)
    requires Distinct(order)
    ensures var s' := RemoveAll(s, order);
      && s'.script == Dropped(s.script, |order|)
      && (forall t | 0 <= t < |order| :: RemovedBy(order[t], s, t, s'))
      && (forall k | k !in order :: Same(k, s.m, s.p, s'.m, s'.p))
  {
    if order != [] {
      var n := |order| - 1;
      var before := order[..n];
      RemovedByPosition(s, before);
      DroppedNext(s.script, n);
      assert order == before + [order[n]] && order[n] !in before;
    }
  }

  lemma PutByStep(s: State, s1: State, k: string, rule: SNATRule, at: nat) returns (next: nat)
    requires Same(k, s.m, s.p, s1.m, s1.p) && s1.script == Dropped(s.script, at)
    ensures PutBy(k, rule, s, at, next, Put(s1, k, rule)) && Put(s1, k, rule).script == Dropped(s.script, next)
    ensures forall k' | k' != k :: Same(k', s1.m, s1.p, Put(s1, k, rule).m, Put(s1, k, rule).p)
  {
    DroppedNext(s.script, at);
    DroppedNext(s.script, at + 1);
    if k in s.m {
      next := if s.m[k].snatIP == rule.snatIP then at else if Outcome(s.script, at) then at + 2 else at + 1;
    } else {
      next := at + 1;
    }
  }

  /** The keys of `order` have been put, from position `at[0]` of the commands of `s` on. */
  ghost predicate PutsBy(s: State, want: SNATTable, order: seq<string>, at: seq<nat>, s': State) {
    && |at| == |order| + 1 && s'.script == Dropped(s.script, at[|order|])
    && (forall t | 0 <= t < |order| :: order[t] in want && PutBy(order[t], want[order[t]], s, at[t], at[t + 1], s'))
  }

  lemma PutsByMore(s: State, want: SNATTable, order: seq<string>, at: seq<nat>, s1: State, key: string, next: nat,
    s2: State)
    requires PutsBy(s, want, order, at, s1) && key in want && key !in order
    requires PutBy(key, want[key], s, at[|order|], next, s2) && s2.script == Dropped(s.script, next)
    requires forall k | k != key :: Same(k, s1.m, s1.p, s2.m, s2.p)
    ensures PutsBy(s, want, order + [key], at + [next], s2)
  {
    var order', at' := order + [key], at + [next];
    forall t | 0 <= t < |order'|
      ensures order'[t] in want && PutBy(order'[t], want[order'[t]], s, at'[t], at'[t + 1], s2)
    {
      if t < |order| {
        assert order[t] != key && PutBy(order[t], want[order[t]], s, at[t], at[t + 1], s1);
        assert Same(order[t], s1.m, s1.p, s2.m, s2.p);
      }
    }
  }

  /** `s1` is the state after the deletions, at position `from` of the commands of `s`. */
  lemma {:induction false} PutByPosition(s: State, from: nat, s1: State, want: SNATTable, order: seq<string>)
    returns (at: seq<nat>)
    requires Distinct(order) && forall k | k in order :: k in want
    requires s1.script == Dropped(s.script, from) && forall k | k in want :: Same(k, s.m, s.p, s1.m, s1.p)
    ensures PutsBy(s, want, order, at, PutAll(s1, want, order)) && at[0] == from
    ensures forall k | k !in order :: Same(k, s1.m, s1.p, PutAll(s1, want, order).m, PutAll(s1, want, order).p)
  {
    if order == [] {
      at := [from];
    } else {
      var n := |order| - 1;
      var before, key := order[..n], order[n];
      at := PutByPosition(s, from, s1, want, before);
      assert order == before + [key] && key !in before;
      var next := PutByStep(s, PutAll(s1, want, before), key, want[key], at[n]);
      PutsByMore(s, want, before, at, PutAll(s1, want, before), key, next, PutAll(s1, want, order));
      at := at + [next];
    }
  }

  /**
   No failure ends a run: every stale and every changed or missing desired key has commands of its own, and what
   becomes of it depends on their outcomes alone.
   */
  lemma EachKeyDecided(s: State, want: SNATTable, s': State) returns (stale: seq<string>, order: seq<string>,
    at: seq<nat>)
    requires Reconciled(s, want, s')
    ensures DecidedBy(s, want, stale, order, at, s')
  {
    stale, order :|
      && Enumerates(stale, s.m.Keys - want.Keys) && Enumerates(order, want.Keys)
      && s' == PutAll(RemoveAll(s, stale), want, order);
    var s1 := RemoveAll(s, stale);
    RemovedByPosition(s, stale);
    at := PutByPosition(s, |stale|, s1, want, order);
    assert forall k | k !in want :: k !in order;
    forall t | 0 <= t < |stale| ensures RemovedBy(stale[t], s, t, s') {
      assert stale[t] in stale;
      StillRemoved(stale[t], s, t, s1, s');
    }
    forall k | k !in s.m && k !in want ensures Same(k, s.m, s.p, s'.m, s'.p) {
      assert k !in stale && Same(k, s.m, s.p, s1.m, s1.p);
    }
  }

  lemma StillRemoved(k: string, s: State, at: nat, s1: State, s': State)
    requires RemovedBy(k, s, at, s1) && Same(k, s1.m, s1.p, s'.m, s'.p)
    ensures RemovedBy(k, s, at, s')
  {
  }

  lemma RemoveMore(s: State, order: seq<string>, key: string)
    ensures RemoveAll(s, order + [key]) == Removed(RemoveAll(s, order), key)
  {
    assert (order + [key])[..|order|] == order;
  }

  lemma PutMore(s: State, want: SNATTable, order: seq<string>, key: string)
    requires key in want && forall k | k in order :: k in want
    ensures PutAll(s, want, order + [key]) == Put(PutAll(s, want, order), key, want[key])
  {
    assert (order + [key])[..|order|] == order;
  }

  class LinuxManager {
    var chain: set<RuleSpec>
    var forwardChain: set<RuleSpec>
    var managed: SNATTable
    var managedForward: ForwardTable
    /** The outcomes of the iptables commands to come; a command that fails has no effect. */
    var script: seq<bool>
    /** The keys whose tracked SNAT rule is in the chain. */
    ghost var present: set<string>

    ghost predicate Valid()
      reads this
    {
      && Tracked(chain, managed, present)
      && ForwardFiled(managedForward)
      && forwardChain == {CONNTRACK_RULE} + ForwardSpecsOf(managedForward)
    }

    ghost function Here(): State
      reads this
    {
      State(managed, present, script)
    }

    /** Freshly created chains. */
    constructor (script: seq<bool>)
      ensures Valid() && managed == map[] && managedForward == map[] && present == {} && this.script == script
    {
      this.script := script;
      chain, forwardChain, managed, managedForward, present := {}, {CONNTRACK_RULE}, map[], map[], {};
    }

    /** Whether the next command succeeds. */
    method Attempt() returns (ok: bool)
      modifies this`script
      ensures ok == Succeeds(old(script)) && script == Rest(old(script))
    {
      ok := script == [] || script[0];
      if script != [] {
        script := script[1..];
      }
    }

    /** AppendUnique on the SNAT chain. */
    method AddRule(rule: SNATRule) returns (ok: bool)
      modifies this`chain, this`script
      ensures ok == Succeeds(old(script)) && script == Rest(old(script))
      ensures chain == if ok then old(chain) + {BuildRuleSpec(rule)} else old(chain)
    {
      ok := Attempt();
      if ok {
        chain := chain + {BuildRuleSpec(rule)};
      }
    }

    /** DeleteIfExists on the SNAT chain: deleting an absent rule succeeds. */
    method DeleteRule(rule: SNATRule) returns (ok: bool)
      modifies this`chain, this`script
      ensures ok == Succeeds(old(script)) && script == Rest(old(script))
      ensures chain == if ok then old(chain) - {BuildRuleSpec(rule)} else old(chain)
    {
      ok := Attempt();
      if ok {
        chain := chain - {BuildRuleSpec(rule)};
      }
    }

    method AddForwardRule(rule: ForwardRule) returns (ok: bool)
      modifies this`forwardChain, this`script
      ensures ok == Succeeds(old(script)) && script == Rest(old(script))
      ensures forwardChain == if ok then old(forwardChain) + {BuildForwardRuleSpec(rule)} else old(forwardChain)
    {
      ok := Attempt();
      if ok {
        forwardChain := forwardChain + {BuildForwardRuleSpec(rule)};
      }
    }

    method DeleteForwardRule(rule: ForwardRule) returns (ok: bool)
      modifies this`forwardChain, this`script
      ensures ok == Succeeds(old(script)) && script == Rest(old(script))
      ensures forwardChain == if ok then old(forwardChain) - {BuildForwardRuleSpec(rule)} else old(forwardChain)
    {
      ok := Attempt();
      if ok {
        forwardChain := forwardChain - {BuildForwardRuleSpec(rule)};
      }
    }

    method Reconcile(desired: seq<SNATRule>)
      requires Valid() && forall r | r in desired :: '/' !in r.protocol
      modifies this`chain, this`managed, this`present, this`script
      ensures Valid()
      ensures Reconciled(old(Here()), SNATTableOf(desired), Here())
      ensures exists stale, order, at :: DecidedBy(old(Here()), SNATTableOf(desired), stale, order, at, Here())
      ensures forall k ::
        KeyEffect(k, old(managed), old(present), SNATTableOf(desired), managed, present, Steady(old(script)))
    {
      var desiredMap: SNATTable := map[];
      for i := 0 to |desired|
        invariant desiredMap == TableUpTo(KeyedSNAT(desired), i)
      {
        desiredMap := desiredMap[desired[i].Key() := desired[i]];
      }
      SNATTableFiled(desired);
      ghost var start := Here();
      ghost var order1 := RemoveStale(desiredMap);
      ghost var order2 := PutDesired(desiredMap);
      assert Reconciled(start, desiredMap, Here());
      ghost var stale, order, at := EachKeyDecided(start, desiredMap, Here());
      forall k ensures KeyEffect(k, start.m, start.p, desiredMap, managed, present, Steady(start.script)) {
        ReconciledAt(start, desiredMap, Here(), k);
      }
    }

    /** The first loop of Reconcile. */
    method RemoveStale(want: SNATTable) returns (ghost order: seq<string>)
      requires Valid()
      modifies this`chain, this`managed, this`present, this`script
      ensures Valid()
      ensures Enumerates(order, old(managed.Keys) - want.Keys) && Here() == RemoveAll(old(Here()), order)
    {
      ghost var start := Here();
      order := [];
      var todo := managed.Keys;
      while todo != {}
        invariant Valid() && todo <= managed.Keys
        invariant Here() == RemoveAll(start, order) && Taken(order, start.m.Keys, todo, want.Keys)
      {
        var key :| key in todo;
        TakenMore(order, start.m.Keys, todo, want.Keys, key);
        todo := todo - {key};
        if key !in want {
          RemoveRule(key);
          RemoveMore(start, order, key);
          order := order + [key];
        }
      }
    }

    /** The second loop of Reconcile. */
    method PutDesired(want: SNATTable) returns (ghost order: seq<string>)
      requires Valid() && SNATFiled(want)
      modifies this`chain, this`managed, this`present, this`script
      ensures Valid()
      ensures Enumerates(order, want.Keys) && Here() == PutAll(old(Here()), want, order)
    {
      ghost var start := Here();
      order := [];
      var todo := want.Keys;
      while todo != {}
        invariant Valid() && todo <= want.Keys && Taken(order, want.Keys, todo, {})
        invariant Here() == PutAll(start, want, order)
      {
        var key :| key in todo;
        TakenMore(order, want.Keys, todo, {}, key);
        todo := todo - {key};
        PutRule(key, want[key]);
        PutMore(start, want, order, key);
        order := order + [key];
      }
    }

    /** One iteration of the first loop: stop tracking a rule whose delete succeeded. */
    method RemoveRule(key: string)
      requires Valid() && key in managed
      modifies this`chain, this`managed, this`present, this`script
      ensures Valid() && Here() == Removed(old(Here()), key)
    {
      var ok := DeleteRule(managed[key]);
      if ok {
        DropSpec(managed, present, key);
        UntrackSpec(managed, present - {key}, key);
        managed, present := managed - {key}, present - {key};
      }
    }

    /** One iteration of the second loop: for an update, delete the old rule first, then add. */
    method PutRule(key: string, rule: SNATRule)
      requires Valid() && rule.Key() == key && '/' !in rule.protocol
      modifies this`chain, this`managed, this`present, this`script
      ensures Valid() && Here() == Put(old(Here()), key, rule)
    {
      if key in managed {
        if managed[key].snatIP == rule.snatIP {
          return;
        }
        var ok := DeleteRule(managed[key]);
        if !ok {
          return;
        }
        DropSpec(managed, present, key);
        present := present - {key};
      }
      AppendRule(key, rule);
    }

    method AppendRule(key: string, rule: SNATRule)
      requires Valid() && rule.Key() == key && '/' !in rule.protocol && key !in present
      modifies this`chain, this`managed, this`present, this`script
      ensures Valid() && Here() == Appended(old(Here()), key, rule)
    {
      var added := AddRule(rule);
      if added {
        AddSpec(managed, present, rule);
        managed, present := managed[key := rule], present + {key};
      }
    }

    /**
     ReconcileForward: a failed command is logged and changes nothing, and the loops go on.  Each stale and each missing
     key has its own command, and changes exactly if this command succeeds.
     */
    method ReconcileForward(desired: seq<ForwardRule>)
      requires Valid() && forall r | r in desired :: '/' !in r.protocol
      modifies this`forwardChain, this`managedForward, this`script
      ensures Valid()
      ensures exists stale, missing ::
        ForwardBy(old(managedForward), ForwardTableOf(desired), old(script), stale, missing, managedForward, script)
      ensures Steady(old(script)) ==> managedForward == ForwardMerged(old(managedForward), ForwardTableOf(desired))
    {
      var desiredMap: ForwardTable := map[];
      for i := 0 to |desired|
        invariant desiredMap == TableUpTo(KeyedForward(desired), i)
      {
        desiredMap := desiredMap[desired[i].Key() := desired[i]];
      }
      ForwardTableFiled(desired);
      ghost var m0, script0 := managedForward, script;
      ghost var stale := RemoveStaleForward(desiredMap);
      ghost var m1, script1 := managedForward, script;
      ghost var missing := AddMissingForward(desiredMap);
      BothLoops(m0, desiredMap, script0, stale, m1, script1, missing, managedForward, script);
      if Steady(script0) {
        SteadyForward(m0, desiredMap, script0, stale, missing, managedForward, script);
      }
    }

    /** The first loop of ReconcileForward. */
    method RemoveStaleForward(want: ForwardTable) returns (ghost order: seq<string>)
      requires Valid()
      modifies this`forwardChain, this`managedForward, this`script
      ensures Valid() && Enumerates(order, old(managedForward.Keys) - want.Keys)
      ensures Deleting(old(managedForward), old(script), order, managedForward, script)
    {
      ghost var m0, script0 := managedForward, script;
      order := [];
      var todo := managedForward.Keys;
      while todo != {}
        invariant Valid() && todo <= managedForward.Keys && Taken(order, m0.Keys, todo, want.Keys)
        invariant Deleting(m0, script0, order, managedForward, script)
      {
        var key :| key in todo;
        TakenMore(order, m0.Keys, todo, want.Keys, key);
        todo := todo - {key};
        if key !in want {
          ghost var before := managedForward;
          DeletingMore(m0, script0, order, before, script, key, if Succeeds(script) then before - {key} else before);
          RemoveForwardRule(key);
          order := order + [key];
        }
      }
    }

    method RemoveForwardRule(key: string)
      requires Valid() && key in managedForward
      modifies this`forwardChain, this`managedForward, this`script
      ensures Valid() && script == Rest(old(script))
      ensures managedForward == (if Succeeds(old(script)) then old(managedForward) - {key} else old(managedForward))
    {
      var ok := DeleteForwardRule(managedForward[key]);
      if ok {
        DropForwardSpec(managedForward, key);
        managedForward := managedForward - {key};
      }
    }

    /** The second loop of ReconcileForward. */
    method AddMissingForward(want: ForwardTable) returns (ghost order: seq<string>)
      requires Valid() && ForwardFiled(want)
      modifies this`forwardChain, this`managedForward, this`script
      ensures Valid() && Enumerates(order, want.Keys - old(managedForward.Keys))
      ensures Adding(old(managedForward), want, old(script), order, managedForward, script)
    {
      ghost var m0, script0 := managedForward, script;
      order := [];
      var todo := want.Keys;
      while todo != {}
        invariant Valid() && Taken(order, want.Keys, todo, m0.Keys)
        invariant Adding(m0, want, script0, order, managedForward, script)
      {
        var key :| key in todo;
        TakenMore(order, want.Keys, todo, m0.Keys, key);
        todo := todo - {key};
        if key !in managedForward {
          ghost var before, rule := managedForward, want[key];
          AddingMore(m0, want, script0, order, before, script, key,
            if Succeeds(script) then before[key := rule] else before);
          PutForwardRule(key, want[key]);
          order := order + [key];
        }
      }
    }

    method PutForwardRule(key: string, rule: ForwardRule)
      requires Valid() && key !in managedForward && rule.Key() == key && '/' !in rule.protocol
      modifies this`forwardChain, this`managedForward, this`script
      ensures Valid() && script == Rest(old(script))
      ensures managedForward ==
        if Succeeds(old(script)) then old(managedForward)[key := rule] else old(managedForward)
    {
      var ok := AddForwardRule(rule);
      if ok {
        AddForwardSpec(managedForward, rule);
        managedForward := managedForward[key := rule];
      }
    }
  }

  // ----- When a failure-free run is exact -----

  /**
   A failure-free Reconcile tracks what FakeManager tracks, and the chain is then exactly the desired rules if and
   only if no rule desired with the tracked snat_ip had been lost from the chain.
   */
  lemma CleanReconcile(chain: set<RuleSpec>, m: SNATTable, p: set<string>, want: SNATTable, chain': set<RuleSpec>,
    m': SNATTable, p': set<string>)
    requires Tracked(chain, m, p) && Tracked(chain', m', p') && SNATFiled(want)
    requires forall k :: KeyEffect(k, m, p, want, m', p', true)
    ensures m' == SNATMerged(m, want) == want
    ensures chain' == SpecsOf(want, want.Keys) <==>
      forall k | k in want && k in m && m[k].snatIP == want[k].snatIP :: BuildRuleSpec(m[k]) in chain
  {
    assert m' == SNATMerged(m, want) by {
      forall k ensures (k in m' <==> k in want) && (k in want ==> m'[k] == SNATMerged(m, want)[k]) {
        assert KeyEffect(k, m, p, want, m', p', true);
      }
    }
    SNATMergedIsDesired(m, want);
    forall k | k in m ensures BuildRuleSpec(m[k]) in chain <==> k in p {
      PresentIffInChain(chain, m, p, k);
    }
    forall k | k in want ensures BuildRuleSpec(want[k]) in chain' <==> k in p' {
      PresentIffInChain(chain', m', p', k);
    }
    forall k | k in want ensures k in p' <==> (k in m && m[k].snatIP == want[k].snatIP ==> k in p) {
      assert KeyEffect(k, m, p, want, m', p', true);
    }
    if forall k | k in want && k in m && m[k].snatIP == want[k].snatIP :: BuildRuleSpec(m[k]) in chain {
      assert p' == want.Keys;
    } else {
      var k :| k in want && k in m && m[k].snatIP == want[k].snatIP && BuildRuleSpec(m[k]) !in chain;
      assert BuildRuleSpec(want[k]) in SpecsOf(want, want.Keys);
    }
  }

  lemma PresentIffInChain(chain: set<RuleSpec>, m: SNATTable, p: set<string>, k: string)
    requires Tracked(chain, m, p) && k in m
    ensures BuildRuleSpec(m[k]) in chain <==> k in p
  {
    if BuildRuleSpec(m[k]) in chain {
      var k' :| k' in p && k' in m && BuildRuleSpec(m[k]) == BuildRuleSpec(m[k']);
      SpecInjective(m[k], m[k']);
    }
  }

  /** From agreement the chain ends up with exactly the desired rules. */
  lemma CleanFromAgreement(chain: set<RuleSpec>, m: SNATTable, want: SNATTable, chain': set<RuleSpec>, m': SNATTable,
    p': set<string>)
    requires Tracked(chain, m, m.Keys) && Tracked(chain', m', p') && SNATFiled(want)
    requires forall k :: KeyEffect(k, m, m.Keys, want, m', p', true)
    ensures m' == want && chain' == SpecsOf(want, want.Keys)
  {
    CleanReconcile(chain, m, m.Keys, want, chain', m', p');
  }

  // ----- Lost rules -----

  /** Runs of Reconcile one after the other; between them anything may happen to the outcomes of commands to come. */
  ghost predicate History(states: seq<State>, wants: seq<SNATTable>) {
    && |states| == |wants| + 1
    && forall n | 0 <= n < |wants| :: exists script :: Reconciled(states[n].(script := script), wants[n], states[n + 1])
  }

  /** The rule of key `k` is tracked, but not in the chain. */
  ghost predicate Lost(s: State, k: string, rule: SNATRule) {
    k in s.m && s.m[k] == rule && k !in s.p
  }

  /**
   However often it is tried, and whether commands fail or not, a lost rule stays lost while its snat_ip is desired.
   */
  lemma {:induction false} LostRuleStaysLost(states: seq<State>, wants: seq<SNATTable>, n: nat, k: string,
    rule: SNATRule)
    requires History(states, wants) && n < |states| && Lost(states[0], k, rule) && states[0].p <= states[0].m.Keys
    requires forall t | 0 <= t < n :: k in wants[t] && wants[t][k].snatIP == rule.snatIP
    ensures Lost(states[n], k, rule) && states[n].p <= states[n].m.Keys
  {
    if n > 0 {
      LostRuleStaysLost(states, wants, n - 1, k, rule);
      var script :| Reconciled(states[n - 1].(script := script), wants[n - 1], states[n]);
      ReconciledAt(states[n - 1].(script := script), wants[n - 1], states[n], k);
      PresentAreTracked(states[n - 1].(script := script), wants[n - 1], states[n]);
    }
  }

  lemma PresentAreTracked(s: State, want: SNATTable, s': State)
    requires Reconciled(s, want, s') && s.p <= s.m.Keys
    ensures s'.p <= s'.m.Keys
  {
    forall k | k in s'.p ensures k in s'.m {
      ReconciledAt(s, want, s', k);
    }
  }

  /** A lost rule is not in the chain. */
  lemma LostIsNotInChain(chain: set<RuleSpec>, s: State, k: string, rule: SNATRule)
    requires Tracked(chain, s.m, s.p) && Lost(s, k, rule)
    ensures BuildRuleSpec(rule) !in chain
  {
    PresentIffInChain(chain, s.m, s.p, k);
  }

  /** So at no time while its snat_ip is desired is it in the chain, although it is tracked. */
  lemma LostRuleIsNotInChain(states: seq<State>, wants: seq<SNATTable>, n: nat, k: string, rule: SNATRule,
    chain: set<RuleSpec>)
    requires History(states, wants) && n < |states| && Lost(states[0], k, rule) && states[0].p <= states[0].m.Keys
    requires forall t | 0 <= t < n :: k in wants[t] && wants[t][k].snatIP == rule.snatIP
    requires Tracked(chain, states[n].m, states[n].p)
    ensures k in states[n].m && states[n].m[k] == rule && BuildRuleSpec(rule) !in chain
  {
    LostRuleStaysLost(states, wants, n, k, rule);
    LostIsNotInChain(chain, states[n], k, rule);
  }

  lemma SingleRule(rule: SNATRule)
    ensures SNATTableOf([rule]) == map[rule.Key() := rule]
  {
    assert KeyedSNAT([rule]) == [(rule.Key(), rule)];
    assert TableUpTo(KeyedSNAT([rule]), 1) == TableUpTo(KeyedSNAT([rule]), 0)[rule.Key() := rule];
  }

  /** With one rule desired there is only one order to take it in. */
  lemma OnlyOrder(s: State, key: string, want: SNATTable, s': State)
    requires Reconciled(s, want, s') && want.Keys == {key} && s.m.Keys <= {key}
    ensures s' == Put(s, key, want[key])
  {
    var order1, order2 :|
      && Enumerates(order1, s.m.Keys - want.Keys) && Enumerates(order2, want.Keys)
      && s' == PutAll(RemoveAll(s, order1), want, order2);
    EnumeratesAll(order1, s.m.Keys - want.Keys);
    EnumeratesAll(order2, want.Keys);
    assert s.m.Keys - want.Keys == {};
    assert order2[0] in order2 && order2 == [key];
    assert PutAll(s, want, [key][..0]) == s;
  }

  /**
   How a rule gets lost: of two rules for one backend with different snat_ip, the first is desired, then the second,
   then the first again.  The only command that fails is the add of the update; the last run meets no failure, and
   still leaves the rule tracked and not in the chain.
   */
  lemma ThreeRunsLose(a: SNATRule, b: SNATRule, s0: State, s1: State, s2: State, s3: State)
    requires a.Key() == b.Key() && a.snatIP != b.snatIP && s0 == State(map[], {}, [true, true, false])
    requires Reconciled(s0, map[a.Key() := a], s1) && Reconciled(s1, map[a.Key() := b], s2)
    requires Reconciled(s2, map[a.Key() := a], s3)
    ensures s3 == State(map[a.Key() := a], {}, [])
  {
    var k := a.Key();
    OnlyOrder(s0, k, map[k := a], s1);
    assert s1 == State(map[k := a], {k}, [true, false]);
    OnlyOrder(s1, k, map[k := b], s2);
    assert s2 == State(map[k := a], {}, []);
    OnlyOrder(s2, k, map[k := a], s3);
  }

  method LoseRule(a: SNATRule, b: SNATRule) returns (manager: LinuxManager)
    requires a.Key() == b.Key() && a.snatIP != b.snatIP && '/' !in a.protocol && '/' !in b.protocol
    ensures fresh(manager) && manager.Valid() && manager.script == []
    ensures manager.managed == map[a.Key() := a] && manager.chain == {}
  {
    SingleRule(a);
    SingleRule(b);
    manager := new LinuxManager([true, true, false]);
    ghost var s0 := manager.Here();
    manager.Reconcile([a]);
    ghost var s1 := manager.Here();
    manager.Reconcile([b]);
    ghost var s2 := manager.Here();
    manager.Reconcile([a]);
    ThreeRunsLose(a, b, s0, s1, s2, manager.Here());
  }
}
