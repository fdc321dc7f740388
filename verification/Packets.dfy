/**
 What the iptables rules do to packets (pkg/snat/manager_linux.go), read off their argument lists as iptables reads
 them: options that a packet must meet, up to the target.
 */
module Packets {
  import opened Wrappers
  import opened Text
  import opened Snat
  import opened SnatLinux

  /** Addresses and protocols are told apart by their text. */
  datatype Packet = Packet(source: string, destination: string, protocol: string, dport: nat, established: bool)

  datatype Action = Accept | Masquerade | SourceNAT(address: string)

  /** What one option and its argument demand of a packet; options that are not used here match nothing. */
  predicate Meets(packet: Packet, option: string, argument: string) {
    if option == "-s" then packet.source == argument
    else if option == "-d" then packet.destination == argument
    else if option == "-p" then packet.protocol == argument
    else if option == "--dport" then packet.dport == Value(argument)
    else if option == "--ctstate" then argument == "ESTABLISHED,RELATED" && packet.established
    else option == "-m"
  }

  /** The packet meets every option in front of the target. */
  predicate Matched(args: RuleSpec, packet: Packet) {
    if |args| < 2 then args == []
    else args[0] == "-j" || (Meets(packet, args[0], args[1]) && Matched(args[2..], packet))
  }

  /** What the target says. */
  function ActionOf(args: RuleSpec): Option<Action> {
    if |args| < 2 then None
    else if args[0] != "-j" then ActionOf(args[2..])
    else if args == ["-j", "ACCEPT"] then Some(Accept)
    else if args == ["-j", "MASQUERADE"] then Some(Masquerade)
    else if |args| == 4 && args[1] == "SNAT" && args[2] == "--to-source" then Some(SourceNAT(args[3]))
    else None
  }

  /** A chain does this to the packet: one of its rules is matched and has this action. */
  ghost predicate Does(chain: set<RuleSpec>, packet: Packet, action: Action) {
    exists spec :: spec in chain && Matched(spec, packet) && ActionOf(spec) == Some(action)
  }

  lemma OneOption(option: string, argument: string, rest: RuleSpec, packet: Packet)
    requires option != "-j"
    ensures Matched([option, argument] + rest, packet) <==> Meets(packet, option, argument) && Matched(rest, packet)
    ensures ActionOf([option, argument] + rest) == ActionOf(rest)
  {
    var args := [option, argument] + rest;
    assert args[0] == option && args[1] == argument && args[2..] == rest;
  }

  /** A list of destination, protocol and port in front of a target. */
  lemma ThreeOptions(ip: string, protocol: string, port: nat, target: RuleSpec, packet: Packet)
    requires |target| >= 2 && target[0] == "-j"
    ensures var args := ["-d", ip, "-p", protocol, "--dport", Itoa(port)] + target;
      && (Matched(args, packet) <==>
            packet.destination == ip && packet.protocol == protocol && packet.dport == port)
      && ActionOf(args) == ActionOf(target)
  {
    var dport := ["--dport", Itoa(port)] + target;
    var proto := ["-p", protocol] + dport;
    OneOption("--dport", Itoa(port), target, packet);
    OneOption("-p", protocol, dport, packet);
    OneOption("-d", ip, proto, packet);
    ItoaIsDecimal(port);
    assert ["-d", ip] + proto == ["-d", ip, "-p", protocol, "--dport", Itoa(port)] + target;
  }

  /**
   A rule is for the packets to its backend, whatever their source, and gives them its snat_ip as source or, if it has
   none, masquerades them.
   */
  lemma RuleRewrites(rule: SNATRule, packet: Packet)
    ensures Matched(BuildRuleSpec(rule), packet) <==>
      packet.destination == rule.backendIP && packet.protocol == rule.protocol && packet.dport == rule.backendPort
    ensures ActionOf(BuildRuleSpec(rule)) ==
      Some(if rule.snatIP == "" then Masquerade else SourceNAT(rule.snatIP))
  {
    var target := if rule.snatIP != "" then ["-j", "SNAT", "--to-source", rule.snatIP] else ["-j", "MASQUERADE"];
    ThreeOptions(rule.backendIP, rule.protocol, rule.backendPort, target, packet);
    assert ActionOf(target) == Some(if rule.snatIP == "" then Masquerade else SourceNAT(rule.snatIP));
  }

  lemma ForwardRuleAccepts(rule: ForwardRule, packet: Packet)
    ensures Matched(BuildForwardRuleSpec(rule), packet) <==>
      packet.destination == rule.backendIP && packet.protocol == rule.protocol && packet.dport == rule.backendPort
    ensures ActionOf(BuildForwardRuleSpec(rule)) == Some(Accept)
  {
    ThreeOptions(rule.backendIP, rule.protocol, rule.backendPort, ["-j", "ACCEPT"], packet);
    assert ["-d", rule.backendIP, "-p", rule.protocol, "--dport", Itoa(rule.backendPort)] + ["-j", "ACCEPT"]
        == BuildForwardRuleSpec(rule);
  }

  lemma ConntrackAccepts(packet: Packet)
    ensures Matched(CONNTRACK_RULE, packet) <==> packet.established
    ensures ActionOf(CONNTRACK_RULE) == Some(Accept)
  {
    var target := ["-j", "ACCEPT"];
    var state := ["--ctstate", "ESTABLISHED,RELATED"] + target;
    OneOption("--ctstate", "ESTABLISHED,RELATED", target, packet);
    OneOption("-m", "conntrack", state, packet);
    assert ["-m", "conntrack"] + state == CONNTRACK_RULE;
  }

  /** A rule in place is for this packet and says this. */
  ghost predicate RuleSays(m: SNATTable, present: set<string>, k: string, packet: Packet, action: Action) {
    && k in present && k in m && m[k].backendIP == packet.destination && m[k].protocol == packet.protocol
    && m[k].backendPort == packet.dport
    && action == if m[k].snatIP == "" then Masquerade else SourceNAT(m[k].snatIP)
  }

  /** At most one action per packet: two rules of the chain that match the same packet are one rule. */
  lemma OneActionPerPacket(chain: set<RuleSpec>, m: SNATTable, present: set<string>, packet: Packet, a: RuleSpec,
    b: RuleSpec)
    requires Tracked(chain, m, present) && a in chain && b in chain && Matched(a, packet) && Matched(b, packet)
    ensures a == b
  {
    var k1 :| k1 in present && k1 in m && a == BuildRuleSpec(m[k1]);
    var k2 :| k2 in present && k2 in m && b == BuildRuleSpec(m[k2]);
    RuleRewrites(m[k1], packet);
    RuleRewrites(m[k2], packet);
    assert m[k1].Key() == m[k2].Key();
  }

  /**
   The SNAT chain does something to a packet exactly if a rule in place has its destination, protocol and port: it
   gets the rule's snat_ip as its source, or is masqueraded if the rule has none.
   */
  lemma RewrittenIffInPlace(chain: set<RuleSpec>, m: SNATTable, present: set<string>, packet: Packet, action: Action)
    requires Tracked(chain, m, present)
    ensures Does(chain, packet, action) <==> exists k :: RuleSays(m, present, k, packet, action)
  {
    if Does(chain, packet, action) {
      var spec :| spec in chain && Matched(spec, packet) && ActionOf(spec) == Some(action);
      var k :| k in present && k in m && spec == BuildRuleSpec(m[k]);
      RuleRewrites(m[k], packet);
      assert RuleSays(m, present, k, packet, action);
    }
    if k :| RuleSays(m, present, k, packet, action) {
      RuleRewrites(m[k], packet);
      assert BuildRuleSpec(m[k]) in chain;
    }
  }

  /**
   After a failure-free Reconcile that lost nothing earlier, a packet is rewritten exactly as the desired rule for its
   destination, protocol and port says, and left alone if there is none.
   */
  lemma RewrittenAsDesired(chain: set<RuleSpec>, want: SNATTable, packet: Packet, action: Action)
    requires SNATFiled(want) && '/' !in packet.protocol && chain == SpecsOf(want, want.Keys)
    ensures var k := HostPortProto(packet.destination, packet.dport, packet.protocol);
      Does(chain, packet, action) <==>
        k in want && action == if want[k].snatIP == "" then Masquerade else SourceNAT(want[k].snatIP)
  {
    RewrittenIffInPlace(chain, want, want.Keys, packet, action);
    var k := HostPortProto(packet.destination, packet.dport, packet.protocol);
    if k in want {
      HostPortProtoInjective(packet.destination, packet.dport, packet.protocol, want[k].backendIP,
        want[k].backendPort, want[k].protocol);
      assert Does(chain, packet, action) ==> exists k' :: RuleSays(want, want.Keys, k', packet, action) && k' == k;
      assert action == (if want[k].snatIP == "" then Masquerade else SourceNAT(want[k].snatIP)) ==>
        RuleSays(want, want.Keys, k, packet, action);
    }
  }

  /** What a lost rule means: its packets pass the chain as they are, although the manager tracks the rule. */
  lemma LostRuleDoesNothing(chain: set<RuleSpec>, s: State, k: string, rule: SNATRule, packet: Packet, action: Action)
    requires Tracked(chain, s.m, s.p) && Lost(s, k, rule)
    requires packet.destination == rule.backendIP && packet.protocol == rule.protocol
    requires packet.dport == rule.backendPort
    ensures !Does(chain, packet, action)
  {
    RewrittenIffInPlace(chain, s.m, s.p, packet, action);
    forall k' | k' in s.p && k' in s.m ensures s.m[k'].Key() != rule.Key() {
    }
  }

  /** A tracked FORWARD rule is for this packet. */
  ghost predicate ForwardSays(m: ForwardTable, k: string, packet: Packet) {
    && k in m && m[k].backendIP == packet.destination && m[k].protocol == packet.protocol
    && m[k].backendPort == packet.dport
  }

  /**
   The FORWARD chain accepts a packet exactly if it belongs to an established connection or a tracked rule has its
   destination, protocol and port, and it does nothing else.
   */
  lemma AcceptedIffTracked(manager: LinuxManager, packet: Packet, action: Action)
    requires manager.Valid()
    ensures Does(manager.forwardChain, packet, action) <==>
      action == Accept && (packet.established || exists k :: ForwardSays(manager.managedForward, k, packet))
  {
    ForwardChainSays(manager.forwardChain, manager.managedForward, packet, action);
  }

  lemma ForwardChainSays(chain: set<RuleSpec>, m: ForwardTable, packet: Packet, action: Action)
    requires chain == {CONNTRACK_RULE} + ForwardSpecsOf(m)
    ensures Does(chain, packet, action) <==>
      action == Accept && (packet.established || exists k :: ForwardSays(m, k, packet))
  {
    ConntrackAccepts(packet);
    if Does(chain, packet, action) {
      var spec :| spec in chain && Matched(spec, packet) && ActionOf(spec) == Some(action);
      if spec != CONNTRACK_RULE {
        var k :| k in m && spec == BuildForwardRuleSpec(m[k]);
        ForwardRuleAccepts(m[k], packet);
        assert ForwardSays(m, k, packet);
      }
    }
    if packet.established {
      assert CONNTRACK_RULE in chain;
    }
    if k :| ForwardSays(m, k, packet) {
      ForwardRuleAccepts(m[k], packet);
      assert BuildForwardRuleSpec(m[k]) in chain;
    }
  }
}
