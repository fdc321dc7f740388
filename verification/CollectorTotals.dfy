/** What the exported totals of the collector mean, for a service or backend that is configured at every poll. */
module CollectorTotals {
  import opened Wrappers
  import opened Config
  import opened PollHistory
  import opened Traffic
  import opened Counters
  import opened PollCharges

  /** One field of what the polls saw. */
  ghost function Field<S>(seen: seq<Option<S>>, f: S -> nat): (r: seq<Option<nat>>)
    ensures |r| == |seen|
    ensures forall i | 0 <= i < |seen| :: r[i] == if seen[i].Some? then Some(f(seen[i].value)) else None
  {
    seq(|seen|, i requires 0 <= i < |seen| => if seen[i].Some? then Some(f(seen[i].value)) else None)
  }

  lemma {:induction false} LatestField<S>(seen: seq<Option<S>>, f: S -> nat)
    ensures Latest(Field(seen, f)) == match Latest(seen) case Some((s, age)) => Some((f(s), age)) case None => None
  {
    if seen != [] {
      var before := seen[..|seen| - 1];
      LatestField(before, f);
      assert Field(seen, f)[..|seen| - 1] == Field(before, f);
    }
  }

  /** The value a charge is compared with is the one the history says. */
  lemma ComparedField<S>(snaps: seq<map<string, S>>, key: string, none: S, f: S -> nat)
    requires f(none) == 0
    ensures f(Lookup(After(snaps).prev, key, none)) == Compared(Field(Seen(snaps, key), f))
  {
    HistoryRefinement(snaps, key);
    LatestField(Seen(snaps, key), f);
  }

  /** `g` reads the counter that the field `f` of the statistics is charged to. */
  ghost predicate Reads<S(!new)>(kind: Kind<S>, f: S -> nat, g: Totals -> nat) {
    && f(kind.none) == 0 && Additive(g)
    && (forall p: S, c: S :: g(kind.change(p, c)) == DeltaUint64(f(c), f(p)))
  }

  /** At this poll `key`, and nothing else, is charged to the series. */
  ghost predicate OwnsSeries<S>(charges: Charges, seen: map<string, S>, key: string, series: Label) {
    && (key in seen ==> Hits(charges, key, series))
    && (key !in seen ==> forall k :: !Hits(charges, k, series))
  }

  ghost predicate Additive(g: Totals -> nat) {
    g(NOTHING) == 0 && forall a: Totals, b: Totals :: g(a.Plus(b)) == g(a) + g(b)
  }

  /** Poll `t` charges what a counter with this history makes it charge. */
  ghost predicate ChargedAt(log: seq<Charges>, series: Label, g: Totals -> nat, seen: seq<Option<nat>>, t: nat)
    requires |log| == |seen| && t < |log|
  {
    g(ChargeTo(log[t], series)) == match seen[t] case Some(v) => DeltaUint64(v, Compared(seen[..t])) case None => 0
  }

  lemma {:induction false} SumOfCharges(log: seq<Charges>, series: Label, g: Totals -> nat, seen: seq<Option<nat>>)
    requires |log| == |seen| && Additive(g)
    requires forall t | 0 <= t < |log| :: ChargedAt(log, series, g, seen, t)
    ensures g(TotalCharged(log, series)) == Total(seen)
  {
    if log != [] {
      var n := |log| - 1;
      forall t | 0 <= t < n ensures ChargedAt(log[..n], series, g, seen[..n], t) {
        assert ChargedAt(log, series, g, seen, t) && seen[..n][..t] == seen[..t];
      }
      SumOfCharges(log[..n], series, g, seen[..n]);
      assert ChargedAt(log, series, g, seen, n);
    }
  }

  lemma KeyCharged<S(!new)>(kind: Kind<S>, configs: seq<seq<ServiceConfig>>, snaps: seq<map<string, S>>,
    log: seq<Charges>,
    key: string, series: Label, f: S -> nat, g: Totals -> nat, t: nat)
    requires |configs| == |snaps| == |log| && t < |log| && Reads(kind, f, g)
    requires Distinct(log[t]) && LogAt(kind, configs, snaps, log, t) && OwnsSeries(log[t], snaps[t], key, series)
    ensures ChargedAt(log, series, g, Field(Seen(snaps, key), f), t)
  {
    assert Field(Seen(snaps, key), f)[..t] == Field(Seen(snaps[..t], key), f);
    if key in snaps[t] {
      OneCharge(log[t], key, series);
      assert ChargeIs(kind, log[t], ConfigMap(configs[t]), After(snaps[..t]).prev, snaps[t], key);
      ComparedField(snaps[..t], key, kind.none, f);
    }
  }

  lemma KeyTotal<S(!new)>(kind: Kind<S>, configs: seq<seq<ServiceConfig>>, snaps: seq<map<string, S>>,
    log: seq<Charges>,
    key: string, series: Label, f: S -> nat, g: Totals -> nat)
    requires |configs| == |snaps| == |log| && AllDistinct(log) && Reads(kind, f, g)
    requires forall t | 0 <= t < |log| ::
      LogAt(kind, configs, snaps, log, t) && OwnsSeries(log[t], snaps[t], key, series)
    ensures g(TotalCharged(log, series)) == Total(Field(Seen(snaps, key), f))
  {
    forall t | 0 <= t < |log| ensures ChargedAt(log, series, g, Field(Seen(snaps, key), f), t) {
      KeyCharged(kind, configs, snaps, log, key, series, f, g, t);
    }
    SumOfCharges(log, series, g, Field(Seen(snaps, key), f));
  }

  /** The service is configured at this poll, under these labels. */
  ghost predicate ServiceAt(cfgs: seq<ServiceConfig>, key: string, series: Label) {
    && key in ConfigMap(cfgs)
    && var cfg := ConfigMap(cfgs)[key]; Label(cfg.name, cfg.listen, cfg.protocol) == series
  }

  lemma ServiceOwns(cfgs: seq<ServiceConfig>, charges: Charges, prev: map<string, ServiceStats>,
    seen: map<string, ServiceStats>, key: string, series: Label)
    requires ChargesAre(SERVICES, charges, ConfigMap(cfgs), prev, seen)
    ensures Distinct(charges)
    ensures ServiceAt(cfgs, key, series) ==> OwnsSeries(charges, seen, key, series)
  {
  }

  lemma ServiceFieldTotal(prev: map<string, ServiceStats>, absent: map<string, nat>, totals: Counters,
    configs: seq<seq<ServiceConfig>>, snaps: seq<map<string, ServiceStats>>, log: seq<Charges>, key: string,
    series: Label, f: ServiceStats -> nat, g: Totals -> nat)
    requires Follows(SERVICES, prev, absent, totals, configs, snaps, log) && Reads(SERVICES, f, g)
    requires forall t | 0 <= t < |configs| :: ServiceAt(configs[t], key, series)
    ensures g(CounterAt(totals, series)) == Total(Field(Seen(snaps, key), f))
  {
    forall t | 0 <= t < |log| ensures Distinct(log[t]) && OwnsSeries(log[t], snaps[t], key, series) {
      assert LogAt(SERVICES, configs, snaps, log, t);
      ServiceOwns(configs[t], log[t], After(snaps[..t]).prev, snaps[t], key, series);
    }
    KeyTotal(SERVICES, configs, snaps, log, key, series, f, g);
    assert SumAt(totals, log, series);
  }

  /** Every exported total of a service is the total of its statistics over the polls, field by field. */
  lemma ServiceTotals(prev: map<string, ServiceStats>, absent: map<string, nat>, totals: Counters,
    configs: seq<seq<ServiceConfig>>, snaps: seq<map<string, ServiceStats>>, log: seq<Charges>, key: string,
    series: Label)
    requires Follows(SERVICES, prev, absent, totals, configs, snaps, log)
    requires forall t | 0 <= t < |configs| :: ServiceAt(configs[t], key, series)
    ensures var exported, seen := CounterAt(totals, series), Seen(snaps, key);
      && exported.connections == Total(Field(seen, (s: ServiceStats) => s.connections))
      && exported.inBytes == Total(Field(seen, (s: ServiceStats) => s.inBytes))
      && exported.outBytes == Total(Field(seen, (s: ServiceStats) => s.outBytes))
      && exported.inPkts == Total(Field(seen, (s: ServiceStats) => s.inPkts))
      && exported.outPkts == Total(Field(seen, (s: ServiceStats) => s.outPkts))
  {
    ServiceFieldTotal(prev, absent, totals, configs, snaps, log, key, series, (s: ServiceStats) => s.connections,
      (t: Totals) => t.connections);
    ServiceFieldTotal(prev, absent, totals, configs, snaps, log, key, series, (s: ServiceStats) => s.inBytes,
      (t: Totals) => t.inBytes);
    ServiceFieldTotal(prev, absent, totals, configs, snaps, log, key, series, (s: ServiceStats) => s.outBytes,
      (t: Totals) => t.outBytes);
    ServiceFieldTotal(prev, absent, totals, configs, snaps, log, key, series, (s: ServiceStats) => s.inPkts,
      (t: Totals) => t.inPkts);
    ServiceFieldTotal(prev, absent, totals, configs, snaps, log, key, series, (s: ServiceStats) => s.outPkts,
      (t: Totals) => t.outPkts);
  }

  /** The service of the backend is configured at this poll, so that the backend has these labels. */
  ghost predicate BackendAt(cfgs: seq<ServiceConfig>, svcKey: string, dst: string, series: Label) {
    && UniqueNames(cfgs) && svcKey in ConfigMap(cfgs)
    && var cfg := ConfigMap(cfgs)[svcKey]; Label(cfg.name, dst, cfg.protocol) == series
  }

  lemma BackendOwns(cfgs: seq<ServiceConfig>, charges: Charges, prev: map<string, BackendStats>,
    seen: map<string, BackendStats>, svcKey: string, dst: string, series: Label)
    requires ChargesAre(BACKENDS, charges, ConfigMap(cfgs), prev, seen) && WellFormedBackends(seen)
    requires BackendAt(cfgs, svcKey, dst, series) && !HasArrow(svcKey) && !HasArrow(dst)
    ensures Distinct(charges) && OwnsSeries(charges, seen, BackendKeyText(svcKey, dst), series)
  {
    var m, key := ConfigMap(cfgs), BackendKeyText(svcKey, dst);
    forall k | k in charges ensures seen[k].serviceKey in m && charges[k].0 == BackendLabel(m[seen[k].serviceKey], k) {
      assert ChargeIs(BACKENDS, charges, m, prev, seen, k);
    }
    forall a, b | a in charges && b in charges && charges[a].0 == charges[b].0 ensures a == b {
      BackendLabelsDiffer(cfgs, seen, a, b);
    }
    if key in seen {
      KeyNamesService(seen, svcKey, dst);
      assert ChargeIs(BACKENDS, charges, m, prev, seen, key);
      ExtractUndoesJoin(svcKey, dst);
    }
    forall k | Hits(charges, k, series) ensures k == key {
      LabelNamesKey(cfgs, seen, svcKey, dst, series, k);
    }
  }

  lemma KeyNamesService(seen: map<string, BackendStats>, svcKey: string, dst: string)
    requires WellFormedBackends(seen) && BackendKeyText(svcKey, dst) in seen && !HasArrow(svcKey) && !HasArrow(dst)
    ensures seen[BackendKeyText(svcKey, dst)].serviceKey == svcKey
  {
    var key := BackendKeyText(svcKey, dst);
    var svcKey' := seen[key].serviceKey;
    assert WellFormedAt(seen, key);
    var dst' :| key == BackendKeyText(svcKey', dst') && !HasArrow(dst');
    ExtractUndoesJoin(svcKey, dst);
    ExtractUndoesJoin(svcKey', dst');
    assert |svcKey| == |svcKey'|;
    assert svcKey == key[..|svcKey|] == svcKey';
  }

  lemma LabelNamesKey(cfgs: seq<ServiceConfig>, seen: map<string, BackendStats>, svcKey: string, dst: string,
    series: Label, k: string)
    requires WellFormedBackends(seen) && BackendAt(cfgs, svcKey, dst, series) && k in seen
    requires seen[k].serviceKey in ConfigMap(cfgs) && BackendLabel(ConfigMap(cfgs)[seen[k].serviceKey], k) == series
    ensures k == BackendKeyText(svcKey, dst)
  {
    var m, svcKey' := ConfigMap(cfgs), seen[k].serviceKey;
    assert WellFormedAt(seen, k);
    var dst' :| k == BackendKeyText(svcKey', dst') && !HasArrow(dst');
    ExtractUndoesJoin(svcKey', dst');
    assert m[svcKey] == m[svcKey'] by {
      var i :| 0 <= i < |cfgs| && cfgs[i] == m[svcKey];
      var j :| 0 <= j < |cfgs| && cfgs[j] == m[svcKey'];
      assert i == j;
    }
  }

  lemma BackendFieldTotal(prev: map<string, BackendStats>, absent: map<string, nat>, totals: Counters,
    configs: seq<seq<ServiceConfig>>, snaps: seq<map<string, BackendStats>>, log: seq<Charges>, svcKey: string,
    dst: string, series: Label, f: BackendStats -> nat, g: Totals -> nat)
    requires Follows(BACKENDS, prev, absent, totals, configs, snaps, log) && Reads(BACKENDS, f, g)
    requires forall t | 0 <= t < |configs| :: BackendAt(configs[t], svcKey, dst, series) && WellFormedBackends(snaps[t])
    requires !HasArrow(svcKey) && !HasArrow(dst)
    ensures g(CounterAt(totals, series)) == Total(Field(Seen(snaps, BackendKeyText(svcKey, dst)), f))
  {
    var key := BackendKeyText(svcKey, dst);
    forall t | 0 <= t < |log| ensures Distinct(log[t]) && OwnsSeries(log[t], snaps[t], key, series) {
      assert LogAt(BACKENDS, configs, snaps, log, t);
      BackendOwns(configs[t], log[t], After(snaps[..t]).prev, snaps[t], svcKey, dst, series);
    }
    KeyTotal(BACKENDS, configs, snaps, log, key, series, f, g);
    assert SumAt(totals, log, series);
  }

  /** The same for a backend, under configurations with unique names and statistics keys as the adapter builds them. */
  lemma BackendTotals(prev: map<string, BackendStats>, absent: map<string, nat>, totals: Counters,
    configs: seq<seq<ServiceConfig>>, snaps: seq<map<string, BackendStats>>, log: seq<Charges>, svcKey: string,
    dst: string, series: Label)
    requires Follows(BACKENDS, prev, absent, totals, configs, snaps, log)
    requires forall t | 0 <= t < |configs| :: BackendAt(configs[t], svcKey, dst, series) && WellFormedBackends(snaps[t])
    requires !HasArrow(svcKey) && !HasArrow(dst)
    ensures var exported, seen := CounterAt(totals, series), Seen(snaps, BackendKeyText(svcKey, dst));
      && exported.connections == Total(Field(seen, (s: BackendStats) => s.connections))
      && exported.inBytes == Total(Field(seen, (s: BackendStats) => s.inBytes))
      && exported.outBytes == Total(Field(seen, (s: BackendStats) => s.outBytes))
  {
    BackendFieldTotal(prev, absent, totals, configs, snaps, log, svcKey, dst, series,
      (s: BackendStats) => s.connections, (t: Totals) => t.connections);
    BackendFieldTotal(prev, absent, totals, configs, snaps, log, svcKey, dst, series, (s: BackendStats) => s.inBytes,
      (t: Totals) => t.inBytes);
    BackendFieldTotal(prev, absent, totals, configs, snaps, log, svcKey, dst, series, (s: BackendStats) => s.outBytes,
      (t: Totals) => t.outBytes);
  }
}
