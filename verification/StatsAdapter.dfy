/** Reading the statistics of the kernel's table (pkg/trafficlog/lvs_stats_adapter.go). */
module StatsAdapter {
  import opened Wrappers
  import opened Text
  import opened LvsTypes
  import opened LastWins
  import opened Traffic

  datatype ListedService = ListedService(svc: Service, stats: ServiceStats)

  /** The counts are as the kernel interface has them, which may be negative. */
  datatype ListedDestination = ListedDestination(
    dst: Destination, connections: nat, active: int, inactive: int,
    inPkts: nat, outPkts: nat, inBytes: nat, outBytes: nat)

  /** What the handle lists for the service at each position, if it can be read. */
  type Listings = nat -> Option<seq<ListedDestination>>

  function ConnectionCount(n: int): (c: nat)
    ensures c == if n < 0 then 0 else n
  {
    if n < 0 then 0 else n
  }

  function ServiceText(svc: Service): string {
    ServiceKeyText(KeyOfService(svc))
  }

  function ServiceEntries(listed: seq<ListedService>): (entries: seq<(string, ServiceStats)>)
    ensures |entries| == |listed|
    ensures forall i | 0 <= i < |listed| :: entries[i] == (ServiceText(listed[i].svc), listed[i].stats)
  {
    seq(|listed|, i requires 0 <= i < |listed| => (ServiceText(listed[i].svc), listed[i].stats))
  }

  function BackendEntry(svc: Service, d: ListedDestination): (string, BackendStats) {
    var active, inactive := ConnectionCount(d.active), ConnectionCount(d.inactive);
    (BackendKeyText(ServiceText(svc), DestinationKeyText(KeyOfDestination(d.dst))),
     BackendStats(ServiceText(svc), d.connections, active, inactive, active + inactive, d.inPkts, d.outPkts, d.inBytes,
       d.outBytes))
  }

  function BackendEntries(svc: Service, dsts: seq<ListedDestination>): (entries: seq<(string, BackendStats)>)
    ensures |entries| == |dsts| && forall j | 0 <= j < |dsts| :: entries[j] == BackendEntry(svc, dsts[j])
  {
    seq(|dsts|, j requires 0 <= j < |dsts| => BackendEntry(svc, dsts[j]))
  }

  /** The entries for the first `n` services, unless the destinations of one of them cannot be read. */
  function EntriesUpTo(listed: seq<ListedService>, listings: Listings, n: nat): Option<seq<(string, BackendStats)>>
    requires n <= |listed|
  {
    if n == 0 then Some([]) else
      match (EntriesUpTo(listed, listings, n - 1), listings(n - 1))
      case (Some(before), Some(dsts)) => Some(before + BackendEntries(listed[n - 1].svc, dsts))
      case _ => None
  }

  lemma {:induction false} ReadFailsEarly(listed: seq<ListedService>, listings: Listings, n: nat, m: nat)
    requires n <= m <= |listed| && EntriesUpTo(listed, listings, n).None?
    ensures EntriesUpTo(listed, listings, m).None?
  {
    if n < m {
      ReadFailsEarly(listed, listings, n, m - 1);
    }
  }

  method ReadServiceStats(listed: Option<seq<ListedService>>) returns (r: Option<map<string, ServiceStats>>)
    ensures r == match listed case None => None case Some(services) => Some(Table(ServiceEntries(services)))
  {
    if listed.None? {
      return None;
    }
    var services := listed.value;
    ghost var entries := ServiceEntries(services);
    var result: map<string, ServiceStats> := map[];
    for i := 0 to |services|
      invariant result == TableUpTo(entries, i)
    {
      var key := ServiceText(services[i].svc);
      assert entries[i] == (key, services[i].stats);
      result := result[key := services[i].stats];
    }
    r := Some(result);
  }

  method ReadBackendStats(listed: Option<seq<ListedService>>, listings: Listings)
    returns (r: Option<map<string, BackendStats>>)
    ensures r.None? <==> listed.None? || EntriesUpTo(listed.value, listings, |listed.value|).None?
    ensures r.Some? ==> r.value == Table(EntriesUpTo(listed.value, listings, |listed.value|).value)
  {
    if listed.None? {
      return None;
    }
    var services := listed.value;
    var result: map<string, BackendStats> := map[];
    for i := 0 to |services|
      invariant EntriesUpTo(services, listings, i).Some?
      invariant result == Table(EntriesUpTo(services, listings, i).value)
    {
      var dests := listings(i);
      if dests.None? {
        ReadFailsEarly(services, listings, i + 1, |services|);
        return None;
      }
      ghost var before := result;
      ghost var entries := BackendEntries(services[i].svc, dests.value);
      for j := 0 to |dests.value|
        invariant result == before + TableUpTo(entries, j)
      {
        var (key, stats) := BackendEntry(services[i].svc, dests.value[j]);
        result := result[key := stats];
      }
      TableConcat(EntriesUpTo(services, listings, i).value, entries);
    }
    r := Some(result);
  }

  // ----- Every backend is found under its own key -----

  ghost predicate Listed(listed: seq<ListedService>, listings: Listings, i: nat, j: nat) {
    i < |listed| && listings(i).Some? && j < |listings(i).value|
  }

  ghost function EntryAt(listed: seq<ListedService>, listings: Listings, i: nat, j: nat): (string, BackendStats)
    requires Listed(listed, listings, i, j)
  {
    BackendEntry(listed[i].svc, listings(i).value[j])
  }

  /**
   The kernel lists each service and each of its destinations once, for TCP and UDP, and prints addresses without
   arrows.
   */
  ghost predicate KernelListing(listed: seq<ListedService>, listings: Listings) {
    && (forall i | 0 <= i < |listed| ::
          '>' !in listed[i].svc.address.text && listed[i].svc.protocol in {IPPROTO_TCP, IPPROTO_UDP})
    && (forall i: nat, j: nat | Listed(listed, listings, i, j) :: '>' !in listings(i).value[j].dst.address.text)
    && (forall i, i' | 0 <= i < i' < |listed| :: KeyOfService(listed[i].svc) != KeyOfService(listed[i'].svc))
    && (forall i: nat, j: nat, j': nat | Listed(listed, listings, i, j) && Listed(listed, listings, i, j') && j < j' ::
          KeyOfDestination(listings(i).value[j].dst) != KeyOfDestination(listings(i).value[j'].dst))
  }

  lemma {:induction false} EntriesMeaning(listed: seq<ListedService>, listings: Listings, n: nat)
    requires n <= |listed| && EntriesUpTo(listed, listings, n).Some?
    ensures forall i: nat, j: nat | i < n && Listed(listed, listings, i, j) ::
      EntryAt(listed, listings, i, j) in EntriesUpTo(listed, listings, n).value
    ensures forall e | e in EntriesUpTo(listed, listings, n).value ::
      exists i: nat, j: nat :: i < n && Listed(listed, listings, i, j) && e == EntryAt(listed, listings, i, j)
  {
    if n > 0 {
      EntriesMeaning(listed, listings, n - 1);
      var before := EntriesUpTo(listed, listings, n - 1).value;
      var last := BackendEntries(listed[n - 1].svc, listings(n - 1).value);
      forall e | e in before + last
        ensures exists i: nat, j: nat :: i < n && Listed(listed, listings, i, j) && e == EntryAt(listed, listings, i, j)
      {
        if e in last {
          var j :| 0 <= j < |last| && last[j] == e;
          assert Listed(listed, listings, n - 1, j) && e == EntryAt(listed, listings, n - 1, j);
        }
      }
      forall i: nat, j: nat | i < n && Listed(listed, listings, i, j)
        ensures EntryAt(listed, listings, i, j) in before + last
      {
        if i == n - 1 {
          assert last[j] == EntryAt(listed, listings, i, j);
        }
      }
    }
  }

  lemma {:induction false} KeyNamesPosition(listed: seq<ListedService>, listings: Listings, i: nat, j: nat, i': nat,
    j': nat)
    requires KernelListing(listed, listings) && Listed(listed, listings, i, j) && Listed(listed, listings, i', j')
    requires EntryAt(listed, listings, i, j).0 == EntryAt(listed, listings, i', j').0
    ensures i == i' && j == j'
  {
    AdapterKeys(KeyOfService(listed[i].svc), KeyOfDestination(listings(i).value[j].dst),
      KeyOfService(listed[i'].svc), KeyOfDestination(listings(i').value[j'].dst));
  }

  /**
   Statistics read from a kernel listing have exactly one entry for each destination of each service, with the counts
   listed for it, under keys from which its address and its service can be read back.
   */
  lemma {:induction false} BackendsApart(listed: seq<ListedService>, listings: Listings, i: nat, j: nat)
    requires KernelListing(listed, listings) && EntriesUpTo(listed, listings, |listed|).Some?
    requires Listed(listed, listings, i, j)
    ensures
      var stats := Table(EntriesUpTo(listed, listings, |listed|).value);
      var d, svcKey := listings(i).value[j], ServiceText(listed[i].svc);
      var key := svcKey + "->" + d.dst.address.text + ":" + Itoa(d.dst.port);
      && key in stats && stats[key].serviceKey == svcKey
      && stats[key].connections == d.connections
      && stats[key].activeConnections == (if d.active < 0 then 0 else d.active)
      && stats[key].inactiveConnections == (if d.inactive < 0 then 0 else d.inactive)
      && stats[key].currentConnections == stats[key].activeConnections + stats[key].inactiveConnections
      && stats[key].inPkts == d.inPkts && stats[key].outPkts == d.outPkts
      && stats[key].inBytes == d.inBytes && stats[key].outBytes == d.outBytes
      && ExtractBackendAddress(key) == d.dst.address.text + ":" + Itoa(d.dst.port)
  {
    var entries := EntriesUpTo(listed, listings, |listed|).value;
    var e := EntryAt(listed, listings, i, j);
    EntriesMeaning(listed, listings, |listed|);
    TableMeaning(entries, |entries|);
    var t :| 0 <= t < |entries| && entries[t] == e;
    var t' :| 0 <= t' < |entries| && entries[t'].0 == e.0 && IsLast(entries, |entries|, t');
    assert entries[t'] in entries;
    var i': nat, j': nat :| Listed(listed, listings, i', j') && entries[t'] == EntryAt(listed, listings, i', j');
    KeyNamesPosition(listed, listings, i, j, i', j');
    AdapterKeys(KeyOfService(listed[i].svc), KeyOfDestination(listings(i).value[j].dst),
      KeyOfService(listed[i].svc), KeyOfDestination(listings(i).value[j].dst));
    EntrySpelledOut(listed[i].svc, listings(i).value[j]);
  }

  lemma EntrySpelledOut(svc: Service, d: ListedDestination)
    ensures BackendEntry(svc, d).0 == ServiceText(svc) + "->" + d.dst.address.text + ":" + Itoa(d.dst.port)
  {
    var key := d.dst.address.text + ":" + Itoa(d.dst.port);
    assert ServiceText(svc) + "->" + key == ServiceText(svc) + "->" + d.dst.address.text + ":" + Itoa(d.dst.port);
  }

  /** Each service the kernel lists has its own statistics, under "address:port/protocol". */
  lemma {:induction false} ServicesApart(listed: seq<ListedService>, listings: Listings, i: nat)
    requires KernelListing(listed, listings) && i < |listed|
    ensures
      var stats, svc := Table(ServiceEntries(listed)), listed[i].svc;
      var key := svc.address.text + ":" + Itoa(svc.port) + "/" + (if svc.protocol == 6 then "tcp" else "udp");
      key in stats && stats[key] == listed[i].stats
  {
    ServiceFound(listed, listings, i);
  }

  lemma ServiceFound(listed: seq<ListedService>, listings: Listings, i: nat)
    requires KernelListing(listed, listings) && i < |listed|
    ensures var stats, key := Table(ServiceEntries(listed)), ServiceText(listed[i].svc);
      key in stats && stats[key] == listed[i].stats
  {
    var entries := ServiceEntries(listed);
    TableMeaning(entries, |entries|);
    forall i' | i < i' < |entries| ensures entries[i'].0 != entries[i].0 {
      TextsDiffer(listed[i].svc, listed[i'].svc);
    }
    assert IsLast(entries, |entries|, i);
  }

  lemma TextsDiffer(a: Service, b: Service)
    requires a.protocol in {IPPROTO_TCP, IPPROTO_UDP} && b.protocol in {IPPROTO_TCP, IPPROTO_UDP}
    requires KeyOfService(a) != KeyOfService(b)
    ensures ServiceText(a) != ServiceText(b)
  {
    if ServiceText(a) == ServiceText(b) {
      HostPortProtoInjective(a.address.text, a.port, ProtocolToString(a.protocol), b.address.text, b.port,
        ProtocolToString(b.protocol));
    }
  }

  ghost predicate ListedKey(listed: seq<ListedService>, listings: Listings, key: string) {
    exists i: nat, j: nat :: Listed(listed, listings, i, j) && key == EntryAt(listed, listings, i, j).0
  }

  lemma {:induction false} EntryIsWellFormed(listed: seq<ListedService>, listings: Listings, i: nat, j: nat,
    stats: map<string, BackendStats>, key: string)
    requires KernelListing(listed, listings) && Listed(listed, listings, i, j)
    requires key in stats && EntryAt(listed, listings, i, j) == (key, stats[key])
    ensures WellFormedAt(stats, key)
  {
    var dst := DestinationKeyText(KeyOfDestination(listings(i).value[j].dst));
    PlainTextHasNoArrow(ServiceText(listed[i].svc));
    PlainTextHasNoArrow(dst);
    assert key == BackendKeyText(stats[key].serviceKey, dst);
  }

  /** And there are no others: the statistics are as the collector needs them. */
  lemma {:induction false} AdapterIsWellFormed(listed: seq<ListedService>, listings: Listings)
    requires KernelListing(listed, listings) && EntriesUpTo(listed, listings, |listed|).Some?
    ensures var stats := Table(EntriesUpTo(listed, listings, |listed|).value);
      WellFormedBackends(stats) && forall key | key in stats :: ListedKey(listed, listings, key)
  {
    var entries := EntriesUpTo(listed, listings, |listed|).value;
    EntriesMeaning(listed, listings, |listed|);
    TableMeaning(entries, |entries|);
    var stats := Table(entries);
    forall key | key in stats ensures WellFormedAt(stats, key) && ListedKey(listed, listings, key) {
      var t :| 0 <= t < |entries| && entries[t].0 == key && IsLast(entries, |entries|, t);
      assert entries[t] in entries;
      var i: nat, j: nat :| Listed(listed, listings, i, j) && entries[t] == EntryAt(listed, listings, i, j);
      EntryIsWellFormed(listed, listings, i, j, stats, key);
    }
  }
}
