/** What a validated configuration guarantees the reconciler, and what it does not. */
module ValidConfigs {
  import opened Wrappers
  import opened Text
  import opened Config
  import opened LvsTypes
  import opened LastWins
  import opened Diff
  import opened DesiredState
  import opened Validation
  import opened Settling

  function Bracketed(host: string): string {
    if ':' in host then "[" + host + "]" else host
  }

  /** net.JoinHostPort with the port in decimal: a host with colons is put into brackets. */
  function JoinHostPort(host: string, port: nat): string {
    HostPort(Bracketed(host), port)
  }

  /** What net and strconv promise about text that was printed canonically. */
  ghost predicate ReadsWhatIsPrinted(lib: Lib) {
    && (forall host, port: nat | lib.parseIP(host).Some? ::
          lib.splitHostPort(JoinHostPort(host, port)) == Some((host, Itoa(port))))
    && (forall n: nat | n < 0x4_0000 :: lib.atoi(Itoa(n)) == Some(n))
    && ReadsOwnPrint(lib)
  }

  /** The address is written the way its host and 16-bit port would be printed. */
  predicate CanonicalAddress(lib: Lib, address: string) {
    match SplitAddress(lib, address)
    case Failure(_) => false
    case Success((host, port)) => address == JoinHostPort(host, port)
  }

  /** Nor is the host written otherwise than net.IP prints it. */
  predicate CanonicalListen(lib: Lib, address: string) {
    CanonicalAddress(lib, address) && CanonicalHost(lib, address)
  }

  /** The key under which the kernel has the service that is converted from a configured one. */
  function KernelKey(lib: Lib, cfg: ServiceConfig): Result<ServiceKey, ConversionError> {
    var svc :- ConfigToService(lib, cfg);
    Success(KeyOfService(svc))
  }

  /** The services of a valid configuration, with the missing protocols filled in. */
  ghost predicate Validated(lib: Lib, cfgs: seq<ServiceConfig>) {
    exists cfg: Config :: Valid(lib, cfg) && cfgs == DefaultedAll(cfg.services)
  }

  lemma ValidatedService(lib: Lib, cfgs: seq<ServiceConfig>, i: nat)
    requires Validated(lib, cfgs) && i < |cfgs|
    ensures AddressOK(lib, cfgs[i].listen) && cfgs[i].protocol in {"tcp", "udp"} && BackendsOK(lib, cfgs[i].backends)
    ensures forall j | 0 <= j < i ::
      cfgs[j].name != cfgs[i].name && (cfgs[j].listen != cfgs[i].listen || cfgs[j].protocol != cfgs[i].protocol)
  {
    var cfg: Config :| Valid(lib, cfg) && cfgs == DefaultedAll(cfg.services);
    assert ServiceOK(lib, cfg.services, i);
    assert Passes(lib, cfg.services, i, Name) && Passes(lib, cfg.services, i, Listen);
    assert Passes(lib, cfg.services, i, Protocol);
    assert Passes(lib, cfg.services, i, DuplicateListen) && Passes(lib, cfg.services, i, Backends);
    forall j | 0 <= j < i ensures cfgs[j].listen != cfgs[i].listen || cfgs[j].protocol != cfgs[i].protocol {
      assert ListenId(cfg.services[j]) != ListenId(cfg.services[i]);
    }
  }

  /** The metric labels of a valid configuration can rely on service names. */
  lemma ValidatedNames(lib: Lib, cfgs: seq<ServiceConfig>)
    requires Validated(lib, cfgs)
    ensures UniqueNames(cfgs)
  {
    forall i, j | 0 <= i < j < |cfgs| ensures cfgs[i].name != cfgs[j].name {
      ValidatedService(lib, cfgs, j);
    }
  }

  /** Canonical listen addresses of a valid configuration have different keys, which are those the kernel reports. */
  lemma KeysDiffer(lib: Lib, cfgs: seq<ServiceConfig>, i: nat, j: nat)
    requires Validated(lib, cfgs) && i < j < |cfgs|
    requires CanonicalListen(lib, cfgs[i].listen) && CanonicalListen(lib, cfgs[j].listen)
    ensures KernelKey(lib, cfgs[i]).Success? && KernelKey(lib, cfgs[j]).Success?
    ensures KernelKey(lib, cfgs[i]) == ServiceKeyFromConfig(lib, cfgs[i])
    ensures KernelKey(lib, cfgs[j]) == ServiceKeyFromConfig(lib, cfgs[j])
    ensures KernelKey(lib, cfgs[i]) != KernelKey(lib, cfgs[j])
  {
    ValidatedService(lib, cfgs, i);
    ValidatedService(lib, cfgs, j);
  }

  lemma {:induction false} TableSize<K, V>(entries: seq<(K, V)>, n: nat)
    requires n <= |entries| && forall i, j | 0 <= i < j < n :: entries[i].0 != entries[j].0
    ensures |TableUpTo(entries, n)| == n
  {
    if n > 0 {
      TableSize(entries, n - 1);
      TableMeaning(entries, n - 1);
      assert entries[n - 1].0 !in TableUpTo(entries, n - 1);
    }
  }

  ghost predicate AllCanonical(lib: Lib, cfgs: seq<ServiceConfig>) {
    forall i | 0 <= i < |cfgs| :: CanonicalListen(lib, cfgs[i].listen)
  }

  /** The desired state has service `i`, converted, under its own key, which is also the one the kernel reports. */
  ghost predicate OwnEntry(lib: Lib, cfgs: seq<ServiceConfig>, answers: Answers, i: nat, want: Desired)
    requires i < |cfgs|
  {
    && DesiredServiceOf(lib, cfgs, i, answers).Success?
    && var (k, w) := DesiredServiceOf(lib, cfgs, i, answers).value;
       && k in want && want[k] == w
       && ServiceKeyFromConfig(lib, cfgs[i]) == Success(k)
       && ConfigToService(lib, cfgs[i]) == Success(w.service) && KeyOfService(w.service) == k
  }

  /**
   Validated configurations lose no service: with canonical listen addresses every configured service has its own
   entry in the desired state, there are no other entries, and the kernel keeps all of them apart.
   */
  lemma NoServiceLost(lib: Lib, cfgs: seq<ServiceConfig>, answers: Answers)
    requires Validated(lib, cfgs) && DesiredOf(lib, cfgs, answers).Success? && AllCanonical(lib, cfgs)
    ensures var want := DesiredOf(lib, cfgs, answers).value;
      && |want| == |cfgs| && Canonical(want)
      && forall i | 0 <= i < |cfgs| :: LastForKey(lib, cfgs, i) && OwnEntry(lib, cfgs, answers, i, want)
    ensures forall i, j | 0 <= i < j < |cfgs| :: KernelKey(lib, cfgs[i]) != KernelKey(lib, cfgs[j])
  {
    AsManyEntries(lib, cfgs, answers);
    CanonicalHosts(lib, cfgs, answers);
    forall i | 0 <= i < |cfgs|
      ensures LastForKey(lib, cfgs, i) && OwnEntry(lib, cfgs, answers, i, DesiredOf(lib, cfgs, answers).value)
    {
      OnlyForKey(lib, cfgs, i);
      DesiredEntry(lib, cfgs, answers, i);
    }
    forall i, j | 0 <= i < j < |cfgs| ensures KernelKey(lib, cfgs[i]) != KernelKey(lib, cfgs[j]) {
      KeysDiffer(lib, cfgs, i, j);
    }
  }

  lemma OnlyForKey(lib: Lib, cfgs: seq<ServiceConfig>, i: nat)
    requires Validated(lib, cfgs) && i < |cfgs| && AllCanonical(lib, cfgs)
    ensures LastForKey(lib, cfgs, i)
  {
    forall i' | i < i' < |cfgs| ensures ServiceKeyFromConfig(lib, cfgs[i']) != ServiceKeyFromConfig(lib, cfgs[i]) {
      KeysDiffer(lib, cfgs, i, i');
    }
  }

  lemma AsManyEntries(lib: Lib, cfgs: seq<ServiceConfig>, answers: Answers)
    requires Validated(lib, cfgs) && DesiredOf(lib, cfgs, answers).Success? && AllCanonical(lib, cfgs)
    ensures |DesiredOf(lib, cfgs, answers).value| == |cfgs|
  {
    var entries := EntriesUpTo(lib, cfgs, |cfgs|, answers).value;
    EntriesMeaning(lib, cfgs, |cfgs|, answers);
    forall i | 0 <= i < |cfgs| ensures ServiceKeyFromConfig(lib, cfgs[i]) == Success(entries[i].0) {
      assert DesiredServiceOf(lib, cfgs, i, answers) == Success(entries[i]);
    }
    forall i, j | 0 <= i < j < |cfgs| ensures entries[i].0 != entries[j].0 {
      KeysDiffer(lib, cfgs, i, j);
    }
    TableSize(entries, |entries|);
  }

  /** A canonically printed address passes validation and is read as printed, with the low 16 bits of its port. */
  lemma Spelled(lib: Lib, host: string, n: nat)
    requires ReadsWhatIsPrinted(lib) && lib.parseIP(host).Some? && 0 < n < 0x4_0000
    ensures AddressOK(lib, JoinHostPort(host, n))
    ensures SplitAddress(lib, JoinHostPort(host, n)) == Success((host, Uint16(n)))
  {
  }

  /** A second way to write the same address. */
  lemma OtherSpelling(lib: Lib, listen: string, host: string, port: nat) returns (n: nat)
    requires ReadsWhatIsPrinted(lib) && lib.parseIP(host).Some? && port < 0x1_0000 && listen != JoinHostPort(host, port)
    ensures 0 < n < 0x4_0000 && Uint16(n) == port && JoinHostPort(host, n) != listen
  {
    n := port;
    if port == 0 {
      n := port + 0x1_0000;
      if listen == JoinHostPort(host, n) {
        SpellingsDiffer(host, n, n + 0x1_0000);
        n := n + 0x1_0000;
      }
    }
  }

  lemma SpellingsDiffer(host: string, a: nat, b: nat)
    requires a != b
    ensures JoinHostPort(host, a) != JoinHostPort(host, b)
  {
    if JoinHostPort(host, a) == JoinHostPort(host, b) {
      HostPortInjective(Bracketed(host), a, Bracketed(host), b);
    }
  }

  /** An address read as the print of its IP and its port, and written like that, is canonical. */
  lemma PrintIsCanonical(lib: Lib, listen: string, ip: IP, port: nat)
    requires ReadsWhatIsPrinted(lib) && lib.parseIP(ip.text) == Some(ip) && port < 0x1_0000
    requires listen == JoinHostPort(ip.text, port)
    ensures CanonicalListen(lib, listen)
  {
  }

  /**
   Validation alone does not keep services apart.  For every listen address that is not canonical there is a
   configuration, valid too, with a second service that the kernel cannot tell from the first.
   */
  lemma OtherwiseKeysCollide(lib: Lib, cfg: Config, svc: ServiceConfig) returns (twin: ServiceConfig)
    requires ReadsWhatIsPrinted(lib)
    requires Valid(lib, cfg) && cfg.services == [svc] && svc.protocol != ""
    requires SplitAddress(lib, svc.listen).Success? && !CanonicalListen(lib, svc.listen)
    ensures Valid(lib, cfg.(services := [svc, twin]))
    ensures KernelKey(lib, twin) == KernelKey(lib, svc) && KernelKey(lib, svc).Success?
  {
    var (host, port) := SplitAddress(lib, svc.listen).value;
    assert ServiceOK(lib, [svc], 0);
    assert Passes(lib, [svc], 0, Listen) && Passes(lib, [svc], 0, Protocol);
    var ip := lib.parseIP(host).value;
    if svc.listen == JoinHostPort(ip.text, port) {
      PrintIsCanonical(lib, svc.listen, ip, port);
    }
    var n := OtherSpelling(lib, svc.listen, ip.text, port);
    Spelled(lib, ip.text, n);
    twin := svc.(name := svc.name + "x", listen := JoinHostPort(ip.text, n));
    forall reason ensures Passes(lib, [svc, twin], 0, reason) && Passes(lib, [svc, twin], 1, reason) {
      assert Passes(lib, [svc], 0, reason);
      if reason == DuplicateListen && ListenId(svc) == ListenId(twin) {
        SplitAtLast(svc.listen, svc.protocol, twin.listen, svc.protocol, '/');
      }
    }
  }

  // ----- Conversion -----

  predicate NumericPort(lib: Lib, address: string) {
    match lib.splitHostPort(address)
    case None => false
    case Some((_, port)) => lib.atoi(port).Some?
  }

  predicate NumericService(lib: Lib, cfg: ServiceConfig) {
    && NumericPort(lib, cfg.listen)
    && forall j | 0 <= j < |cfg.backends| :: NumericPort(lib, cfg.backends[j].address)
  }

  ghost predicate NumericPorts(lib: Lib, cfgs: seq<ServiceConfig>) {
    forall i | 0 <= i < |cfgs| :: NumericService(lib, cfgs[i])
  }

  lemma {:induction false} DestinationsConvert(lib: Lib, cfgs: seq<ServiceConfig>, i: nat, n: nat, answers: Answers)
    requires i < |cfgs| && n <= |cfgs[i].backends|
    ensures (forall j | 0 <= j < n && Selected(cfgs, i, j, answers) ::
               ConfigToDestination(lib, cfgs[i].backends[j]).Success?)
            <==> DestinationsUpTo(lib, cfgs, i, n, answers).Success?
  {
    if n > 0 {
      DestinationsConvert(lib, cfgs, i, n - 1, answers);
    }
  }

  lemma {:induction false} EntriesConvert(lib: Lib, cfgs: seq<ServiceConfig>, n: nat, answers: Answers)
    requires n <= |cfgs|
    ensures (forall i | 0 <= i < n :: DesiredServiceOf(lib, cfgs, i, answers).Success?)
            <==> EntriesUpTo(lib, cfgs, n, answers).Success?
  {
    if n > 0 {
      EntriesConvert(lib, cfgs, n - 1, answers);
      assert EntriesUpTo(lib, cfgs, n, answers).Success? <==>
        EntriesUpTo(lib, cfgs, n - 1, answers).Success? && DesiredServiceOf(lib, cfgs, n - 1, answers).Success?;
    }
  }

  lemma ServiceConverts(lib: Lib, cfgs: seq<ServiceConfig>, i: nat, answers: Answers)
    requires Validated(lib, cfgs) && i < |cfgs|
    ensures DesiredServiceOf(lib, cfgs, i, answers).Success? <==>
      && NumericPort(lib, cfgs[i].listen)
      && forall j | 0 <= j < |cfgs[i].backends| && Selected(cfgs, i, j, answers) ::
           NumericPort(lib, cfgs[i].backends[j].address)
  {
    ValidatedService(lib, cfgs, i);
    DestinationsConvert(lib, cfgs, i, |cfgs[i].backends|, answers);
    forall j | 0 <= j < |cfgs[i].backends|
      ensures ConfigToDestination(lib, cfgs[i].backends[j]).Success? <==> NumericPort(lib, cfgs[i].backends[j].address)
    {
      assert BackendOK(lib, cfgs[i].backends, j);
    }
  }

  /**
   Validation does not look into ports: a validated configuration can be converted, whatever the health of its
   backends, exactly if all ports are numbers; otherwise there are health answers for which no service at all is
   reconciled.
   */
  lemma ConvertsIffPortsNumeric(lib: Lib, cfgs: seq<ServiceConfig>)
    requires Validated(lib, cfgs)
    ensures (forall answers: Answers :: DesiredOf(lib, cfgs, answers).Success?) <==> NumericPorts(lib, cfgs)
  {
    if NumericPorts(lib, cfgs) {
      forall answers: Answers ensures DesiredOf(lib, cfgs, answers).Success? {
        forall i | 0 <= i < |cfgs| ensures DesiredServiceOf(lib, cfgs, i, answers).Success? {
          ServiceConverts(lib, cfgs, i, answers);
        }
        EntriesConvert(lib, cfgs, |cfgs|, answers);
      }
    } else {
      var answers: Answers := (i: nat, j: nat) => true;
      var i :| 0 <= i < |cfgs| && !NumericService(lib, cfgs[i]);
      ServiceConverts(lib, cfgs, i, answers);
      assert forall j | 0 <= j < |cfgs[i].backends| :: Selected(cfgs, i, j, answers);
      EntriesConvert(lib, cfgs, |cfgs|, answers);
      assert !DesiredOf(lib, cfgs, answers).Success?;
    }
  }
}
