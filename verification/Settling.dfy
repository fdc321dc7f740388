/**
 Spellings of listen hosts.  The configuration files services under the text it was given, the kernel under the
 address as it prints it (pkg/lvs/types.go); what that does to repeated runs of Reconcile.
 */
module Settling {
  import opened Wrappers
  import opened Config
  import opened LvsTypes
  import opened Diff
  import opened Pass
  import opened FakeHandle
  import opened DesiredState
  import opened ReconcileLoops

  /** A net.IP is read back from its own print. */
  ghost predicate ReadsOwnPrint(lib: Lib) {
    forall text | lib.parseIP(text).Some? :: lib.parseIP(lib.parseIP(text).value.text) == lib.parseIP(text)
  }

  ghost predicate CanonicalListens(lib: Lib, cfgs: seq<ServiceConfig>) {
    forall i | 0 <= i < |cfgs| :: CanonicalHost(lib, cfgs[i].listen)
  }

  /** The addresses in the table are written as net.IP prints them. */
  ghost predicate PrintedAddresses(lib: Lib, services: Services) {
    forall k | k in services :: lib.parseIP(k.address) == Some(IP(k.address))
  }

  /** The desired service under `k` is read from the listen text that `k` was taken from. */
  lemma DesiredUnder(lib: Lib, cfgs: seq<ServiceConfig>, answers: Answers, k: ServiceKey)
    requires DesiredOf(lib, cfgs, answers).Success? && k in DesiredOf(lib, cfgs, answers).value
    ensures var svc := DesiredOf(lib, cfgs, answers).value[k].service;
      lib.parseIP(k.address) == Some(svc.address) && KeyOfService(svc) == k.(address := svc.address.text)
  {
    var i := DesiredOrigin(lib, cfgs, answers, k);
    DesiredEntry(lib, cfgs, answers, i);
  }

  /**
   The desired state is filed under kernel keys exactly if every configured host is canonical, shadowed services
   included.
   */
  lemma CanonicalIffListens(lib: Lib, cfgs: seq<ServiceConfig>, answers: Answers)
    requires DesiredOf(lib, cfgs, answers).Success?
    ensures Canonical(DesiredOf(lib, cfgs, answers).value) <==> CanonicalListens(lib, cfgs)
  {
    var want := DesiredOf(lib, cfgs, answers).value;
    if CanonicalListens(lib, cfgs) {
      CanonicalHosts(lib, cfgs, answers);
    }
    if Canonical(want) {
      forall i | 0 <= i < |cfgs| ensures CanonicalHost(lib, cfgs[i].listen) {
        DesiredEntry(lib, cfgs, answers, i);
        DesiredUnder(lib, cfgs, answers, ServiceKeyFromConfig(lib, cfgs[i]).value);
      }
    }
  }

  /** A key printed by the kernel for one desired service is not read differently for another. */
  lemma PrintedKeysDoStand(lib: Lib, cfgs: seq<ServiceConfig>, answers: Answers)
    requires ReadsOwnPrint(lib) && DesiredOf(lib, cfgs, answers).Success?
    ensures PrintedKeysStand(DesiredOf(lib, cfgs, answers).value)
  {
    var want := DesiredOf(lib, cfgs, answers).value;
    forall k, k' | k in want && k' in want && KeyOfService(want[k'].service) == k
      ensures KeyOfService(want[k].service) == k
    {
      DesiredUnder(lib, cfgs, answers, k);
      DesiredUnder(lib, cfgs, answers, k');
    }
  }

  lemma PrintedTable(lib: Lib, cfgs: seq<ServiceConfig>, answers: Answers, services: Services)
    requires DesiredOf(lib, cfgs, answers).Success? && PrintedAddresses(lib, services)
    ensures AsPrinted(DesiredOf(lib, cfgs, answers).value, services)
  {
    var want := DesiredOf(lib, cfgs, answers).value;
    forall k | k in want && k in services ensures KeyOfService(want[k].service) == k {
      DesiredUnder(lib, cfgs, answers, k);
    }
  }

  /** Health does not decide which services are desired. */
  lemma ServicesDespiteHealth(lib: Lib, cfgs: seq<ServiceConfig>, a: Answers, b: Answers, services: Services)
    requires DesiredOf(lib, cfgs, a).Success? && DesiredOf(lib, cfgs, b).Success?
    requires Settled(DesiredOf(lib, cfgs, a).value, services)
    ensures Settled(DesiredOf(lib, cfgs, b).value, services)
  {
    var wantA, wantB := DesiredOf(lib, cfgs, a).value, DesiredOf(lib, cfgs, b).value;
    forall k | k in wantB ensures k in wantA && KeyOfService(wantB[k].service) == KeyOfService(wantA[k].service) {
      var i := DesiredOrigin(lib, cfgs, b, k);
      DesiredEntry(lib, cfgs, a, i);
      DesiredUnder(lib, cfgs, a, k);
      DesiredUnder(lib, cfgs, b, k);
    }
  }

  /**
   The second of two runs on one configuration, whatever the health answers.  If the first made no error, and no call
   is refused, the second makes none exactly if every listen host is canonical: only then can the reconciler go on.
   */
  lemma SecondRunDecides(lib: Lib, cfgs: seq<ServiceConfig>, answers1: Answers, answers2: Answers, start: Situation,
    work1: Work, faults: Faults, mid: Situation, work2: Work, end: Situation)
    requires ReadsOwnPrint(lib) && PrintedAddresses(lib, start.store.services)
    requires DesiredOf(lib, cfgs, answers1).Success? && DesiredOf(lib, cfgs, answers2).Success?
    requires TableReport(start, DesiredOf(lib, cfgs, answers1).value, work1, mid, faults) && work1.errs == []
    requires TableReport(mid, DesiredOf(lib, cfgs, answers2).value, work2, end, NO_FAULTS)
    ensures work2.errs == [] <==> CanonicalListens(lib, cfgs)
  {
    PrintedTable(lib, cfgs, answers1, start.store.services);
    PrintedKeysDoStand(lib, cfgs, answers1);
    ServicesDespiteHealth(lib, cfgs, answers1, answers2, mid.store.services);
    CanonicalIffListens(lib, cfgs, answers2);
  }
}
