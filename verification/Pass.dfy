/**
 What a pass over part of the difference does, for any choice of the calls that failed, and the law that
 passes over disjoint keys compose.  A whole Reconcile is such a composition.
 */
module Pass {
  import opened LvsTypes
  import opened Diff

  datatype ReconcileError =
    | BuildFailed(why: ConversionError)
    | ServicesUnread
    | ServiceCall(op: Op)
    | DestinationsUnread(k: ServiceKey)
    | DestinationCalls(k: ServiceKey, failed: seq<Op>)
    | SnatFailed(why: ConversionError)

  /** The recorded error accounts for `op` not having been carried out. */
  ghost predicate Covers(e: ReconcileError, op: Op) {
    match e
    case ServiceCall(o) => o == op || ((o.CreateService? || o.UpdateService?) && op.OnDestination() && op.k == o.k)
    case DestinationsUnread(k) => op.OnDestination() && op.k == k
    case DestinationCalls(_, failed) => op in failed
    case _ => false
  }

  ghost predicate Covered(op: Op, errs: seq<ReconcileError>) {
    exists e :: e in errs && Covers(e, op)
  }

  ghost function Scope(stale: set<ServiceKey>, want: Desired): set<ServiceKey> {
    stale + want.Keys
  }

  /**
   What a part of Reconcile did: the calls tried, those that succeeded, the errors recorded, and the services whose
   destinations could not be read.
   */
  datatype Work = Work(done: set<Op>, tried: set<Op>, errs: seq<ReconcileError>, unread: set<ServiceKey>) {
    function Plus(more: Work): Work {
      Work(done + more.done, tried + more.tried, errs + more.errs, unread + more.unread)
    }
  }

  const NO_WORK := Work({}, {}, [], {})

  /** One call on a service. */
  function OneCall(op: Op, ok: bool): Work {
    Work(if ok then {op} else {}, {op}, if ok then [] else [ServiceCall(op)], {})
  }

  /** The service call that `k` needs, if any, has succeeded. */
  ghost predicate Ready(k: ServiceKey, s: Store, want: Desired, done: set<Op>) {
    && k in want
    && if k !in s.services then CreateService(k) in done
       else s.services[k].schedName != want[k].service.schedName ==> UpdateService(k) in done
  }

  /** Nothing stops the reconciler from making this call: destinations wait for their service, and must be read. */
  ghost predicate Reached(op: Op, s: Store, want: Desired, work: Work) {
    op.OnDestination() ==> Ready(op.k, s, want, work.done) && op.k !in work.unread
  }

  /** The recorded error is that of something that did fail. */
  ghost predicate Justified(e: ReconcileError, work: Work) {
    match e
    case ServiceCall(op) => !op.OnDestination() && op in work.tried && op !in work.done
    case DestinationsUnread(k) => k in work.unread
    case DestinationCalls(k, failed) =>
      && failed != []
      && forall op: Op :: op in failed <==> op.OnDestination() && op.k == k && op in work.tried && op !in work.done
    case _ => false
  }

  ghost predicate NoRepeats(errs: seq<ReconcileError>) {
    forall i, j | 0 <= i < j < |errs| :: errs[i] != errs[j]
  }

  /** The errors tell exactly what failed, once: they cover every call left over, and each of them is justified. */
  ghost predicate Accounts(s: Store, stale: set<ServiceKey>, want: Desired, work: Work) {
    && (forall op | Needed(op, s, stale, want) && op !in work.done :: Covered(op, work.errs))
    && (forall e | e in work.errs :: Justified(e, work)) && NoRepeats(work.errs)
    && (forall k | k in work.unread :: Ready(k, s, want, work.done) && DestinationsUnread(k) in work.errs)
  }

  /**
   From table `s`, with `stale` the services to remove and `want` the services to bring about, `work` led to `s'`:
   exactly the needed calls that could be reached were made, whatever failed before, the table is what the successful
   ones make of it, and the errors account for the rest.
   */
  ghost predicate PassEffect(s: Store, stale: set<ServiceKey>, want: Desired, work: Work, s': Store) {
    && work.done <= work.tried
    && (forall op :: op in work.tried <==> Needed(op, s, stale, want) && Reached(op, s, want, work))
    && Feasible(s, stale, want, work.done)
    && s' == Outcome(s, want, work.done)
    && Accounts(s, stale, want, work)
  }

  /** The two tables agree at service key `k`. */
  ghost predicate SameAt(a: Store, b: Store, k: ServiceKey) {
    && (k in a.services <==> k in b.services) && (k in a.dests <==> k in b.dests)
    && (k in a.services ==> a.services[k] == b.services[k])
    && (k in a.dests ==> a.dests[k] == b.dests[k])
  }

  ghost predicate AgreeAt(done: set<Op>, done': set<Op>, k: ServiceKey) {
    forall op: Op | op.k == k :: op in done <==> op in done'
  }

  /** What happens at a key depends only on the table, the wish and the calls at that key. */
  lemma OutcomeLocal(s: Store, want: Desired, done: set<Op>, s': Store, want': Desired, done': set<Op>, k: ServiceKey)
    requires s.services.Keys == s.dests.Keys && s'.services.Keys == s'.dests.Keys
    requires SameAt(s, s', k) && AgreeAt(done, done', k)
    requires (k in want <==> k in want') && (k in want ==> want[k] == want'[k])
    ensures SameAt(Outcome(s, want, done), Outcome(s', want', done'), k)
  {
    assert forall op: Op | op in {CreateService(k), UpdateService(k), DeleteService(k)} :: op in done <==> op in done';
    assert DestOutcome(k, DestsAt(s, k), WantedAt(want, k), done)
        == DestOutcome(k, DestsAt(s', k), WantedAt(want', k), done') by {
      forall d ensures
        && (CreateDestination(k, d) in done <==> CreateDestination(k, d) in done')
        && (UpdateDestination(k, d) in done <==> UpdateDestination(k, d) in done')
        && (DeleteDestination(k, d) in done <==> DeleteDestination(k, d) in done')
      {
        assert CreateDestination(k, d).k == UpdateDestination(k, d).k == DeleteDestination(k, d).k == k;
      }
    }
  }

  /** A key without calls keeps its contents. */
  lemma OutcomeUntouched(s: Store, want: Desired, done: set<Op>, k: ServiceKey)
    requires s.services.Keys == s.dests.Keys
    requires AgreeAt(done, {}, k)
    ensures SameAt(Outcome(s, want, done), s, k)
  {
    assert forall op: Op | op in {CreateService(k), UpdateService(k), DeleteService(k)} :: op !in done;
    DestOutcomeUntouched(k, DestsAt(s, k), WantedAt(want, k), done);
  }

  lemma StoresEqual(a: Store, b: Store)
    requires forall k :: SameAt(a, b, k)
    ensures a == b
  {
    assert forall k :: k in a.services ==> SameAt(a, b, k);
    assert forall k :: k in b.services ==> SameAt(a, b, k);
    assert forall k :: k in a.dests ==> SameAt(a, b, k);
    assert forall k :: k in b.dests ==> SameAt(a, b, k);
  }

  lemma NeededLocal(op: Op, s: Store, stale: set<ServiceKey>, want: Desired, s': Store, stale': set<ServiceKey>,
    want': Desired)
    requires SameAt(s, s', op.k) && (op.k in stale <==> op.k in stale')
    requires (op.k in want <==> op.k in want') && (op.k in want ==> want[op.k] == want'[op.k])
    ensures Needed(op, s, stale, want) <==> Needed(op, s', stale', want')
  {
  }

  ghost predicate Disjoint(stale1: set<ServiceKey>, want1: Desired, stale2: set<ServiceKey>, want2: Desired) {
    Scope(stale1, want1) !! Scope(stale2, want2)
  }

  /** Each call and each unread service of a pass is of its scope. */
  ghost predicate InScope(keys: set<ServiceKey>, work: Work) {
    (forall op | op in work.tried :: op.k in keys) && work.unread <= keys && work.done <= work.tried
  }

  lemma PassInScope(s: Store, stale: set<ServiceKey>, want: Desired, work: Work, s': Store)
    requires s.services.Keys == s.dests.Keys && PassEffect(s, stale, want, work, s')
    ensures InScope(Scope(stale, want), work)
  {
  }

  /** What other services had done to them does not matter for reaching a call or justifying an error. */
  lemma ReachedLocal(op: Op, s: Store, want: Desired, work: Work, s': Store, want': Desired, work': Work)
    requires SameAt(s, s', op.k) && AgreeAt(work.done, work'.done, op.k)
    requires op.k in work.unread <==> op.k in work'.unread
    requires (op.k in want <==> op.k in want') && (op.k in want ==> want[op.k] == want'[op.k])
    ensures Reached(op, s, want, work) <==> Reached(op, s', want', work')
  {
    assert CreateService(op.k).k == UpdateService(op.k).k == op.k;
  }

  lemma ReadyLocal(k: ServiceKey, s: Store, want: Desired, done: set<Op>, s': Store, want': Desired, done': set<Op>)
    requires SameAt(s, s', k) && AgreeAt(done, done', k)
    requires (k in want <==> k in want') && (k in want ==> want[k] == want'[k])
    ensures Ready(k, s, want, done) <==> Ready(k, s', want', done')
  {
    assert CreateService(k).k == UpdateService(k).k == k;
  }

  lemma JustifiedFirst(e: ReconcileError, keys1: set<ServiceKey>, work1: Work, keys2: set<ServiceKey>, work2: Work)
    requires InScope(keys1, work1) && InScope(keys2, work2) && keys1 !! keys2 && Justified(e, work1)
    ensures Justified(e, work1.Plus(work2)) && Justified(e, work2.Plus(work1))
  {
    if e.DestinationCalls? {
      assert e.failed[0] in e.failed;
    }
  }

  lemma DoneAgree(keys1: set<ServiceKey>, work1: Work, keys2: set<ServiceKey>, work2: Work, k: ServiceKey)
    requires InScope(keys1, work1) && InScope(keys2, work2) && k !in keys2
    ensures AgreeAt(work1.done, work1.Plus(work2).done, k) && AgreeAt(work1.done, work2.Plus(work1).done, k)
    ensures k in work1.unread <==> k in work1.Plus(work2).unread
  {
  }

  /** Passes over disjoint sets of services compose into one pass over their union. */
  lemma Compose(s0: Store, stale1: set<ServiceKey>, want1: Desired, work1: Work, s1: Store, stale2: set<ServiceKey>,
    want2: Desired, work2: Work, s2: Store)
    requires s0.services.Keys == s0.dests.Keys
    requires Disjoint(stale1, want1, stale2, want2)
    requires PassEffect(s0, stale1, want1, work1, s1) && PassEffect(s1, stale2, want2, work2, s2)
    ensures PassEffect(s0, stale1 + stale2, want1 + want2, work1.Plus(work2), s2)
    ensures work1.tried !! work2.tried
  {
    var stale, want, work := stale1 + stale2, want1 + want2, work1.Plus(work2);
    PassInScope(s0, stale1, want1, work1, s1);
    PassInScope(s1, stale2, want2, work2, s2);
    ComposeStores(s0, stale1, want1, work1.done, s1, stale2, want2, work2.done);
    forall op ensures op in work.tried <==> Needed(op, s0, stale, want) && Reached(op, s0, want, work) {
      ComposeTried(s0, stale1, want1, work1, s1, stale2, want2, work2, s2, op);
    }
    ComposeAccounts(s0, stale1, want1, work1, s1, stale2, want2, work2, s2);
    ComposeFeasible(s0, stale1, want1, work1, s1, stale2, want2, work2, s2);
  }

  lemma ComposeTried(s0: Store, stale1: set<ServiceKey>, want1: Desired, work1: Work, s1: Store,
    stale2: set<ServiceKey>, want2: Desired, work2: Work, s2: Store, op: Op)
    requires s0.services.Keys == s0.dests.Keys && Disjoint(stale1, want1, stale2, want2)
    requires PassEffect(s0, stale1, want1, work1, s1) && PassEffect(s1, stale2, want2, work2, s2)
    ensures op in work1.Plus(work2).tried <==>
      Needed(op, s0, stale1 + stale2, want1 + want2) && Reached(op, s0, want1 + want2, work1.Plus(work2))
  {
    var want, work := want1 + want2, work1.Plus(work2);
    PassInScope(s0, stale1, want1, work1, s1);
    PassInScope(s1, stale2, want2, work2, s2);
    SplitNeeded(s0, stale1, want1, work1.done, s1, stale2, want2, op);
    if op.k in Scope(stale1, want1) {
      DoneAgree(Scope(stale1, want1), work1, Scope(stale2, want2), work2, op.k);
      ReachedLocal(op, s0, want1, work1, s0, want, work);
    } else if op.k in Scope(stale2, want2) {
      OutcomeUntouched(s0, want1, work1.done, op.k);
      DoneAgree(Scope(stale2, want2), work2, Scope(stale1, want1), work1, op.k);
      ReachedLocal(op, s1, want2, work2, s0, want, work);
    }
  }

  lemma ComposeAccounts(s0: Store, stale1: set<ServiceKey>, want1: Desired, work1: Work, s1: Store,
    stale2: set<ServiceKey>, want2: Desired, work2: Work, s2: Store)
    requires s0.services.Keys == s0.dests.Keys && Disjoint(stale1, want1, stale2, want2)
    requires PassEffect(s0, stale1, want1, work1, s1) && PassEffect(s1, stale2, want2, work2, s2)
    ensures Accounts(s0, stale1 + stale2, want1 + want2, work1.Plus(work2))
  {
    var stale, want, work := stale1 + stale2, want1 + want2, work1.Plus(work2);
    var keys1, keys2 := Scope(stale1, want1), Scope(stale2, want2);
    PassInScope(s0, stale1, want1, work1, s1);
    PassInScope(s1, stale2, want2, work2, s2);
    forall op | Needed(op, s0, stale, want) && op !in work.done ensures Covered(op, work.errs) {
      SplitNeeded(s0, stale1, want1, work1.done, s1, stale2, want2, op);
      CoveredAppend(op, work1.errs, work2.errs);
    }
    forall e | e in work.errs ensures Justified(e, work) {
      if e in work1.errs {
        JustifiedFirst(e, keys1, work1, keys2, work2);
      } else {
        JustifiedSecond(e, keys1, work1, keys2, work2);
      }
    }
    forall k | k in work.unread ensures Ready(k, s0, want, work.done) && DestinationsUnread(k) in work.errs {
      ComposeUnread(s0, stale1, want1, work1, s1, stale2, want2, work2, s2, k);
    }
    NoRepeatsTogether(keys1, work1, keys2, work2);
  }

  /** The service an error is about. */
  function About(e: ReconcileError): set<ServiceKey> {
    match e
    case ServiceCall(op) => {op.k}
    case DestinationsUnread(k) => {k}
    case DestinationCalls(k, _) => {k}
    case _ => {}
  }

  lemma JustifiedInScope(e: ReconcileError, keys: set<ServiceKey>, work: Work)
    requires InScope(keys, work) && Justified(e, work)
    ensures About(e) != {} && About(e) <= keys
  {
    if e.DestinationCalls? {
      assert e.failed[0] in e.failed;
    }
  }

  lemma NoRepeatsTogether(keys1: set<ServiceKey>, work1: Work, keys2: set<ServiceKey>, work2: Work)
    requires InScope(keys1, work1) && InScope(keys2, work2) && keys1 !! keys2
    requires NoRepeats(work1.errs) && NoRepeats(work2.errs)
    requires forall e | e in work1.errs :: Justified(e, work1)
    requires forall e | e in work2.errs :: Justified(e, work2)
    ensures NoRepeats(work1.errs + work2.errs)
  {
    forall i, j | 0 <= i < |work1.errs| && 0 <= j < |work2.errs| ensures work1.errs[i] != work2.errs[j] {
      JustifiedInScope(work1.errs[i], keys1, work1);
      JustifiedInScope(work2.errs[j], keys2, work2);
    }
  }

  lemma JustifiedSecond(e: ReconcileError, keys1: set<ServiceKey>, work1: Work, keys2: set<ServiceKey>, work2: Work)
    requires InScope(keys1, work1) && InScope(keys2, work2) && keys1 !! keys2 && Justified(e, work2)
    ensures Justified(e, work1.Plus(work2))
  {
    JustifiedFirst(e, keys2, work2, keys1, work1);
  }

  lemma ComposeUnread(s0: Store, stale1: set<ServiceKey>, want1: Desired, work1: Work, s1: Store,
    stale2: set<ServiceKey>, want2: Desired, work2: Work, s2: Store, k: ServiceKey)
    requires s0.services.Keys == s0.dests.Keys && Disjoint(stale1, want1, stale2, want2)
    requires PassEffect(s0, stale1, want1, work1, s1) && PassEffect(s1, stale2, want2, work2, s2)
    requires k in work1.Plus(work2).unread
    ensures Ready(k, s0, want1 + want2, work1.Plus(work2).done) && DestinationsUnread(k) in work1.errs + work2.errs
  {
    var want, done := want1 + want2, work1.Plus(work2).done;
    PassInScope(s0, stale1, want1, work1, s1);
    PassInScope(s1, stale2, want2, work2, s2);
    if k in work1.unread {
      DoneAgree(Scope(stale1, want1), work1, Scope(stale2, want2), work2, k);
      ReadyLocal(k, s0, want1, work1.done, s0, want, done);
    } else {
      OutcomeUntouched(s0, want1, work1.done, k);
      DoneAgree(Scope(stale2, want2), work2, Scope(stale1, want1), work1, k);
      ReadyLocal(k, s1, want2, work2.done, s0, want, done);
    }
  }

  lemma ComposeFeasible(s0: Store, stale1: set<ServiceKey>, want1: Desired, work1: Work, s1: Store,
    stale2: set<ServiceKey>, want2: Desired, work2: Work, s2: Store)
    requires s0.services.Keys == s0.dests.Keys && Disjoint(stale1, want1, stale2, want2)
    requires PassEffect(s0, stale1, want1, work1, s1) && PassEffect(s1, stale2, want2, work2, s2)
    ensures Feasible(s0, stale1 + stale2, want1 + want2, work1.done + work2.done)
  {
    PassInScope(s0, stale1, want1, work1, s1);
    PassInScope(s1, stale2, want2, work2, s2);
    forall op | op in work1.done + work2.done ensures Needed(op, s0, stale1 + stale2, want1 + want2) {
      SplitNeeded(s0, stale1, want1, work1.done, s1, stale2, want2, op);
    }
    forall op | op in work2.done && op.CreateDestination? && op.k !in s0.services
      ensures CreateService(op.k) in work1.done + work2.done
    {
      OutcomeUntouched(s0, want1, work1.done, op.k);
    }
  }

  /** The form the two service loops use. */
  lemma ComposeTo(s0: Store, stale1: set<ServiceKey>, want1: Desired, work1: Work, s1: Store, stale2: set<ServiceKey>,
    want2: Desired, work2: Work, s2: Store, stale: set<ServiceKey>, want: Desired)
    requires s0.services.Keys == s0.dests.Keys
    requires Disjoint(stale1, want1, stale2, want2)
    requires PassEffect(s0, stale1, want1, work1, s1) && PassEffect(s1, stale2, want2, work2, s2)
    requires stale == stale1 + stale2 && want == want1 + want2
    ensures PassEffect(s0, stale, want, work1.Plus(work2), s2)
    ensures work1.tried !! work2.tried
    ensures forall op | op in work1.tried :: op.k in Scope(stale1, want1)
    ensures forall op | op in work2.tried :: op.k in Scope(stale2, want2)
  {
    Compose(s0, stale1, want1, work1, s1, stale2, want2, work2, s2);
  }

  lemma CoveredAppend(op: Op, errs1: seq<ReconcileError>, errs2: seq<ReconcileError>)
    ensures Covered(op, errs1) || Covered(op, errs2) ==> Covered(op, errs1 + errs2)
  {
  }

  lemma SplitNeeded(s0: Store, stale1: set<ServiceKey>, want1: Desired, done1: set<Op>, s1: Store,
    stale2: set<ServiceKey>, want2: Desired, op: Op)
    requires s0.services.Keys == s0.dests.Keys
    requires Disjoint(stale1, want1, stale2, want2)
    requires s1 == Outcome(s0, want1, done1)
    requires forall op' | op' in done1 :: op'.k in Scope(stale1, want1)
    ensures Needed(op, s0, stale1, want1) ==> op.k in Scope(stale1, want1)
    ensures Needed(op, s1, stale2, want2) ==> op.k in Scope(stale2, want2)
    ensures Needed(op, s0, stale1 + stale2, want1 + want2) <==>
      if op.k in Scope(stale1, want1) then Needed(op, s0, stale1, want1) else Needed(op, s1, stale2, want2)
  {
    if op.k in Scope(stale1, want1) {
      NeededLocal(op, s0, stale1 + stale2, want1 + want2, s0, stale1, want1);
    } else {
      OutcomeUntouched(s0, want1, done1, op.k);
      NeededLocal(op, s0, stale1 + stale2, want1 + want2, s1, stale2, want2);
    }
  }

  lemma ComposeStores(s0: Store, stale1: set<ServiceKey>, want1: Desired, done1: set<Op>, s1: Store,
    stale2: set<ServiceKey>, want2: Desired, done2: set<Op>)
    requires s0.services.Keys == s0.dests.Keys
    requires Disjoint(stale1, want1, stale2, want2)
    requires s1 == Outcome(s0, want1, done1)
    requires forall op | op in done1 :: op.k in Scope(stale1, want1)
    requires forall op | op in done2 :: op.k in Scope(stale2, want2)
    ensures Outcome(s1, want2, done2) == Outcome(s0, want1 + want2, done1 + done2)
  {
    var want, done := want1 + want2, done1 + done2;
    forall k ensures SameAt(Outcome(s1, want2, done2), Outcome(s0, want, done), k) {
      if k in Scope(stale1, want1) {
        OutcomeUntouched(s1, want2, done2, k);
        OutcomeLocal(s0, want1, done1, s0, want, done, k);
      } else {
        OutcomeUntouched(s0, want1, done1, k);
        if k in Scope(stale2, want2) {
          OutcomeLocal(s1, want2, done2, s0, want, done, k);
        } else {
          OutcomeUntouched(s1, want2, done2, k);
          OutcomeUntouched(s0, want, done, k);
        }
      }
    }
    StoresEqual(Outcome(s1, want2, done2), Outcome(s0, want, done));
  }

  /** Only the managed services that are present and not desired matter as stale services. */
  lemma StaleAreManaged(s: Store, managed: set<ServiceKey>, stale: set<ServiceKey>, want: Desired, work: Work,
    s': Store)
    requires stale == set k | k in managed && k in s.services && k !in want
    requires PassEffect(s, stale, want, work, s')
    ensures PassEffect(s, managed, want, work, s')
  {
    forall op ensures Needed(op, s, stale, want) <==> Needed(op, s, managed, want) {
    }
  }

  /** The keys the reconciler answers for after a pass. */
  ghost function ManagedAfter(s: Store, managed: set<ServiceKey>, want: Desired, done: set<Op>): set<ServiceKey> {
    set k | k in managed + want.Keys
      && (k in managed || k in s.services || CreateService(k) in done)
      && DeleteService(k) !in done
  }

  /** What one Reconcile does once the desired state is built and the table is read. */
  ghost predicate ReconcileEffect(s: Store, managed: set<ServiceKey>, want: Desired, work: Work, s': Store,
    managed': set<ServiceKey>)
  {
    PassEffect(s, managed, want, work, s') && managed' == ManagedAfter(s, managed, want, work.done)
  }

  /** What one Cleanup does once the table is read: a pass with nothing desired, that also forgets absent services. */
  ghost predicate CleanupEffect(s: Store, managed: set<ServiceKey>, work: Work, s': Store, managed': set<ServiceKey>) {
    && PassEffect(s, managed, map[], work, s')
    && managed' == set k | k in managed && k in s.services && DeleteService(k) !in work.done
  }

  lemma CleanupByPass(s: Store, managed: set<ServiceKey>, none: Desired, work: Work, s': Store,
    managed': set<ServiceKey>)
    requires PassEffect(s, managed, none, work, s') && none == map[]
    requires forall k :: k in managed' <==> k in managed && k in s.services && DeleteService(k) !in work.done
    ensures CleanupEffect(s, managed, work, s', managed')
  {
  }
}
