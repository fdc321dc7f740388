/**
 Many HTTP requests at once (pkg/http/transport.go, pkg/http/pool.go, pkg/http/proxy.go): the steps of round trips,
 body closings, sweeps and shutdown interleaved, with connections being closed outside the pool's mutex.
 */
module ConnProtocol {
  import opened Ledger
  import opened Pool
  import opened Transport

  /** Where a request is; it holds a connection while exchanging and until its response body is closed. */
  datatype Stage =
    | Dialling(backend: string, retry: bool)
    | Exchanging(conn: nat, backend: string, reused: bool)
    | Streaming(body: Body)
  {
    predicate Holds(c: nat) {
      match this
      case Dialling(_, _) => false
      case Exchanging(conn, _, _) => conn == c
      case Streaming(body) => body.conn == c
    }
  }

  /** `leaving` are the connections taken out of the pool by sweeps or shutdown and not yet closed. */
  datatype State = State(books: Books, clock: int, stages: map<nat, Stage>, leaving: seq<nat>)

  datatype Step =
    | Begin(req: nat, backend: string)
    | Dial(req: nat, ok: bool)
    | Exchange(req: nat, outcome: Exchange)
    | CloseBody(req: nat, intact: bool, now: int)
    | Sweep(cut: Cut, now: int, out: seq<nat>)
    | CloseNext

  /** The books change as the methods of pool and transport change them. */
  ghost predicate Next(maxIdle: int, a: State, step: Step, b: State) {
    match step
    case Begin(req, backend) =>
      // A pooled connection if there is one; otherwise the request dials.
      && req !in a.stages
      && var conns := Conns(a.books.idle, backend);
         if conns == [] then b == a.(stages := a.stages[req := Dialling(backend, false)])
         else b == a.(stages := a.stages[req := Exchanging(Last(conns).conn, backend, true)],
                      books := Took(a.books, backend))
    case Dial(req, ok) =>
      && req in a.stages && a.stages[req].Dialling?
      && if !ok then b == a.(stages := a.stages - {req})
         else b == a.(stages := a.stages[req := Exchanging(a.books.dialled, a.stages[req].backend, false)],
                      books := Dialled(a.books))
    case Exchange(req, outcome) =>
      && req in a.stages && a.stages[req].Exchanging?
      && var Exchanging(conn, backend, reused) := a.stages[req];
         // A connection that failed is closed; a stale pooled one is replaced once.
         if outcome.Answered? then b == a.(stages := a.stages[req := Streaming(Body(conn, backend, outcome.reusable))])
         else b == a.(stages := if reused then a.stages[req := Dialling(backend, true)] else a.stages - {req},
                      books := Closed(a.books, conn))
    case CloseBody(req, intact, now) =>
      && req in a.stages && a.stages[req].Streaming? && a.clock <= now
      && b == a.(stages := a.stages - {req}, clock := now,
                 books := BodyClosed(a.books, a.stages[req].body, intact, now, maxIdle))
    case Sweep(cut, now, out) =>
      // The part of cleanup or of Close under the mutex.
      && a.clock <= now && (cut.OlderThan? ==> cut.now == now)
      && Sweeping(a.books.idle, b.books.idle, cut, {}, out, a.books.held, b.books.held)
      && b == a.(books := a.books.(idle := b.books.idle, held := b.books.held), clock := now,
                 leaving := a.leaving + out)
    case CloseNext =>
      && a.leaving != []
      && b == a.(leaving := a.leaving[1..], books := Closed(a.books, a.leaving[0]))
  }

  const EMPTY := State(Books(map[], {}, [], 0), 0, map[], [])

  ghost predicate Run(maxIdle: int, states: seq<State>, steps: seq<Step>) {
    && |states| == |steps| + 1 && states[0] == EMPTY
    && forall i | 0 <= i < |steps| :: Next(maxIdle, states[i], steps[i], states[i + 1])
  }

  ghost predicate HeldBy(s: State, req: nat, conn: nat) {
    req in s.stages && s.stages[req].Holds(conn)
  }

  /** Connections outside pool and log are each with one request, or with one sweep. */
  ghost predicate Owned(s: State) {
    && NoRepeats(s.leaving)
    && (forall conn | conn in s.leaving :: conn in s.books.held)
    && (forall req, conn | HeldBy(s, req, conn) :: conn in s.books.held && conn !in s.leaving)
    && (forall r1, r2, conn | HeldBy(s, r1, conn) && HeldBy(s, r2, conn) :: r1 == r2)
    && (forall conn | conn in s.books.held :: conn in s.leaving || exists req :: HeldBy(s, req, conn))
  }

  ghost predicate Inv(maxIdle: int, s: State) {
    Balanced(s.books) && Owned(s) && Shape(s.books.idle, maxIdle, s.clock)
  }

  lemma BeginKeeps(maxIdle: int, a: State, req: nat, backend: string, b: State)
    requires Inv(maxIdle, a) && Next(maxIdle, a, Begin(req, backend), b)
    ensures Inv(maxIdle, b)
  {
    var conns := Conns(a.books.idle, backend);
    if conns != [] {
      TookBalanced(a.books, backend);
      assert HeldBy(b, req, Last(conns).conn);
    }
    OthersKeep(a, b, req);
  }

  /** A step of one request leaves the other requests where they are. */
  lemma OthersKeep(a: State, b: State, req: nat)
    requires forall r: nat | r != req :: r in b.stages <==> r in a.stages
    requires forall r | r != req && r in a.stages :: b.stages[r] == a.stages[r]
    ensures forall r: nat, conn | r != req :: HeldBy(b, r, conn) <==> HeldBy(a, r, conn)
  {
  }

  lemma DialKeeps(maxIdle: int, a: State, req: nat, ok: bool, b: State)
    requires Inv(maxIdle, a) && Next(maxIdle, a, Dial(req, ok), b)
    ensures Inv(maxIdle, b)
  {
    OthersKeep(a, b, req);
    if ok {
      DialledBalanced(a.books);
      assert HeldBy(b, req, a.books.dialled);
    }
  }

  /** A request gives its connection up. */
  lemma GivenUp(a: State, b: State, req: nat, conn: nat)
    requires Owned(a) && HeldBy(a, req, conn) && forall c :: !HeldBy(b, req, c)
    requires forall r: nat, c | r != req :: HeldBy(b, r, c) <==> HeldBy(a, r, c)
    requires b.books.held == a.books.held - {conn} && b.leaving == a.leaving
    ensures Owned(b)
  {
  }

  lemma OnlyOne(s: State, req: nat, conn: nat)
    requires HeldBy(s, req, conn)
    ensures forall c | HeldBy(s, req, c) :: c == conn
  {
  }

  lemma ExchangeKeeps(maxIdle: int, a: State, req: nat, outcome: Exchange, b: State)
    requires Inv(maxIdle, a) && Next(maxIdle, a, Exchange(req, outcome), b)
    ensures Inv(maxIdle, b)
  {
    var conn := a.stages[req].conn;
    OthersKeep(a, b, req);
    assert HeldBy(a, req, conn);
    OnlyOne(a, req, conn);
    if outcome.Failed? {
      ClosedBalanced(a.books, conn);
      GivenUp(a, b, req, conn);
    } else {
      SameOwner(a, b, req);
    }
  }

  lemma SameOwner(a: State, b: State, req: nat)
    requires Owned(a) && b.books.held == a.books.held && b.leaving == a.leaving
    requires forall r: nat, c :: HeldBy(b, r, c) <==> HeldBy(a, r, c)
    ensures Owned(b)
  {
  }

  lemma CloseBodyKeeps(maxIdle: int, a: State, req: nat, intact: bool, now: int, b: State)
    requires Inv(maxIdle, a) && Next(maxIdle, a, CloseBody(req, intact, now), b)
    ensures Inv(maxIdle, b)
  {
    var body := a.stages[req].body;
    OthersKeep(a, b, req);
    assert HeldBy(a, req, body.conn);
    GivenUp(a, b, req, body.conn);
    ClosedBalanced(a.books, body.conn);
    ReturnedBalanced(a.books, body.backend, Slot(body.conn, now), maxIdle);
  }

  /** After a sweep the pool holds what it held, less the connections that left. */
  lemma SweptMembers(before: Idle, now: Idle, cut: Cut, out: seq<nat>, conn: nat)
    requires OneSlotEach(before) && Swept(before, now, cut, {}) && Leavers(before, cut, {}, out)
    ensures InPool(now, conn) <==> InPool(before, conn) && conn !in out
    ensures conn in out ==> InPool(before, conn)
  {
    assert conn in out <==> LeftFrom(before, cut, {}, conn);
    if InPool(before, conn) {
      var b, i: nat :| At(before, b, i, conn);
      SweptSlot(before, now, cut, b, i, conn);
      assert LeftFrom(before, cut, {}, conn) <==> CutFrom(before, cut, b, conn);
    }
    if InPool(now, conn) {
      var b, i: nat :| At(now, b, i, conn);
      assert SweptAt(before, now, cut, {}, b);
      assert At(before, b, i + cut.Length(Conns(before, b)), conn);
    }
    if LeftFrom(before, cut, {}, conn) {
      var b :| CutFrom(before, cut, b, conn);
      var i: nat :| i < cut.Length(Conns(before, b)) && Conns(before, b)[i].conn == conn;
      assert At(before, b, i, conn);
    }
  }

  lemma SweptSlot(before: Idle, now: Idle, cut: Cut, b: string, i: nat, conn: nat)
    requires OneSlotEach(before) && Swept(before, now, cut, {}) && At(before, b, i, conn)
    ensures CutFrom(before, cut, b, conn) <==> i < cut.Length(Conns(before, b))
    ensures InPool(now, conn) <==> !CutFrom(before, cut, b, conn)
    ensures forall b' | CutFrom(before, cut, b', conn) :: b' == b
  {
    var n := cut.Length(Conns(before, b));
    assert SweptAt(before, now, cut, {}, b);
    if i >= n {
      assert At(now, b, i - n, conn);
    }
    forall b', j: nat | At(now, b', j, conn) ensures b' == b && j + n == i {
      assert SweptAt(before, now, cut, {}, b');
      assert At(before, b', j + cut.Length(Conns(before, b')), conn);
    }
    forall b', j: nat | j < cut.Length(Conns(before, b')) && Conns(before, b')[j].conn == conn
      ensures b' == b && j == i
    {
      assert At(before, b', j, conn);
    }
  }

  /** No connection gets a second slot. */
  lemma SweptOneSlot(before: Idle, now: Idle, cut: Cut)
    requires OneSlotEach(before) && Swept(before, now, cut, {})
    ensures OneSlotEach(now)
  {
    forall b, i: nat, conn | At(now, b, i, conn) ensures At(before, b, i + cut.Length(Conns(before, b)), conn) {
      assert SweptAt(before, now, cut, {}, b);
    }
  }

  /** A sweep moves connections out of the pool into the sweeper's hands and loses none. */
  lemma SweepBalanced(before: Books, now: Books, cut: Cut, out: seq<nat>)
    requires Balanced(before) && Sweeping(before.idle, now.idle, cut, {}, out, before.held, now.held)
    requires now == before.(idle := now.idle, held := now.held)
    ensures Balanced(now)
  {
    SweptOneSlot(before.idle, now.idle, cut);
    forall conn: nat
      ensures InPool(now.idle, conn) <==> InPool(before.idle, conn) && conn !in out
      ensures conn in out ==> InPool(before.idle, conn)
    {
      SweptMembers(before.idle, now.idle, cut, out, conn);
    }
  }

  lemma SweepKeeps(maxIdle: int, a: State, cut: Cut, now: int, out: seq<nat>, b: State)
    requires Inv(maxIdle, a) && Next(maxIdle, a, Sweep(cut, now, out), b)
    ensures Inv(maxIdle, b)
  {
    SweepBalanced(a.books, b.books, cut, out);
    ShapeAfterSweep(a.books.idle, b.books.idle, cut, maxIdle, a.clock);
    forall r: nat, conn ensures HeldBy(b, r, conn) <==> HeldBy(a, r, conn) {
    }
    LeaversOwned(a, b, out);
  }

  lemma LeaversOwned(a: State, b: State, out: seq<nat>)
    requires Owned(a) && NoRepeats(out) && HoldsAlso(b.books.held, a.books.held, out) && b.leaving == a.leaving + out
    requires forall r: nat, conn :: HeldBy(b, r, conn) <==> HeldBy(a, r, conn)
    ensures Owned(b)
  {
    forall i, j | 0 <= i < j < |b.leaving| ensures b.leaving[i] != b.leaving[j] {
      if i < |a.leaving| <= j {
        assert b.leaving[j] == out[j - |a.leaving|] && b.leaving[i] in a.leaving;
      }
    }
    forall conn | conn in b.books.held ensures conn in b.leaving || exists r :: HeldBy(b, r, conn) {
      if conn in a.books.held && conn !in a.leaving {
        var r :| HeldBy(a, r, conn);
        assert HeldBy(b, r, conn);
      }
    }
  }

  lemma CloseNextKeeps(maxIdle: int, a: State, b: State)
    requires Inv(maxIdle, a) && Next(maxIdle, a, CloseNext, b)
    ensures Inv(maxIdle, b)
  {
    var conn := a.leaving[0];
    ClosedBalanced(a.books, conn);
    forall r: nat, c ensures HeldBy(b, r, c) <==> HeldBy(a, r, c) {
    }
    assert a.leaving == [conn] + b.leaving;
    assert conn !in b.leaving;
    forall c | c in b.books.held ensures c in b.leaving || exists r :: HeldBy(b, r, c) {
      if c !in b.leaving {
        var r :| HeldBy(a, r, c);
        assert HeldBy(b, r, c);
      }
    }
  }

  lemma StepKeeps(maxIdle: int, a: State, step: Step, b: State)
    requires Inv(maxIdle, a) && Next(maxIdle, a, step, b)
    ensures Inv(maxIdle, b)
  {
    match step
    case Begin(req, backend) => BeginKeeps(maxIdle, a, req, backend, b);
    case Dial(req, ok) => DialKeeps(maxIdle, a, req, ok, b);
    case Exchange(req, outcome) => ExchangeKeeps(maxIdle, a, req, outcome, b);
    case CloseBody(req, intact, now) => CloseBodyKeeps(maxIdle, a, req, intact, now, b);
    case Sweep(cut, now, out) => SweepKeeps(maxIdle, a, cut, now, out, b);
    case CloseNext => CloseNextKeeps(maxIdle, a, b);
  }

  lemma {:induction false} RunKeeps(maxIdle: int, states: seq<State>, steps: seq<Step>, n: nat)
    requires Run(maxIdle, states, steps) && n < |states|
    ensures Inv(maxIdle, states[n])
  {
    if n > 0 {
      RunKeeps(maxIdle, states, steps, n - 1);
      StepKeeps(maxIdle, states[n - 1], steps[n - 1], states[n]);
    } else {
      assert OneSlotEach(states[0].books.idle);
    }
  }

  /**
   Connection conservation: in every reachable state every dialled connection is held by exactly one request, or is
   about to be closed by one sweep, or is idle in exactly one slot, or has been closed, once.
   */
  lemma ExactlyOnePlace(maxIdle: int, states: seq<State>, steps: seq<Step>, n: nat, conn: nat)
    requires Run(maxIdle, states, steps) && n < |states| && conn < states[n].books.dialled
    ensures var s := states[n];
      var request, sweep := exists r :: HeldBy(s, r, conn), conn in s.leaving;
      var pool, log := InPool(s.books.idle, conn), conn in s.books.closed;
      && (request || sweep || pool || log)
      && !(request && (sweep || pool || log)) && !(sweep && (pool || log)) && !(pool && log)
    ensures var s := states[n];
      && (forall r1, r2 | HeldBy(s, r1, conn) && HeldBy(s, r2, conn) :: r1 == r2)
      && OneSlotEach(s.books.idle) && NoRepeats(s.leaving) && NoRepeats(s.books.closed)
  {
    RunKeeps(maxIdle, states, steps, n);
  }

  /** What a step hands to a request was open until then and in nobody's hands; and what is closed stays closed. */
  lemma HandedOutOpen(maxIdle: int, states: seq<State>, steps: seq<Step>, n: nat, req: nat, conn: nat)
    requires Run(maxIdle, states, steps) && n < |steps|
    requires HeldBy(states[n + 1], req, conn) && !HeldBy(states[n], req, conn)
    ensures conn !in states[n].books.closed && conn !in states[n].books.held && conn !in states[n + 1].books.closed
    ensures states[n].books.closed <= states[n + 1].books.closed
  {
    RunKeeps(maxIdle, states, steps, n);
    RunKeeps(maxIdle, states, steps, n + 1);
    var a, b := states[n], states[n + 1];
    assert Next(maxIdle, a, steps[n], b);
    match steps[n]
    case Begin(r, backend) =>
      var conns := Conns(a.books.idle, backend);
      if r == req && conns != [] {
        TookBalanced(a.books, backend);
      }
    case Dial(r, ok) =>
    case Exchange(r, outcome) =>
    case CloseBody(r, intact, now) =>
    case Sweep(cut, now, out) =>
    case CloseNext =>
  }

  lemma {:induction false} DialledGrows(maxIdle: int, states: seq<State>, steps: seq<Step>, m: nat, n: nat)
    requires Run(maxIdle, states, steps) && m <= n < |states|
    ensures states[m].books.dialled <= states[n].books.dialled
  {
    if m < n {
      DialledGrows(maxIdle, states, steps, m, n - 1);
      assert Next(maxIdle, states[n - 1], steps[n - 1], states[n]);
    }
  }

  /** Step `m` closes the body of a response. */
  predicate Closes(states: seq<State>, steps: seq<Step>, m: nat, body: Body) {
    && m < |steps| && m < |states| && steps[m].CloseBody?
    && steps[m].req in states[m].stages && states[m].stages[steps[m].req] == Streaming(body)
  }

  /**
   A body must be closed only once.  A second Close, at any time after the first, drains a body that is closed already,
   which fails unless it was empty: then the connection is closed again, otherwise it is returned again.  Either way,
   and wherever the connection has got to meanwhile, it is then not in exactly one place.
   */
  lemma SecondCloseBreaks(maxIdle: int, states: seq<State>, steps: seq<Step>, m: nat, n: nat, body: Body, empty: bool,
    now: int)
    requires Run(maxIdle, states, steps) && m < n < |states| && Closes(states, steps, m, body)
    ensures !Inv(maxIdle, states[n].(books := BodyClosed(states[n].books, body, empty, now, maxIdle)))
  {
    RunKeeps(maxIdle, states, steps, m);
    assert HeldBy(states[m], steps[m].req, body.conn);
    DialledGrows(maxIdle, states, steps, m, n);
    RunKeeps(maxIdle, states, steps, n);
    GivenUpBySomebodyElse(maxIdle, states[n], body, empty, now);
  }

  /** Giving up a connection without ending the request that holds it, if one does, breaks the invariant. */
  lemma GivenUpBySomebodyElse(maxIdle: int, s: State, body: Body, empty: bool, now: int)
    requires Inv(maxIdle, s) && body.conn < s.books.dialled
    ensures !Inv(maxIdle, s.(books := BodyClosed(s.books, body, empty, now, maxIdle)))
  {
    var s' := s.(books := BodyClosed(s.books, body, empty, now, maxIdle));
    if body.conn in s.books.held {
      if body.conn !in s.leaving {
        var req :| HeldBy(s, req, body.conn);
        assert HeldBy(s', req, body.conn);
      }
    } else {
      GivenUpTwice(s.books, body.backend, Slot(body.conn, now), maxIdle);
    }
  }
}
