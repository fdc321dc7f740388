/** The pool of idle backend connections (pkg/http/pool.go). */
module Pool {
  import opened Wrappers
  import opened Ledger

  ghost predicate Ordered(conns: seq<Slot>) {
    forall i, j | 0 <= i < j < |conns| :: conns[i].idleTime <= conns[j].idleTime
  }

  /** Lists are never stored empty, never longer than maxIdle, and ordered by idle time up to now. */
  ghost predicate Shape(idle: Idle, maxIdle: int, clock: int) {
    forall b | b in idle ::
      && 0 < |idle[b]| <= maxIdle && Ordered(idle[b])
      && forall i | 0 <= i < |idle[b]| :: idle[b][i].idleTime <= clock
  }

  lemma ShapeAfterCut(idle: Idle, maxIdle: int, clock: int, backend: string, n: nat, idle': Idle)
    requires Shape(idle, maxIdle, clock) && n <= |Conns(idle, backend)|
    requires idle' == Stored(idle, backend, Conns(idle, backend)[n..])
    ensures Shape(idle', maxIdle, clock)
  {
  }

  /** Every list but that of `backend` is as it was. */
  ghost predicate OthersKept(before: Idle, now: Idle, backend: string) {
    forall b | b != backend :: (b in now <==> b in before) && (b in before ==> now[b] == before[b])
  }

  /**
   Last in, first out: a Get right after a Put that found room hands out the connection just returned, and leaves
   the pool, the connections in somebody's hands and those closed as they were before the Put.
   */
  lemma GetUndoesPut(b: Books, maxIdle: int, clock: int, backend: string, slot: Slot)
    requires Shape(b.idle, maxIdle, clock) && slot.conn in b.held
    requires 0 < maxIdle && (backend in b.idle ==> |b.idle[backend]| < maxIdle)
    ensures var returned := Returned(b, backend, slot, maxIdle);
      backend in returned.idle && Last(returned.idle[backend]) == slot && Took(returned, backend) == b
  {
    var returned := Returned(b, backend, slot, maxIdle);
    assert Conns(returned.idle, backend) == Conns(b.idle, backend) + [slot];
    assert returned.held + {slot.conn} == b.held;
    assert Took(returned, backend).idle == b.idle;
  }

  /** How many connections at the front of the list have been idle for longer than the timeout. */
  ghost function OverAge(conns: seq<Slot>, now: int, timeout: int): (n: nat)
    ensures n <= |conns|
    ensures forall i | 0 <= i < n :: now - conns[i].idleTime > timeout
    ensures n < |conns| ==> now - conns[n].idleTime <= timeout
  {
    if conns == [] || now - conns[0].idleTime <= timeout then 0 else 1 + OverAge(conns[1..], now, timeout)
  }

  /** In an ordered list the over-age connections are exactly a prefix. */
  lemma OverAgeIsPrefix(conns: seq<Slot>, now: int, timeout: int)
    requires Ordered(conns)
    ensures forall i | 0 <= i < |conns| :: now - conns[i].idleTime > timeout <==> i < OverAge(conns, now, timeout)
  {
  }

  function Ids(conns: seq<Slot>): (ids: seq<nat>)
    ensures |ids| == |conns| && forall i | 0 <= i < |conns| :: ids[i] == conns[i].conn
  {
    seq(|conns|, i requires 0 <= i < |conns| => conns[i].conn)
  }

  /** How much of the front of a list leaves the pool: the over-age connections, or everything when the pool closes. */
  datatype Cut = Everything | OlderThan(now: int, timeout: int) {
    ghost function Length(conns: seq<Slot>): (n: nat)
      ensures n <= |conns|
    {
      match this
      case Everything => |conns|
      case OlderThan(now, timeout) => OverAge(conns, now, timeout)
    }
  }

  ghost predicate CutFrom(idle: Idle, cut: Cut, backend: string, conn: nat) {
    exists i: nat :: i < cut.Length(Conns(idle, backend)) && Conns(idle, backend)[i].conn == conn
  }

  ghost predicate SweptAt(before: Idle, now: Idle, cut: Cut, todo: set<string>, backend: string) {
    var conns := Conns(before, backend);
    Conns(now, backend) == if backend in todo then conns else conns[cut.Length(conns)..]
  }

  ghost predicate LeftFrom(before: Idle, cut: Cut, todo: set<string>, conn: nat) {
    exists b :: b !in todo && CutFrom(before, cut, b, conn)
  }

  ghost predicate NoneEmpty(idle: Idle) {
    forall b | b in idle :: idle[b] != []
  }

  /** The lists of all backends outside `todo` have been cut. */
  ghost predicate Swept(before: Idle, now: Idle, cut: Cut, todo: set<string>) {
    NoneEmpty(now) && forall b :: SweptAt(before, now, cut, todo, b)
  }

  lemma ShapeAfterSweep(before: Idle, now: Idle, cut: Cut, maxIdle: int, clock: int)
    requires Shape(before, maxIdle, clock) && Swept(before, now, cut, {})
    ensures Shape(now, maxIdle, clock)
  {
    forall b | b in now
      ensures b in before && |now[b]| <= |before[b]| && now[b] == before[b][|before[b]| - |now[b]|..]
    {
      assert SweptAt(before, now, cut, {}, b);
    }
  }

  /** The connections that left in doing so. */
  ghost predicate Leavers(before: Idle, cut: Cut, todo: set<string>, out: seq<nat>) {
    NoRepeats(out) && forall conn :: conn in out <==> LeftFrom(before, cut, todo, conn)
  }

  /** `held` are the connections held before the sweep and those that left the pool since. */
  ghost predicate HoldsAlso(held: set<nat>, before: set<nat>, out: seq<nat>) {
    (forall conn :: conn in held <==> conn in before || conn in out) && forall conn | conn in out :: conn !in before
  }

  ghost predicate Sweeping(before: Idle, now: Idle, cut: Cut, todo: set<string>, out: seq<nat>, held0: set<nat>,
    held: set<nat>)
  {
    Swept(before, now, cut, todo) && Leavers(before, cut, todo, out) && HoldsAlso(held, held0, out)
  }

  lemma SweepStart(idle: Idle, cut: Cut, keys: set<string>, held: set<nat>)
    requires keys == idle.Keys && NoneEmpty(idle)
    ensures Sweeping(idle, idle, cut, keys, [], held, held)
  {
  }

  lemma IdsDistinct(idle: Idle, backend: string, n: nat)
    requires OneSlotEach(idle) && n <= |Conns(idle, backend)|
    ensures NoRepeats(Ids(Conns(idle, backend)[..n]))
  {
    var conns := Conns(idle, backend);
    forall i, j | 0 <= i < j < n ensures conns[i].conn != conns[j].conn {
      assert At(idle, backend, i, conns[i].conn) && At(idle, backend, j, conns[j].conn);
    }
  }

  /** The front of a list goes into somebody's hands. */
  lemma FrontTaken(b: Books, backend: string, n: nat, ids: seq<nat>, b': Books)
    requires Balanced(b) && n <= |Conns(b.idle, backend)|
    requires ids == Ids(Conns(b.idle, backend)[..n])
    requires b' == b.(idle := Stored(b.idle, backend, Conns(b.idle, backend)[n..]), held := b'.held)
    requires forall conn :: conn in b'.held <==> conn in b.held || conn in ids
    ensures Balanced(b')
    ensures NoRepeats(ids) && forall conn | conn in ids :: conn !in b.held
  {
    var conns := Conns(b.idle, backend);
    var gone := set conn | conn in ids;
    forall conn ensures conn in gone <==> exists i :: 0 <= i < |conns| && !(n <= i < |conns|) && conns[i].conn == conn {
      if i :| 0 <= i < |conns| && !(n <= i < |conns|) && conns[i].conn == conn {
        assert ids[i] == conn;
      }
    }
    TakenOut(b, backend, n, |conns|, gone);
    assert conns[n..|conns|] == conns[n..];
    assert b'.held == b.held + gone;
    IdsDistinct(b.idle, backend, n);
  }

  lemma LeaversStep(before: Idle, cut: Cut, todo: set<string>, out: seq<nat>, backend: string, ids: seq<nat>,
    rest: set<string>, out': seq<nat>)
    requires Leavers(before, cut, todo, out) && backend in todo && rest == todo - {backend}
    requires ids == Ids(Conns(before, backend)[..cut.Length(Conns(before, backend))]) && out' == out + ids
    requires NoRepeats(ids) && forall conn | conn in ids :: conn !in out
    ensures Leavers(before, cut, rest, out')
  {
    forall i, j | 0 <= i < j < |out'| ensures out'[i] != out'[j] {
      if i < |out| <= j {
        assert out'[j] == ids[j - |out|] && out'[i] in out;
      }
    }
    forall conn ensures conn in out' <==> LeftFrom(before, cut, rest, conn) {
      CutIffListed(before, cut, backend, conn, ids);
      assert conn in out' <==> conn in out || conn in ids;
      assert LeftFrom(before, cut, rest, conn) <==>
          LeftFrom(before, cut, todo, conn) || CutFrom(before, cut, backend, conn);
    }
  }

  lemma CutIffListed(before: Idle, cut: Cut, backend: string, conn: nat, ids: seq<nat>)
    requires ids == Ids(Conns(before, backend)[..cut.Length(Conns(before, backend))])
    ensures conn in ids <==> CutFrom(before, cut, backend, conn)
  {
  }

  lemma SweptStepAt(before: Idle, idle: Idle, cut: Cut, todo: set<string>, backend: string, idle': Idle, b: string)
    requires SweptAt(before, idle, cut, todo, b) && SweptAt(before, idle, cut, todo, backend) && backend in todo
    requires idle' == Stored(idle, backend, Conns(before, backend)[cut.Length(Conns(before, backend))..])
    ensures SweptAt(before, idle', cut, todo - {backend}, b)
  {
    if b == backend {
      assert Conns(idle', b) == Conns(before, b)[cut.Length(Conns(before, b))..];
    } else {
      assert Conns(idle', b) == Conns(idle, b);
    }
  }

  lemma SweptStep(before: Idle, idle: Idle, cut: Cut, todo: set<string>, backend: string, rest: set<string>,
    idle': Idle)
    requires Swept(before, idle, cut, todo) && backend in todo && rest == todo - {backend}
    requires idle' == Stored(idle, backend, Conns(before, backend)[cut.Length(Conns(before, backend))..])
    ensures Swept(before, idle', cut, rest)
  {
    forall b ensures SweptAt(before, idle', cut, rest, b) {
      assert SweptAt(before, idle, cut, todo, b) && SweptAt(before, idle, cut, todo, backend);
      SweptStepAt(before, idle, cut, todo, backend, idle', b);
    }
  }

  /** One backend more is swept. */
  lemma SweepStep(before: Idle, b: Books, cut: Cut, todo: set<string>, out: seq<nat>, held0: set<nat>,
    backend: string, rest: set<string>, ids: seq<nat>, b': Books)
    requires Sweeping(before, b.idle, cut, todo, out, held0, b.held) && Balanced(b)
    requires backend in todo && rest == todo - {backend}
    requires ids == Ids(Conns(before, backend)[..cut.Length(Conns(before, backend))])
    requires b' == b.(held := b'.held,
                      idle := Stored(b.idle, backend, Conns(before, backend)[cut.Length(Conns(before, backend))..]))
    requires forall conn :: conn in b'.held <==> conn in b.held || conn in ids
    ensures Sweeping(before, b'.idle, cut, rest, out + ids, held0, b'.held) && Balanced(b')
  {
    assert SweptAt(before, b.idle, cut, todo, backend);
    FrontTaken(b, backend, cut.Length(Conns(before, backend)), ids, b');
    LeaversStep(before, cut, todo, out, backend, ids, rest, out + ids);
    SweptStep(before, b.idle, cut, todo, backend, rest, b'.idle);
  }

  /** The connections handed to the operating system: numbered as dialled, with the log of closings. */
  class Network {
    var dialled: nat
    var closed: seq<nat>
    /** Connections in somebody's hands: neither pooled nor closed. */
    ghost var held: set<nat>

    constructor ()
      ensures dialled == 0 && closed == [] && held == {}
    {
      dialled, closed, held := 0, [], {};
    }

    method Dial(ok: bool) returns (conn: Option<nat>)
      modifies this
      ensures closed == old(closed)
      ensures conn == if ok then Some(old(dialled)) else None
      ensures dialled == old(dialled) + if ok then 1 else 0
      ensures held == old(held) + if ok then {old(dialled)} else {}
    {
      if !ok {
        return None;
      }
      conn := Some(dialled);
      held := held + {dialled};
      dialled := dialled + 1;
    }

    method Close(conn: nat)
      modifies this
      ensures dialled == old(dialled) && closed == old(closed) + [conn] && held == old(held) - {conn}
    {
      closed, held := closed + [conn], held - {conn};
    }
  }

  class ConnPool {
    const net: Network
    const maxIdle: int
    const idleTimeout: int
    var idle: Idle
    var stopped: bool
    /** The time of the last operation: clock readings never go back. */
    ghost var clock: int

    ghost function Here(): Books
      reads this, net
    {
      Books(idle, net.held, net.closed, net.dialled)
    }

    ghost predicate Valid()
      reads this, net
    {
      Shape(idle, maxIdle, clock) && Balanced(Here())
    }

    constructor (net: Network, maxIdle: int, idleTimeout: int)
      requires net.dialled == 0 && net.closed == [] && net.held == {}
      ensures Valid() && this.net == net && this.maxIdle == maxIdle && this.idleTimeout == idleTimeout
      ensures idle == map[] && !stopped
    {
      this.net, this.maxIdle, this.idleTimeout := net, maxIdle, idleTimeout;
      idle, stopped, clock := map[], false, 0;
    }

    /** The most recently returned connection of the backend, which was open and is then in the caller's hands. */
    method Get(backend: string) returns (r: Option<nat>)
      requires Valid()
      modifies this`idle, net`held
      ensures Valid()
      ensures backend !in old(idle) ==> r == None && Here() == old(Here())
      ensures backend in old(idle) ==>
        var conns := old(idle)[backend];
        && r == Some(conns[|conns| - 1].conn) && Here() == Took(old(Here()), backend)
        && (if |conns| == 1 then backend !in idle else backend in idle && idle[backend] == conns[..|conns| - 1])
        && OthersKept(old(idle), idle, backend) && net.held == old(net.held) + {r.value}
        && r.value !in old(net.held) && r.value !in net.closed && r.value < net.dialled
    {
      var conns := Conns(idle, backend);
      if |conns| == 0 {
        return None;
      }
      TookBalanced(Here(), backend);
      var slot := conns[|conns| - 1];
      conns := conns[..|conns| - 1];
      if |conns| == 0 {
        idle := idle - {backend};
      } else {
        idle := idle[backend := conns];
      }
      net.held := net.held + {slot.conn};
      r := Some(slot.conn);
    }

    /** A connection comes back: it is pooled behind the others if there is room, and closed otherwise. */
    method Put(backend: string, conn: nat, now: int)
      requires Valid() && conn in net.held && clock <= now
      modifies this`idle, this`clock, net
      ensures Valid() && clock == now && Here() == Returned(old(Here()), backend, Slot(conn, now), maxIdle)
      ensures net.held == old(net.held) - {conn} && net.dialled == old(net.dialled)
      ensures 0 < maxIdle && |Conns(old(idle), backend)| < maxIdle ==>
        && backend in idle && OthersKept(old(idle), idle, backend) && net.closed == old(net.closed)
        && idle[backend] == (if backend in old(idle) then old(idle)[backend] else []) + [Slot(conn, now)]
      ensures maxIdle <= 0 || |Conns(old(idle), backend)| >= maxIdle ==>
        idle == old(idle) && net.closed == old(net.closed) + [conn]
    {
      ReturnedBalanced(Here(), backend, Slot(conn, now), maxIdle);
      clock := now;
      if maxIdle <= 0 || |Conns(idle, backend)| >= maxIdle {
        net.Close(conn);
        return;
      }
      idle := idle[backend := Conns(idle, backend) + [Slot(conn, now)]];
      net.held := net.held - {conn};
    }

    method Discard(conn: nat)
      requires Valid() && conn in net.held
      modifies net
      ensures Valid() && Here() == Closed(old(Here()), conn)
    {
      ClosedBalanced(Here(), conn);
      net.Close(conn);
    }

    /** The closing of what a sweep took out, outside the mutex. */
    method CloseAll(out: seq<nat>, ghost held0: set<nat>)
      requires Valid() && NoRepeats(out) && HoldsAlso(net.held, held0, out)
      modifies net
      ensures Valid() && net.dialled == old(net.dialled) && net.closed == old(net.closed) + out && net.held == held0
    {
      for i := 0 to |out|
        invariant Valid() && net.dialled == old(net.dialled) && net.closed == old(net.closed) + out[..i]
        invariant HoldsAlso(net.held, held0, out[i..])
      {
        assert out[i..] == [out[i]] + out[i + 1..];
        Discard(out[i]);
        assert out[..i + 1] == out[..i] + [out[i]];
      }
    }

    /** The inner loop of cleanup. */
    method Split(conns: seq<Slot>, now: int) returns (expired: seq<nat>, kept: seq<Slot>)
      requires Ordered(conns)
      ensures var n := OverAge(conns, now, idleTimeout); expired == Ids(conns[..n]) && kept == conns[n..]
    {
      ghost var n := OverAge(conns, now, idleTimeout);
      OverAgeIsPrefix(conns, now, idleTimeout);
      expired, kept := [], [];
      for i := 0 to |conns|
        invariant expired == Ids(conns[..if i < n then i else n])
        invariant kept == conns[if i < n then i else n..i]
      {
        if now - conns[i].idleTime > idleTimeout {
          expired := expired + [conns[i].conn];
          continue;
        }
        kept := kept + [conns[i]];
      }
    }

    /** The part of cleanup under the mutex: the over-age connections leave the pool, into the caller's hands. */
    method TakeExpired(now: int) returns (expired: seq<nat>)
      requires Valid() && clock <= now
      modifies this`idle, this`clock, net`held
      ensures Valid() && clock == now
      ensures Sweeping(old(idle), idle, OlderThan(now, idleTimeout), {}, expired, old(net.held), net.held)
    {
      ghost var before, held0, cut := idle, net.held, OlderThan(now, idleTimeout);
      clock := now;
      expired := [];
      var todo := idle.Keys;
      SweepStart(idle, cut, todo, held0);
      while todo != {}
        invariant Valid() && clock == now && todo <= before.Keys
        invariant net.dialled == old(net.dialled) && net.closed == old(net.closed)
        invariant Sweeping(before, idle, cut, todo, expired, held0, net.held)
      {
        var backend :| backend in todo;
        expired := SweepBackend(backend, now, expired, before, todo, held0);
        todo := todo - {backend};
      }
    }

    /** cleanup closes exactly the over-age connections, the front of each list, and leaves the rest in order. */
    method Cleanup(now: int)
      requires Valid() && clock <= now
      modifies this`idle, this`clock, net
      ensures Valid() && clock == now && net.dialled == old(net.dialled) && net.held == old(net.held)
      ensures forall b :: Conns(idle, b) == Conns(old(idle), b)[OverAge(Conns(old(idle), b), now, idleTimeout)..]
      ensures old(net.closed) <= net.closed
      ensures forall conn :: conn in net.closed[|old(net.closed)|..] <==>
        exists b :: CutFrom(old(idle), OlderThan(now, idleTimeout), b, conn)
    {
      ghost var before, held0, cut := idle, net.held, OlderThan(now, idleTimeout);
      var expired := TakeExpired(now);
      CloseAll(expired, held0);
      forall b ensures Conns(idle, b) == Conns(before, b)[OverAge(Conns(before, b), now, idleTimeout)..] {
        assert SweptAt(before, idle, cut, {}, b);
      }
      forall conn ensures conn in expired <==> exists b :: CutFrom(before, cut, b, conn) {
        assert conn in expired <==> LeftFrom(before, cut, {}, conn);
      }
    }

    method SweepBackend(backend: string, now: int, expired0: seq<nat>, ghost before: Idle, ghost todo: set<string>,
      ghost held0: set<nat>)
      returns (expired: seq<nat>)
      requires Valid() && backend in todo && todo <= before.Keys
      requires Sweeping(before, idle, OlderThan(now, idleTimeout), todo, expired0, held0, net.held)
      modifies this`idle, net`held
      ensures Valid() && net.dialled == old(net.dialled) && net.closed == old(net.closed)
      ensures Sweeping(before, idle, OlderThan(now, idleTimeout), todo - {backend}, expired, held0, net.held)
    {
      ghost var books := Here();
      assert SweptAt(before, idle, OlderThan(now, idleTimeout), todo, backend);
      var out, kept := Split(Conns(idle, backend), now);
      if |kept| == 0 {
        idle := idle - {backend};
      } else {
        idle := idle[backend := kept];
      }
      expired := expired0 + out;
      net.held := net.held + set conn | conn in out;
      ShapeAfterCut(books.idle, maxIdle, clock, backend, OverAge(Conns(books.idle, backend), now, idleTimeout), idle);
      SweepStep(before, books, OlderThan(now, idleTimeout), todo, expired0, held0, backend, todo - {backend}, out,
        Here());
    }

    /** The part of Close under the mutex: everything leaves the pool. */
    method TakeAll() returns (out: seq<nat>)
      requires Valid()
      modifies this`idle, net`held
      ensures Valid() && idle == map[]
      ensures Sweeping(old(idle), idle, Everything, {}, out, old(net.held), net.held)
    {
      ghost var before, held0 := idle, net.held;
      out := [];
      var todo := idle.Keys;
      SweepStart(idle, Everything, todo, held0);
      while todo != {}
        invariant Valid() && todo <= before.Keys && idle.Keys == todo
        invariant net.dialled == old(net.dialled) && net.closed == old(net.closed)
        invariant Sweeping(before, idle, Everything, todo, out, held0, net.held)
      {
        var backend :| backend in todo;
        out := TakeBackend(backend, out, before, todo, held0);
        todo := todo - {backend};
      }
    }

    method TakeBackend(backend: string, out0: seq<nat>, ghost before: Idle, ghost todo: set<string>,
      ghost held0: set<nat>)
      returns (out: seq<nat>)
      requires Valid() && backend in todo && backend in idle
      requires Sweeping(before, idle, Everything, todo, out0, held0, net.held)
      modifies this`idle, net`held
      ensures Valid() && idle == old(idle) - {backend}
      ensures net.dialled == old(net.dialled) && net.closed == old(net.closed)
      ensures Sweeping(before, idle, Everything, todo - {backend}, out, held0, net.held)
    {
      ghost var books := Here();
      assert SweptAt(before, idle, Everything, todo, backend);
      var conns := Ids(idle[backend]);
      out := out0 + conns;
      idle := idle - {backend};
      net.held := net.held + set conn | conn in conns;
      EverythingGoes(before, backend);
      SweepStep(before, books, Everything, todo, out0, held0, backend, todo - {backend}, conns, Here());
    }

    /** Close empties the pool and closes every connection in it, the first time it is called. */
    method Close()
      requires Valid()
      modifies this`idle, this`stopped, net
      ensures Valid() && stopped && net.dialled == old(net.dialled) && net.held == old(net.held)
      ensures old(stopped) ==> idle == old(idle) && net.closed == old(net.closed)
      ensures !old(stopped) ==>
        && idle == map[] && old(net.closed) <= net.closed
        && forall conn :: conn in net.closed[|old(net.closed)|..] <==> InPool(old(idle), conn)
    {
      if stopped {
        return;
      }
      stopped := true;
      ghost var before, held0 := idle, net.held;
      var connsToClose := TakeAll();
      CloseAll(connsToClose, held0);
      forall conn ensures conn in connsToClose <==> InPool(before, conn) {
        assert conn in connsToClose <==> LeftFrom(before, Everything, {}, conn);
        EverythingIsInPool(before, conn);
      }
    }
  }

  lemma EverythingGoes(idle: Idle, backend: string)
    ensures var conns := Conns(idle, backend); conns[|conns|..] == [] && conns[..|conns|] == conns
  {
  }

  lemma EverythingIsInPool(idle: Idle, conn: nat)
    ensures (exists b :: CutFrom(idle, Everything, b, conn)) <==> InPool(idle, conn)
  {
    if b :| CutFrom(idle, Everything, b, conn) {
      var i: nat :| i < |Conns(idle, b)| && Conns(idle, b)[i].conn == conn;
      assert At(idle, b, i, conn);
    }
    if b, i: nat :| At(idle, b, i, conn) {
      assert i < Everything.Length(Conns(idle, b)) && Conns(idle, b)[i].conn == conn;
      assert CutFrom(idle, Everything, b, conn);
    }
  }
}
