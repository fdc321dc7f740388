/**
 Where every connection of the HTTP proxy is (pkg/http/pool.go, pkg/http/transport.go): in somebody's hands, idle in
 one slot of the pool, or closed.
 */
module Ledger {

  /** A pooled connection; connections are numbered in the order they were dialled. */
  datatype Slot = Slot(conn: nat, idleTime: int)

  type Idle = map<string, seq<Slot>>

  function Conns(idle: Idle, backend: string): seq<Slot> {
    if backend in idle then idle[backend] else []
  }

  /** No backend is kept with an empty list. */
  function Stored(idle: Idle, backend: string, conns: seq<Slot>): (r: Idle)
    ensures forall b :: Conns(r, b) == if b == backend then conns else Conns(idle, b)
  {
    if conns == [] then idle - {backend} else idle[backend := conns]
  }

  ghost predicate At(idle: Idle, backend: string, i: nat, conn: nat) {
    backend in idle && i < |idle[backend]| && idle[backend][i].conn == conn
  }

  ghost predicate InPool(idle: Idle, conn: nat) {
    exists backend, i: nat :: At(idle, backend, i, conn)
  }

  ghost predicate OneSlotEach(idle: Idle) {
    forall conn, b1, i1: nat, b2, i2: nat | At(idle, b1, i1, conn) && At(idle, b2, i2, conn) :: b1 == b2 && i1 == i2
  }

  ghost predicate NoRepeats(s: seq<nat>) {
    forall i, j | 0 <= i < j < |s| :: s[i] != s[j]
  }

  /** Where the connections are: idle in the pool, in somebody's hands, or closed, with the log of closings. */
  datatype Books = Books(idle: Idle, held: set<nat>, closed: seq<nat>, dialled: nat)

  /** Every dialled connection is in exactly one place, and was closed at most once. */
  ghost predicate Balanced(b: Books) {
    && OneSlotEach(b.idle) && NoRepeats(b.closed)
    && (forall conn | conn in b.held :: conn < b.dialled && !InPool(b.idle, conn) && conn !in b.closed)
    && (forall conn: nat | InPool(b.idle, conn) :: conn < b.dialled && conn !in b.closed)
    && (forall conn | conn in b.closed :: conn < b.dialled)
    && (forall conn: nat | conn < b.dialled :: conn in b.held || InPool(b.idle, conn) || conn in b.closed)
  }

  // ----- What happens to a connection -----

  function Last(conns: seq<Slot>): Slot
    requires conns != []
  {
    conns[|conns| - 1]
  }

  /** The most recently returned connection of a backend is handed out. */
  function Took(b: Books, backend: string): Books
    requires Conns(b.idle, backend) != []
  {
    var conns := Conns(b.idle, backend);
    b.(idle := Stored(b.idle, backend, conns[..|conns| - 1]), held := b.held + {Last(conns).conn})
  }

  function Dialled(b: Books): Books {
    b.(held := b.held + {b.dialled}, dialled := b.dialled + 1)
  }

  function Closed(b: Books, conn: nat): Books {
    b.(held := b.held - {conn}, closed := b.closed + [conn])
  }

  /** A connection comes back: it is pooled behind the others if there is room, and closed otherwise. */
  function Returned(b: Books, backend: string, slot: Slot, maxIdle: int): Books {
    var conns := Conns(b.idle, backend);
    if maxIdle <= 0 || |conns| >= maxIdle then Closed(b, slot.conn)
    else b.(idle := Stored(b.idle, backend, conns + [slot]), held := b.held - {slot.conn})
  }

  lemma DialledBalanced(b: Books)
    requires Balanced(b)
    ensures Balanced(Dialled(b)) && b.dialled !in b.held
  {
  }

  lemma ClosedBalanced(b: Books, conn: nat)
    requires Balanced(b) && conn in b.held
    ensures Balanced(Closed(b, conn))
  {
  }

  /** Connections are taken out of one list, and are then in somebody's hands. */
  lemma TakenOut(b: Books, backend: string, from: nat, to: nat, out: set<nat>)
    requires Balanced(b) && from <= to <= |Conns(b.idle, backend)|
    requires forall conn :: conn in out <==>
      exists i :: 0 <= i < |Conns(b.idle, backend)| && !(from <= i < to) && Conns(b.idle, backend)[i].conn == conn
    ensures Balanced(b.(idle := Stored(b.idle, backend, Conns(b.idle, backend)[from..to]), held := b.held + out))
    ensures out !! b.held
  {
    var idle, conns := b.idle, Conns(b.idle, backend);
    var idle' := Stored(idle, backend, conns[from..to]);
    forall b, i: nat, conn | At(idle', b, i, conn) ensures At(idle, b, if b == backend then i + from else i, conn) {
    }
    assert forall i | 0 <= i < |conns| :: At(idle, backend, i, conns[i].conn);
    forall conn: nat | InPool(idle, conn) && conn !in out ensures InPool(idle', conn) {
      var b, i: nat :| At(idle, b, i, conn);
      assert At(idle', b, if b == backend then i - from else i, conn);
    }
    forall conn | conn in out ensures InPool(idle, conn) && !InPool(idle', conn) {
    }
  }

  lemma TookBalanced(b: Books, backend: string)
    requires Balanced(b) && Conns(b.idle, backend) != []
    ensures Balanced(Took(b, backend))
    ensures var conn := Last(Conns(b.idle, backend)).conn; conn !in b.held && conn !in b.closed && conn < b.dialled
  {
    var conns := Conns(b.idle, backend);
    assert At(b.idle, backend, |conns| - 1, Last(conns).conn);
    TakenOut(b, backend, 0, |conns| - 1, {Last(conns).conn});
  }

  /** A connection in somebody's hands is appended to a list. */
  lemma PutBack(b: Books, backend: string, slot: Slot)
    requires Balanced(b) && slot.conn in b.held
    ensures Balanced(b.(idle := Stored(b.idle, backend, Conns(b.idle, backend) + [slot]), held := b.held - {slot.conn}))
  {
    var idle, conns := b.idle, Conns(b.idle, backend);
    var idle' := Stored(idle, backend, conns + [slot]);
    forall b, i: nat, conn ensures At(idle', b, i, conn) <==>
      At(idle, b, i, conn) || (b == backend && i == |conns| && conn == slot.conn)
    {
    }
    assert At(idle', backend, |conns|, slot.conn);
    forall conn: nat | InPool(idle, conn) ensures InPool(idle', conn) {
      var b, i: nat :| At(idle, b, i, conn);
      assert At(idle', b, i, conn);
    }
  }

  lemma ReturnedBalanced(b: Books, backend: string, slot: Slot, maxIdle: int)
    requires Balanced(b) && slot.conn in b.held
    ensures Balanced(Returned(b, backend, slot, maxIdle))
  {
    if maxIdle <= 0 || |Conns(b.idle, backend)| >= maxIdle {
      ClosedBalanced(b, slot.conn);
    } else {
      PutBack(b, backend, slot);
    }
  }

  /**
   Giving up a connection that is not in anybody's hands, whether by closing it or by returning it, upsets the books:
   it is then closed twice, or closed and idle, or idle in two slots.
   */
  lemma GivenUpTwice(b: Books, backend: string, slot: Slot, maxIdle: int)
    requires Balanced(b) && slot.conn < b.dialled && slot.conn !in b.held
    ensures !Balanced(Closed(b, slot.conn)) && !Balanced(Returned(b, backend, slot, maxIdle))
  {
    ClosedTwice(b, slot.conn);
    var conns := Conns(b.idle, backend);
    if !(maxIdle <= 0 || |conns| >= maxIdle) {
      var idle' := Returned(b, backend, slot, maxIdle).idle;
      assert At(idle', backend, |conns|, slot.conn);
      if InPool(b.idle, slot.conn) {
        var b1, i: nat :| At(b.idle, b1, i, slot.conn);
        assert At(idle', b1, i, slot.conn);
      }
    }
  }

  lemma ClosedTwice(b: Books, conn: nat)
    requires Balanced(b) && conn < b.dialled && conn !in b.held
    ensures !Balanced(Closed(b, conn))
  {
    var closed := b.closed + [conn];
    if conn in b.closed {
      var i :| 0 <= i < |b.closed| && b.closed[i] == conn;
      assert closed[i] == closed[|b.closed|];
    } else {
      assert InPool(b.idle, conn) && conn in closed;
    }
  }
}
