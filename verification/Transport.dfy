/** One HTTP round trip over pooled connections, and the closing of its response body (pkg/http/transport.go). */
module Transport {
  import opened Wrappers
  import opened Ledger
  import opened Pool

  /** The response body, which holds the connection until it is closed. */
  datatype Body = Body(conn: nat, backend: string, reusable: bool)

  /** How sending a request and reading the response ended; `reusable` is the negation of resp.Close. */
  datatype Exchange = Failed | Answered(reusable: bool)

  /** A response body is closed: its connection goes back if body and response allow it, and is closed otherwise. */
  function BodyClosed(b: Books, body: Body, intact: bool, now: int, maxIdle: int): Books {
    if intact && body.reusable then Returned(b, body.backend, Slot(body.conn, now), maxIdle) else Closed(b, body.conn)
  }

  /** One dial, and an exchange on the new connection: one that fails is closed, and no other is dialled. */
  ghost predicate Dials(dialled0: nat, closed0: seq<nat>, backend: string, ok: bool, outcome: Exchange, dialled: nat,
    closed: seq<nat>, r: Option<Body>)
  {
    if !ok then dialled == dialled0 && closed == closed0 && r == None
    else
      && dialled == dialled0 + 1
      && closed == (if outcome.Failed? then closed0 + [dialled0] else closed0)
      && r == match outcome case Failed => None case Answered(reusable) => Some(Body(dialled0, backend, reusable))
  }

  class Transport {
    const net: Network
    const pool: ConnPool

    ghost predicate Valid()
      reads this, pool, net
    {
      pool.net == net && pool.Valid()
    }

    constructor (maxIdle: int, idleTimeout: int)
      ensures Valid() && fresh(net) && fresh(pool) && pool.maxIdle == maxIdle && net.dialled == 0
    {
      var n := new Network();
      var p := new ConnPool(n, maxIdle, idleTimeout);
      net, pool := n, p;
    }

    /** Writes the request and reads the response. */
    method RoundTripConn(backend: string, conn: nat, outcome: Exchange) returns (r: Option<Body>)
      ensures r == match outcome case Failed => None case Answered(reusable) => Some(Body(conn, backend, reusable))
    {
      match outcome
      case Failed => r := None;
      case Answered(reusable) => r := Some(Body(conn, backend, reusable));
    }

    /**
     RoundTrip: `dialOk` and `exchanges` are the outcomes of the one dial and the up to two exchanges it may take.
     A pooled connection that fails is closed and replaced by a dialled one, once; a dialled one that fails is closed
     for good.  The response holds exactly one connection, and every other one obtained on the way has been closed.
     */
    method RoundTrip(backend: string, dialOk: bool, exchanges: (Exchange, Exchange)) returns (r: Option<Body>)
      requires Valid()
      modifies pool, net
      ensures Valid() && pool.clock == old(pool.clock)
      // A pooled connection is taken if there is one, and only the list of this backend changes.
      ensures backend in old(pool.idle) ==>
        var conns := old(pool.idle)[backend]; Conns(pool.idle, backend) == conns[..|conns| - 1]
      ensures backend !in old(pool.idle) ==> backend !in pool.idle
      ensures OthersKept(old(pool.idle), pool.idle, backend)
      // It answers, and nothing is dialled or closed.
      ensures backend in old(pool.idle) && exchanges.0.Answered? ==>
        && r == Some(Body(Last(old(pool.idle)[backend]).conn, backend, exchanges.0.reusable))
        && net.dialled == old(net.dialled) && net.closed == old(net.closed)
      // It fails, and is closed; the dialled one that replaces it decides.
      ensures backend in old(pool.idle) && exchanges.0.Failed? ==>
        Dials(old(net.dialled), old(net.closed) + [Last(old(pool.idle)[backend]).conn], backend, dialOk, exchanges.1,
          net.dialled, net.closed, r)
      // There is none: the dialled one decides.
      ensures backend !in old(pool.idle) ==>
        Dials(old(net.dialled), old(net.closed), backend, dialOk, exchanges.0, net.dialled, net.closed, r)
      // In each case:
      ensures r.Some? ==> r.value.conn !in old(net.held) && r.value.backend == backend
      ensures net.held == old(net.held) + if r.Some? then {r.value.conn} else {}
    {
      var pc := pool.Get(backend);
      var reused := pc.Some?;
      if pc.None? {
        pc := DialNew(dialOk);
        if pc.None? {
          return None;
        }
      }
      r := RoundTripConn(backend, pc.value, exchanges.0);
      if r.Some? {
        return;
      }
      pool.Discard(pc.value);
      if reused {
        pc := DialNew(dialOk);
        if pc.None? {
          return None;
        }
        r := RoundTripConn(backend, pc.value, exchanges.1);
        if r.None? {
          pool.Discard(pc.value);
        }
      }
    }

    method DialNew(ok: bool) returns (conn: Option<nat>)
      requires Valid()
      modifies net
      ensures Valid() && conn == if ok then Some(old(net.dialled)) else None
      ensures pool.Here() == if ok then Dialled(old(pool.Here())) else old(pool.Here())
      ensures ok ==> old(net.dialled) !in old(net.held)
    {
      if ok {
        DialledBalanced(pool.Here());
      }
      conn := net.Dial(ok);
    }

    /** Close of a response body, whose connection is not held any more. */
    method CloseBody(body: Body, copied: bool, closed: bool, now: int)
      requires Valid() && body.conn in net.held && pool.clock <= now
      modifies pool, net
      ensures Valid() && pool.Here() == BodyClosed(old(pool.Here()), body, copied && closed, now, pool.maxIdle)
      ensures net.dialled == old(net.dialled) && net.held == old(net.held) - {body.conn}
      ensures OthersKept(old(pool.idle), pool.idle, body.backend)
      ensures var conns := Conns(old(pool.idle), body.backend);
        if copied && closed && body.reusable && 0 < pool.maxIdle && |conns| < pool.maxIdle then
          Conns(pool.idle, body.backend) == conns + [Slot(body.conn, now)] && net.closed == old(net.closed)
        else pool.idle == old(pool.idle) && net.closed == old(net.closed) + [body.conn]
    {
      if !copied || !closed || !body.reusable {
        pool.Discard(body.conn);
        return;
      }
      pool.Put(body.backend, body.conn, now);
    }
  }
}
