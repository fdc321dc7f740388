/** Round-robin choice of a backend (pkg/http/selector.go). */
module Selector {

  class Service {
    var backends: seq<string>
    var next: nat

    constructor (backends: seq<string>)
      ensures this.backends == backends && next == 0
    {
      this.backends, next := backends, 0;
    }

    method NextBackend() returns (backend: string)
      modifies this`next
      ensures backends == [] ==> backend == "" && next == old(next)
      ensures backends != [] ==> backend == backends[Position(old(next), |backends|)] && next == old(next) + 1
    {
      if |backends| == 0 {
        return "";
      }
      backend := backends[next % |backends|];
      next := next + 1;
    }
  }

  /** The position a call chooses when the counter is at `next`. */
  function Position(next: nat, k: nat): (p: nat)
    requires k > 0
    ensures p < k
  {
    next % k
  }

  /** How often position `p` is chosen by the `n` calls that start with the counter at `next`. */
  function Chosen(next: nat, n: nat, k: nat, p: nat): nat
    requires k > 0
    decreases n
  {
    if n == 0 then 0 else (if Position(next, k) == p then 1 else 0) + Chosen(next + 1, n - 1, k, p)
  }

  lemma PositionMoves(next: nat, k: nat)
    requires k > 0
    ensures Position(next + 1, k) == if Position(next, k) + 1 == k then 0 else Position(next, k) + 1
  {
    var q, r := next / k, next % k;
    assert next == q * k + r;
    if r + 1 == k {
      assert next + 1 == (q + 1) * k;
      Quotient(q + 1, 0, k);
    } else {
      Quotient(q, r + 1, k);
    }
  }

  lemma Quotient(q: nat, r: nat, k: nat)
    requires r < k
    ensures (q * k + r) / k == q && (q * k + r) % k == r
  {
    var x := q * k + r;
    assert x == (x / k) * k + x % k;
    SameMultiple(x / k, x % k, q, r, k);
  }

  lemma SameMultiple(q1: int, r1: nat, q2: int, r2: nat, k: nat)
    requires q1 * k + r1 == q2 * k + r2 && r1 < k && r2 < k
    ensures q1 == q2
  {
    Scaled(q1 + 1, q2, k);
    Scaled(q2 + 1, q1, k);
    Scaled(q1, q2, k);
    Scaled(q2, q1, k);
  }

  lemma Scaled(a: int, b: int, k: nat)
    ensures a <= b ==> a * k <= b * k
    ensures (a + 1) * k == a * k + k
  {
  }

  /** Calls made before position `p` is chosen next. */
  function Wait(next: nat, k: nat, p: nat): (d: nat)
    requires k > 0 && p < k
    ensures d < k
  {
    if p >= Position(next, k) then p - Position(next, k) else p + k - Position(next, k)
  }

  lemma OneRoundMore(x: nat, k: nat)
    requires k > 0
    ensures (x + k) / k == x / k + 1
  {
    Quotient(x / k + 1, x % k, k);
    assert x + k == (x / k + 1) * k + x % k;
  }

  lemma {:induction false} ChosenEveryRound(next: nat, n: nat, k: nat, p: nat)
    requires k > 0 && p < k
    ensures var d := Wait(next, k, p); Chosen(next, n, k, p) == if n <= d then 0 else 1 + (n - d - 1) / k
    decreases n
  {
    if n > 0 {
      ChosenEveryRound(next + 1, n - 1, k, p);
      PositionMoves(next, k);
      if Position(next, k) == p {
        assert Wait(next + 1, k, p) == k - 1;
        if n <= k {
          Quotient(0, n - 1, k);
        } else {
          OneRoundMore(n - 1 - k, k);
        }
      } else {
        assert Wait(next + 1, k, p) == Wait(next, k, p) - 1;
      }
    }
  }

  lemma DivMonotone(x: nat, y: nat, k: nat)
    requires k > 0 && x <= y
    ensures x / k <= y / k
  {
    var q1, q2 := x / k, y / k;
    assert x == q1 * k + x % k && y == q2 * k + y % k;
    Scaled(q2 + 1, q1, k);
    Scaled(q2, q2, k);
  }

  /**
   Fairness: in any window of `n` consecutive calls over `k` backends every position is chosen n / k times, rounded
   down or rounded up.
   */
  lemma Fair(next: nat, n: nat, k: nat, p: nat)
    requires k > 0 && p < k
    ensures n / k <= Chosen(next, n, k, p) <= (n + k - 1) / k
  {
    ChosenEveryRound(next, n, k, p);
    var d := Wait(next, k, p);
    if n <= d {
      Quotient(0, n, k);
    } else {
      DivMonotone(n - d - 1, n - 1, k);
      OneRoundMore(n - 1, k);
      OneRoundMore(n - d - 1, k);
      DivMonotone(n, n - d - 1 + k, k);
    }
  }
}
