/** The outcomes of iptables commands to come, and loops over the keys of a map that use them up. */
module Scripts {

  /** When the outcomes are used up every command succeeds. */
  predicate Succeeds(script: seq<bool>) {
    script == [] || script[0]
  }

  function Rest(script: seq<bool>): seq<bool> {
    if script == [] then [] else script[1..]
  }

  /** No command fails. */
  predicate Steady(script: seq<bool>) {
    forall i | 0 <= i < |script| :: script[i]
  }

  /** The outcome of the `i`-th command, counting from zero. */
  predicate Outcome(script: seq<bool>, i: nat) {
    i < |script| ==> script[i]
  }

  /** What is left after `n` commands. */
  function Dropped(script: seq<bool>, n: nat): seq<bool> {
    if n <= |script| then script[n..] else []
  }

  lemma StaysSteady(script: seq<bool>)
    requires Steady(script)
    ensures Succeeds(script) && Steady(Rest(script))
  {
  }

  lemma DroppedNext(script: seq<bool>, n: nat)
    ensures Succeeds(Dropped(script, n)) <==> Outcome(script, n)
    ensures Rest(Dropped(script, n)) == Dropped(script, n + 1)
  {
  }

  lemma DroppedTwice(script: seq<bool>, n: nat, i: nat)
    ensures Outcome(Dropped(script, n), i) <==> Outcome(script, n + i)
    ensures Dropped(Dropped(script, n), i) == Dropped(script, n + i)
  {
  }

  ghost predicate Distinct(order: seq<string>) {
    forall i, j | 0 <= i < j < |order| :: order[i] != order[j]
  }

  ghost predicate Enumerates(order: seq<string>, keys: set<string>) {
    Distinct(order) && forall k :: k in order <==> k in keys
  }

  lemma Position(order: seq<string>, keys: set<string>, k: string) returns (t: nat)
    requires Enumerates(order, keys) && k in keys
    ensures t < |order| && order[t] == k
  {
    assert k in order;
    t :| 0 <= t < |order| && order[t] == k;
  }

  lemma {:induction false} EnumeratesAll(order: seq<string>, keys: set<string>)
    requires Enumerates(order, keys)
    ensures |order| == |keys|
  {
    if order == [] {
      assert keys == {};
    } else {
      var n := |order| - 1;
      assert forall k :: k in order[..n] <==> k in order && k != order[n];
      EnumeratesAll(order[..n], keys - {order[n]});
    }
  }

  /** All keys but those in `todo` have been taken, in this order, except the ones left out. */
  ghost predicate Taken(order: seq<string>, all: set<string>, todo: set<string>, leftOut: set<string>) {
    todo <= all && Distinct(order) && forall k :: k in order <==> k in all && k !in todo && k !in leftOut
  }

  lemma TakenMore(order: seq<string>, all: set<string>, todo: set<string>, leftOut: set<string>, key: string)
    requires Taken(order, all, todo, leftOut) && key in todo
    ensures Taken(if key in leftOut then order else order + [key], all, todo - {key}, leftOut)
  {
  }
}
