/** Logs of handle calls: which succeeded, and that none is made twice. */
module CallLog {
  import opened Diff

  /** What can be seen of a handle: its table and the calls made on it. */
  datatype View = View(store: Store, calls: seq<Call>)

  ghost function Done(log: seq<Call>): set<Op> {
    if log == [] then {} else
      var c := log[|log| - 1];
      Done(log[..|log| - 1]) + if c.ok then {c.op} else {}
  }

  ghost function Made(log: seq<Call>): set<Op> {
    if log == [] then {} else Made(log[..|log| - 1]) + {log[|log| - 1].op}
  }

  lemma Snoc(log: seq<Call>, c: Call)
    ensures Done(log + [c]) == Done(log) + (if c.ok then {c.op} else {})
    ensures Made(log + [c]) == Made(log) + {c.op}
  {
  }

  lemma {:induction false} Append(a: seq<Call>, b: seq<Call>)
    ensures Done(a + b) == Done(a) + Done(b)
    ensures Made(a + b) == Made(a) + Made(b)
  {
    if b == [] {
      assert a + b == a;
    } else {
      var b', c := b[..|b| - 1], b[|b| - 1];
      assert a + b == a + b' + [c] && b == b' + [c];
      Append(a, b');
      Snoc(a + b', c);
      Snoc(b', c);
    }
  }

  /** The calls made since `before` are those in `tried`, each made once; those in `done` succeeded. */
  ghost predicate Tracks(before: seq<Call>, now: seq<Call>, done: set<Op>, tried: set<Op>) {
    && before <= now
    && Done(now[|before|..]) == done
    && Made(now[|before|..]) == tried
    && |now| == |before| + |tried|
  }

  lemma TracksNothing(log: seq<Call>)
    ensures Tracks(log, log, {}, {})
  {
  }

  lemma TracksStep(before: seq<Call>, now: seq<Call>, done: set<Op>, tried: set<Op>, c: Call)
    requires Tracks(before, now, done, tried) && c.op !in tried
    ensures Tracks(before, now + [c], if c.ok then done + {c.op} else done, tried + {c.op})
  {
    assert (now + [c])[|before|..] == now[|before|..] + [c];
    Snoc(now[|before|..], c);
  }

  lemma TracksCompose(a: seq<Call>, b: seq<Call>, c: seq<Call>, done1: set<Op>, tried1: set<Op>, done2: set<Op>,
    tried2: set<Op>)
    requires Tracks(a, b, done1, tried1) && Tracks(b, c, done2, tried2) && tried1 !! tried2
    ensures Tracks(a, c, done1 + done2, tried1 + tried2)
  {
    assert c[|a|..] == b[|a|..] + c[|b|..];
    Append(b[|a|..], c[|b|..]);
  }
}
