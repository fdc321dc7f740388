/**
 The reload channel: Manager.Reload (pkg/config/config.go), the main loop of Server.Run and the health callbacks that
 reconcile on their own (pkg/server/server.go), as interleaved steps with any number of reloaders and callbacks.
 */
module ReloadProtocol {
  import opened Wrappers

  /** Where the main loop is; `Holding` carries the configuration it read and has yet to apply. */
  datatype Loop = Starting | Holding(version: nat) | Waiting | Received

  /**
   Configurations are numbered by the store that made them current, so `current` is also the number of stores.
   `stored` reloaders are between their store and their send, `token` says that the channel of capacity one is full,
   and `callbacks` are the configurations read by health callbacks that have yet to apply them.
   */
  datatype State = State(
    current: nat, stored: nat, token: bool, loop: Loop, lastRead: nat, callbacks: multiset<nat>,
    applied: Option<nat>, iterations: nat)

  datatype Step =
    | Store
    | Send
    | Start
    | Receive
    | Read
    | Apply
    | CallbackRead
    | CallbackApply(version: nat)
  {
    predicate Applies() {
      Apply? || CallbackApply?
    }
  }

  ghost predicate Next(a: State, step: Step, b: State) {
    match step
    case Store => b == a.(current := a.current + 1, stored := a.stored + 1)
    case Send => a.stored > 0 && b == a.(stored := a.stored - 1, token := true)
    case Start => a.loop.Starting? && b == a.(loop := Holding(a.current), lastRead := a.current)
    case Receive =>
      a.loop.Waiting? && a.token && b == a.(loop := Received, token := false, iterations := a.iterations + 1)
    case Read => a.loop.Received? && b == a.(loop := Holding(a.current), lastRead := a.current)
    case Apply => a.loop.Holding? && b == a.(loop := Waiting, applied := Some(a.loop.version))
    case CallbackRead => b == a.(callbacks := a.callbacks + multiset{a.current})
    case CallbackApply(v) => v in a.callbacks && b == a.(callbacks := a.callbacks - multiset{v}, applied := Some(v))
  }

  const INITIAL := State(0, 0, false, Starting, 0, multiset{}, None, 0)

  ghost predicate Run(states: seq<State>, steps: seq<Step>) {
    && |states| == |steps| + 1 && states[0] == INITIAL
    && forall i | 0 <= i < |steps| :: Next(states[i], steps[i], states[i + 1])
  }

  /** A configuration the loop has not read is announced, about to be announced, or about to be read. */
  ghost predicate NothingLost(s: State) {
    s.lastRead != s.current ==> s.token || s.stored > 0 || s.loop.Received? || s.loop.Starting?
  }

  ghost predicate Inv(s: State) {
    && NothingLost(s)
    && (s.loop.Holding? ==> s.loop.version == s.lastRead)
    && s.lastRead <= s.current
    && (forall v | v in s.callbacks :: v <= s.current)
    && (s.applied.Some? ==> s.applied.value <= s.current)
    && s.iterations + s.stored + (if s.token then 1 else 0) <= s.current
    && (s.loop.Waiting? ==> s.applied.Some?)
  }

  lemma StepKeepsInv(a: State, step: Step, b: State)
    requires Inv(a) && Next(a, step, b)
    ensures Inv(b)
  {
  }

  /**
   No lost reload, whatever the number of concurrent reloaders; and the loop never runs more often than
   configurations were stored, announcements that coincide being merged.
   */
  lemma {:induction false} NoLostReload(states: seq<State>, steps: seq<Step>, n: nat)
    requires Run(states, steps) && n < |states|
    ensures Inv(states[n])
  {
    if n > 0 {
      NoLostReload(states, steps, n - 1);
      StepKeepsInv(states[n - 1], steps[n - 1], states[n]);
    }
  }

  /** Nothing is left to do for reloaders and main loop. */
  predicate Settled(s: State) {
    s.stored == 0 && !s.token && s.loop.Waiting?
  }

  /** Steps the reloaders and the loop still have to make, at most. */
  function Work(s: State): (w: nat)
    ensures w == 0 <==> Settled(s)
  {
    5 * s.stored + (if s.token then 4 else 0) +
    (match s.loop case Starting => 2 case Received => 2 case Holding(_) => 1 case Waiting => 0)
  }

  /** Every send and every step of the loop is progress, and as long as there is work some such step can be made. */
  lemma LoopDrains(s: State)
    ensures forall step, t | Next(s, step, t) && step in {Send, Start, Receive, Read, Apply} :: Work(t) < Work(s)
    ensures forall step, t | Next(s, step, t) && (step.CallbackRead? || step.CallbackApply?) :: Work(t) == Work(s)
    ensures Work(s) > 0 ==> exists step, t :: Next(s, step, t) && step in {Send, Start, Receive, Read, Apply}
  {
    if Work(s) > 0 {
      if s.stored > 0 {
        assert Next(s, Send, s.(stored := s.stored - 1, token := true));
      } else {
        match s.loop
        case Starting => assert Next(s, Start, s.(loop := Holding(s.current), lastRead := s.current));
        case Received => assert Next(s, Read, s.(loop := Holding(s.current), lastRead := s.current));
        case Holding(version) => assert Next(s, Apply, s.(loop := Waiting, applied := Some(version)));
        case Waiting => assert Next(s, Receive, s.(loop := Received, token := false, iterations := s.iterations + 1));
      }
    }
  }

  /** The last of the first `n` steps that reconciled was step `m`. */
  ghost predicate LastApplied(steps: seq<Step>, n: nat, m: nat)
    requires n <= |steps|
  {
    m < n && steps[m].Applies() && forall i | m < i < n :: !steps[i].Applies()
  }

  /** What the last Reconcile was given. */
  ghost function Given(s: State, step: Step): nat
    requires step.Applies() && (step.Apply? ==> s.loop.Holding?)
  {
    if step.Apply? then s.loop.version else step.version
  }

  lemma {:induction false} AppliedByLast(states: seq<State>, steps: seq<Step>, n: nat) returns (m: nat)
    requires Run(states, steps) && n < |states| && states[n].applied.Some?
    ensures LastApplied(steps, n, m) && states[m + 1].applied == states[n].applied == Some(Given(states[m], steps[m]))
    ensures steps[m].Apply? ==> states[m + 1].lastRead == states[n].applied.value
  {
    assert Next(states[n - 1], steps[n - 1], states[n]);
    if steps[n - 1].Applies() {
      m := n - 1;
      NoLostReload(states, steps, m);
    } else {
      m := AppliedByLast(states, steps, n - 1);
    }
  }

  /** The loop comes to wait only by applying what it read. */
  lemma {:induction false} StillWaiting(states: seq<State>, steps: seq<Step>, m: nat, n: nat)
    requires Run(states, steps) && m <= n < |states| && states[n].loop.Waiting?
    requires forall i | m <= i < n :: !steps[i].Apply?
    ensures states[m].loop.Waiting? && states[m].lastRead == states[n].lastRead
  {
    if m < n {
      assert Next(states[n - 1], steps[n - 1], states[n]);
      StillWaiting(states, steps, m, n - 1);
    }
  }

  /**
   When everything has settled the loop has read the newest configuration; and that configuration is the one in
   force exactly if the last Reconcile was not that of a health callback which had read an older one.
   */
  lemma NewestInForce(states: seq<State>, steps: seq<Step>, n: nat)
    requires Run(states, steps) && n < |states| && Settled(states[n])
    ensures states[n].lastRead == states[n].current
    ensures states[n].applied == Some(states[n].current) <==>
      !exists m: nat :: LastApplied(steps, n, m) && steps[m].CallbackApply? && steps[m].version < states[n].current
  {
    NoLostReload(states, steps, n);
    var m := AppliedByLast(states, steps, n);
    NoLostReload(states, steps, m);
    assert Next(states[m], steps[m], states[m + 1]);
    forall m': nat | LastApplied(steps, n, m') ensures m' == m {
    }
    if steps[m].Apply? {
      StillWaiting(states, steps, m + 1, n);
    } else {
      assert steps[m].version == states[n].applied.value;
    }
  }

  /** Without stores the current configuration stays, and callbacks started meanwhile read it. */
  lemma {:induction false} CallbacksCurrent(states: seq<State>, steps: seq<Step>, m: nat, n: nat)
    requires Run(states, steps) && m <= n < |states|
    requires forall i | m <= i < n :: !steps[i].Store?
    requires forall v | v in states[m].callbacks :: v == states[m].current
    ensures states[n].current == states[m].current
    ensures forall v | v in states[n].callbacks :: v == states[n].current
  {
    if m < n {
      CallbacksCurrent(states, steps, m, n - 1);
      assert Next(states[n - 1], steps[n - 1], states[n]);
    }
  }

  /** If no health callback is under way at the last store, the newest configuration ends up in force. */
  lemma NoCallbackAcrossStore(states: seq<State>, steps: seq<Step>, m: nat, n: nat)
    requires Run(states, steps) && m < n < |states| && Settled(states[n])
    requires steps[m].Store? && (forall i | m < i < n :: !steps[i].Store?)
    requires states[m].callbacks == multiset{}
    ensures states[n].applied == Some(states[n].current)
  {
    NewestInForce(states, steps, n);
    NoLostReload(states, steps, m);
    assert Next(states[m], steps[m], states[m + 1]);
    CallbacksCurrent(states, steps, m + 1, n);
    if forall i | m + 1 <= i < n :: !steps[i].Apply? {
      StillWaiting(states, steps, m + 1, n);
      assert false;
    }
    var i :| m + 1 <= i < n && steps[i].Apply?;
    forall m': nat | LastApplied(steps, n, m') && steps[m'].CallbackApply?
      ensures steps[m'].version == states[n].current
    {
      assert m' >= i;
      assert Next(states[m'], steps[m'], states[m' + 1]);
      CallbacksCurrent(states, steps, m + 1, m');
    }
  }

  // ----- When an old configuration wins -----

  ghost predicate Path(states: seq<State>, steps: seq<Step>) {
    && |states| == |steps| + 1
    && forall i | 0 <= i < |steps| :: Next(states[i], steps[i], states[i + 1]) && !steps[i].Store?
  }

  /** Some steps lead from `a` to `b`, none of which stores another configuration. */
  ghost predicate Continues(a: State, b: State) {
    exists states, steps :: Path(states, steps) && states[0] == a && states[|steps|] == b
  }

  lemma ContinuesNowhere(a: State)
    ensures Continues(a, a)
  {
    assert Path([a], []);
  }

  lemma ContinuesOn(a: State, b: State, step: Step, c: State)
    requires Continues(a, b) && Next(b, step, c) && !step.Store?
    ensures Continues(a, c)
  {
    var states, steps :| Path(states, steps) && states[0] == a && states[|steps|] == b;
    var states', steps' := states + [c], steps + [step];
    forall i | 0 <= i < |steps'| ensures Next(states'[i], steps'[i], states'[i + 1]) && !steps'[i].Store? {
      if i < |steps| {
        assert states'[i] == states[i] && states'[i + 1] == states[i + 1] && steps'[i] == steps[i];
      }
    }
    assert Path(states', steps');
  }

  /** The loop can always be left to drain while the callbacks stand still. */
  lemma {:induction false} Drains(a: State, b: State) returns (c: State)
    requires Continues(a, b)
    ensures Continues(a, c) && Settled(c) && c.current == b.current && c.callbacks == b.callbacks
    decreases Work(b)
  {
    LoopDrains(b);
    if Work(b) == 0 {
      c := b;
    } else {
      var step, next :| Next(b, step, next) && step in {Send, Start, Receive, Read, Apply};
      ContinuesOn(a, b, step, next);
      c := Drains(a, next);
    }
  }

  /** The callbacks can always be left to finish, that of version `v` last. */
  lemma {:induction false} FinishWith(a: State, b: State, v: nat) returns (c: State)
    requires Continues(a, b) && Settled(b) && v in b.callbacks
    ensures Continues(a, c) && Settled(c) && c.current == b.current && c.callbacks == multiset{} && c.applied == Some(v)
    decreases |b.callbacks|
  {
    var others := b.callbacks - multiset{v};
    if u :| u in others {
      var next := b.(callbacks := b.callbacks - multiset{u}, applied := Some(u));
      ContinuesOn(a, b, CallbackApply(u), next);
      c := FinishWith(a, next, v);
    } else {
      c := b.(callbacks := others, applied := Some(v));
      ContinuesOn(a, b, CallbackApply(v), c);
    }
  }

  /**
   From every state in which a callback holds an older configuration, everything can settle with that one in force.
   */
  lemma OldConfigCanWin(s: State, v: nat) returns (end: State)
    requires v in s.callbacks && v < s.current
    ensures Continues(s, end) && Settled(end) && end.callbacks == multiset{}
    ensures end.current == s.current && end.applied == Some(v)
  {
    ContinuesNowhere(s);
    end := Drains(s, s);
    end := FinishWith(s, end, v);
  }

  lemma JoinRuns(states: seq<State>, steps: seq<Step>, states2: seq<State>, steps2: seq<Step>)
    requires Run(states, steps) && Path(states2, steps2) && states2[0] == states[|steps|]
    ensures Run(states + states2[1..], steps + steps2)
  {
    var all, allSteps := states + states2[1..], steps + steps2;
    forall i | 0 <= i < |allSteps| ensures Next(all[i], allSteps[i], all[i + 1]) {
      if i < |steps| {
        assert all[i] == states[i] && all[i + 1] == states[i + 1] && allSteps[i] == steps[i];
      } else {
        assert all[i] == states2[i - |steps|] && all[i + 1] == states2[i - |steps| + 1];
        assert allSteps[i] == steps2[i - |steps|];
      }
    }
  }

  /** Without a callback under way at the store, every way to settle ends with the newest configuration. */
  lemma NewestWins(states: seq<State>, steps: seq<Step>, m: nat, end: State)
    requires Run(states, steps) && |steps| == m + 1 && steps[m].Store? && states[m].callbacks == multiset{}
    requires Continues(states[m + 1], end) && Settled(end)
    ensures end.applied == Some(end.current)
  {
    assert Next(states[m], steps[m], states[m + 1]);
    var states2, steps2 :| Path(states2, steps2) && states2[0] == states[m + 1] && states2[|steps2|] == end;
    JoinRuns(states, steps, states2, steps2);
    var all, allSteps, n := states + states2[1..], steps + steps2, m + 1 + |steps2|;
    assert all[n] == end && all[m] == states[m] && allSteps[m] == steps[m];
    forall i | m < i < n ensures !allSteps[i].Store? {
      assert allSteps[i] == steps2[i - (m + 1)];
    }
    if n > m + 1 {
      NoCallbackAcrossStore(all, allSteps, m, n);
    }
  }

  /**
   What can be known at the store: the newest configuration is sure to end up in force exactly if no health callback
   is under way at that moment.
   */
  lemma NewestIffNoCallback(states: seq<State>, steps: seq<Step>, m: nat)
    requires Run(states, steps) && |steps| == m + 1 && steps[m].Store?
    ensures states[m].callbacks == multiset{} <==>
      forall end | Continues(states[m + 1], end) && Settled(end) :: end.applied == Some(end.current)
  {
    assert Next(states[m], steps[m], states[m + 1]);
    NoLostReload(states, steps, m);
    if v :| v in states[m].callbacks {
      var end := OldConfigCanWin(states[m + 1], v);
    } else {
      assert states[m].callbacks == multiset{};
      forall end | Continues(states[m + 1], end) && Settled(end) ensures end.applied == Some(end.current) {
        NewestWins(states, steps, m, end);
      }
    }
  }
}
