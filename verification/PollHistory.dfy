/**
 The carried-forward values and absence counters of the traffic collector (pkg/trafficlog/collector.go), as a
 compressed form of the whole history of polls.
 */
module PollHistory {
  import opened Wrappers

  /** How many consecutive polls a vanished key's value is kept. */
  const MAX_ABSENT_POLLS: nat := 720

  /** The values kept per key, and for keys missing from the last snapshot the number of polls missed. */
  datatype Memory<S> = Memory(prev: map<string, S>, absent: map<string, nat>)

  function AbsentCount(absent: map<string, nat>, key: string): nat {
    if key in absent then absent[key] else 0
  }

  /** A key missing from the snapshot is kept unless it has been missed too often. */
  predicate Kept<S>(m: Memory<S>, snapshot: map<string, S>, key: string) {
    key in m.prev && key !in snapshot && AbsentCount(m.absent, key) + 1 <= MAX_ABSENT_POLLS
  }

  ghost function Remember<S>(m: Memory<S>, snapshot: map<string, S>): Memory<S> {
    Memory(
      map key | key in m.prev.Keys + snapshot.Keys && (key in snapshot || Kept(m, snapshot, key))
        :: if key in snapshot then snapshot[key] else m.prev[key],
      map key | key in m.prev && Kept(m, snapshot, key) :: AbsentCount(m.absent, key) + 1)
  }

  /** The memory after a history of snapshots, oldest first. */
  ghost function After<S>(snapshots: seq<map<string, S>>): Memory<S> {
    if snapshots == [] then Memory(map[], map[])
    else Remember(After(snapshots[..|snapshots| - 1]), snapshots[|snapshots| - 1])
  }

  /** What the polls saw of one key. */
  ghost function Seen<S>(snapshots: seq<map<string, S>>, key: string): (seen: seq<Option<S>>)
    ensures |seen| == |snapshots|
    ensures forall i | 0 <= i < |seen| :: seen[i] == if key in snapshots[i] then Some(snapshots[i][key]) else None
  {
    seq(|snapshots|, i requires 0 <= i < |snapshots| => if key in snapshots[i] then Some(snapshots[i][key]) else None)
  }

  /** The latest value seen, and the number of polls since. */
  ghost function Latest<S>(seen: seq<Option<S>>): (r: Option<(S, nat)>)
    ensures r.Some? ==> r.value.1 < |seen|
  {
    if seen == [] then None else
      match seen[|seen| - 1]
      case Some(s) => Some((s, 0))
      case None =>
        match Latest(seen[..|seen| - 1])
        case None => None
        case Some((s, age)) => Some((s, age + 1))
  }

  /** Read as a statement about the history: the value at the latest occurrence, after which there is none. */
  lemma {:induction false} LatestMeaning<S>(seen: seq<Option<S>>, s: S, age: nat)
    ensures Latest(seen) == Some((s, age)) <==>
      age < |seen| && seen[|seen| - 1 - age] == Some(s) && forall i | |seen| - age <= i < |seen| :: seen[i] == None
    ensures Latest(seen) == None <==> forall i | 0 <= i < |seen| :: seen[i] == None
  {
    if seen != [] && seen[|seen| - 1] == None {
      var before := seen[..|seen| - 1];
      if age > 0 {
        LatestMeaning(before, s, age - 1);
      } else {
        LatestMeaning(before, s, 0);
      }
    }
  }

  /**
   History refinement: a key is remembered exactly if it occurred in the current or one of the preceding 720
   snapshots, with the value of its latest occurrence and the number of polls since as its absence count.
   */
  lemma {:induction false} HistoryRefinement<S>(snapshots: seq<map<string, S>>, key: string)
    ensures var m, latest := After(snapshots), Latest(Seen(snapshots, key));
      && (key in m.prev <==> latest.Some? && latest.value.1 <= MAX_ABSENT_POLLS)
      && (key in m.prev ==> m.prev[key] == latest.value.0 && AbsentCount(m.absent, key) == latest.value.1)
      && (key in m.absent <==> latest.Some? && 0 < latest.value.1 <= MAX_ABSENT_POLLS)
  {
    if snapshots != [] {
      var before := snapshots[..|snapshots| - 1];
      HistoryRefinement(before, key);
      assert Seen(snapshots, key)[..|snapshots| - 1] == Seen(before, key);
    }
  }

  /** The same, read off the snapshots themselves. */
  lemma RememberedIffRecent<S>(snapshots: seq<map<string, S>>, key: string)
    ensures key in After(snapshots).prev <==>
      exists i :: 0 <= i < |snapshots| && |snapshots| - 1 - i <= 720 && key in snapshots[i]
  {
    HistoryRefinement(snapshots, key);
    var seen := Seen(snapshots, key);
    match Latest(seen)
    case Some((s, age)) => LatestMeaning(seen, s, age);
    case None =>
      if i :| 0 <= i < |snapshots| && key in snapshots[i] {
        LatestMeaning(seen, snapshots[i][key], 0);
        assert seen[i] == None;
      }
  }

  // ----- What is added to a counter -----

  /** The change of a cumulative counter; one that went backwards was reset, and counts from zero. */
  function DeltaUint64(current: nat, previous: nat): nat {
    if current < previous then current else current - previous
  }

  /** The value a counter is compared with: zero for a key that is not remembered. */
  ghost function Compared(before: seq<Option<nat>>): nat {
    match Latest(before)
    case Some((v, age)) => if age <= MAX_ABSENT_POLLS then v else 0
    case None => 0
  }

  /** What has been added for a key after the polls in `seen`. */
  ghost function Total(seen: seq<Option<nat>>): nat {
    if seen == [] then 0 else
      var before := seen[..|seen| - 1];
      Total(before) + match seen[|seen| - 1] case Some(v) => DeltaUint64(v, Compared(before)) case None => 0
  }

  ghost function LastValue(seen: seq<Option<nat>>): nat {
    match Latest(seen) case Some((v, _)) => v case None => 0
  }

  /** The poll after `before` sees the counter start again: it dropped, or was away for too long. */
  ghost predicate Restarts(before: seq<Option<nat>>, now: Option<nat>) {
    && now.Some? && Latest(before).Some?
    && (now.value < Latest(before).value.0 || Latest(before).value.1 > MAX_ABSENT_POLLS)
  }

  /** The sum of the values seen just before each restart. */
  ghost function BeforeRestarts(seen: seq<Option<nat>>): nat {
    if seen == [] then 0 else
      var before := seen[..|seen| - 1];
      BeforeRestarts(before) + if Restarts(before, seen[|seen| - 1]) then Latest(before).value.0 else 0
  }

  /** The total is the last value seen plus the values just before each restart. */
  lemma {:induction false} TotalFormula(seen: seq<Option<nat>>)
    ensures Total(seen) == LastValue(seen) + BeforeRestarts(seen)
  {
    if seen != [] {
      TotalFormula(seen[..|seen| - 1]);
    }
  }

  /** The key was never missing from more than 720 polls in a row before it was seen again. */
  ghost predicate ShortGaps(seen: seq<Option<nat>>) {
    forall n | 0 <= n < |seen| && seen[n].Some? && Latest(seen[..n]).Some? ::
      Latest(seen[..n]).value.1 <= MAX_ABSENT_POLLS
  }

  ghost function BeforeDrops(seen: seq<Option<nat>>): nat {
    if seen == [] then 0 else
      var before, now := seen[..|seen| - 1], seen[|seen| - 1];
      BeforeDrops(before) + if now.Some? && now.value < LastValue(before) then LastValue(before) else 0
  }

  /** With gaps of at most 720 polls only drops count as restarts. */
  lemma {:induction false} TotalWithShortGaps(seen: seq<Option<nat>>)
    requires ShortGaps(seen)
    ensures Total(seen) == LastValue(seen) + BeforeDrops(seen)
  {
    if seen != [] {
      var before := seen[..|seen| - 1];
      assert forall n | 0 <= n < |before| :: before[..n] == seen[..n];
      TotalWithShortGaps(before);
    }
  }

  lemma {:induction false} AwayAddsNothing(before: seq<Option<nat>>, gap: nat)
    ensures var seen := before + seq(gap, _ => None);
      && Total(seen) == Total(before)
      && Latest(seen) == match Latest(before) case None => None case Some((v, age)) => Some((v, age + gap))
  {
    var seen := before + seq(gap, _ => None);
    if gap == 0 {
      assert seen == before;
    } else {
      AwayAddsNothing(before, gap - 1);
      assert seen[..|seen| - 1] == before + seq(gap - 1, _ => None);
    }
  }

  /**
   The bound of 720 is exact, whatever was polled before: of a counter last seen at `v`, and seen again at `w` after a
   gap, the increase is added, and `v` is added a second time exactly if the gap was longer.
   */
  lemma LongAbsenceCountsTwice(before: seq<Option<nat>>, v: nat, gap: nat, w: nat)
    requires v <= w
    ensures var seen := before + [Some(v)];
      Total(seen + seq(gap, _ => None) + [Some(w)]) == Total(seen) + (w - v) + if gap > 720 then v else 0
  {
    var seen := before + [Some(v)];
    var away := seen + seq(gap, _ => None);
    AwayAddsNothing(seen, gap);
    assert (away + [Some(w)])[..|away|] == away;
  }

  // ----- Against the kernel -----

  /**
   One counter in the kernel, with the traffic since it was first polled.  A removed entry may be revived with its
   statistics or be created afresh; `recreated` says whether that ever happened, `restarted` whether it happened
   since the entry was last polled, `marks` whether it had at each poll, and `lost` is the traffic that went with
   entries before any poll saw it.
   */
  datatype Kernel = Kernel(
    present: bool, counter: nat, traffic: nat, seen: seq<Option<nat>>, first: Option<nat>, recreated: bool,
    restarted: bool, marks: seq<bool>, lost: int)
  {
    /** Traffic in the counter that no poll has collected yet. */
    ghost function Uncollected(): int {
      if restarted then counter else counter - LastValue(seen)
    }
  }

  datatype Event = Traffic(amount: nat) | Vanish | Revive | Recreate | Poll

  ghost predicate Happens(a: Kernel, e: Event, b: Kernel) {
    match e
    case Traffic(n) => a.present && b == a.(counter := a.counter + n, traffic := a.traffic + n)
    case Vanish => a.present && b == a.(present := false)
    case Revive => !a.present && b == a.(present := true)
    case Recreate =>
      && !a.present
      && b == a.(present := true, counter := 0, recreated := true, restarted := true, lost := a.lost + a.Uncollected())
    case Poll =>
      var seen, marks := a.seen + [if a.present then Some(a.counter) else None], a.marks + [a.restarted];
      if !a.present then b == a.(seen := seen, marks := marks)
      else if a.first.None? then
        b == a.(seen := seen, marks := marks, first := Some(a.counter), traffic := 0, restarted := false,
                recreated := false, lost := 0)
      else b == a.(seen := seen, marks := marks, restarted := false)
  }

  ghost predicate KernelRun(states: seq<Kernel>, events: seq<Event>) {
    && |states| == |events| + 1 && states[0] == Kernel(false, 0, 0, [], None, false, false, [], 0)
    && forall i | 0 <= i < |events| :: Happens(states[i], events[i], states[i + 1])
  }

  /** What a poll adds too much: the value before a long absence, of a counter that went on from there. */
  ghost function TooMuch(before: seq<Option<nat>>, now: Option<nat>, restarted: bool): nat {
    match (Latest(before), now)
    case (Some((last, age)), Some(_)) => if age > MAX_ABSENT_POLLS && !restarted then last else 0
    case _ => 0
  }

  /** What a poll misses: the value before a restart that had been passed again when the counter was seen. */
  ghost function Missed(before: seq<Option<nat>>, now: Option<nat>, restarted: bool): nat {
    match (Latest(before), now)
    case (Some((last, age)), Some(v)) => if age <= MAX_ABSENT_POLLS && restarted && last <= v then last else 0
    case _ => 0
  }

  ghost function AllTooMuch(seen: seq<Option<nat>>, marks: seq<bool>): nat
    requires |marks| == |seen|
  {
    if seen == [] then 0 else
      var n := |seen| - 1;
      AllTooMuch(seen[..n], marks[..n]) + TooMuch(seen[..n], seen[n], marks[n])
  }

  ghost function AllMissed(seen: seq<Option<nat>>, marks: seq<bool>): nat
    requires |marks| == |seen|
  {
    if seen == [] then 0 else
      var n := |seen| - 1;
      AllMissed(seen[..n], marks[..n]) + Missed(seen[..n], seen[n], marks[n])
  }

  /** The sum of the values seen just before each absence of more than 720 polls. */
  ghost function BeforeLongGaps(seen: seq<Option<nat>>): nat {
    if seen == [] then 0 else
      var n := |seen| - 1;
      BeforeLongGaps(seen[..n]) + TooMuch(seen[..n], seen[n], false)
  }

  /** The books balance: what was added or is yet to be collected is the traffic, but for what is counted wrongly. */
  ghost predicate Accounted(k: Kernel) {
    && |k.marks| == |k.seen|
    && (k.first.None? ==> Latest(k.seen) == None && Total(k.seen) == 0)
    && (k.first.None? ==> AllTooMuch(k.seen, k.marks) == AllMissed(k.seen, k.marks) == 0)
    && (k.first.Some? ==>
          && Latest(k.seen).Some? && k.Uncollected() >= 0 && k.lost >= 0
          && (k.restarted || k.lost > 0 ==> k.recreated)
          && Total(k.seen) + k.Uncollected() ==
             k.first.value + k.traffic + AllTooMuch(k.seen, k.marks) - AllMissed(k.seen, k.marks) - k.lost)
  }

  lemma PollSees(before: seq<Option<nat>>, now: Option<nat>, seen: seq<Option<nat>>)
    requires seen == before + [now]
    ensures now.None? ==> Total(seen) == Total(before) && LastValue(seen) == LastValue(before)
    ensures now.None? ==> Latest(seen).Some? == Latest(before).Some?
    ensures now.Some? ==> Latest(seen).Some? && LastValue(seen) == now.value
    ensures now.Some? ==> Total(seen) == Total(before) + DeltaUint64(now.value, Compared(before))
  {
  }

  lemma PollMarks(before: seq<Option<nat>>, marks: seq<bool>, now: Option<nat>, mark: bool)
    requires |marks| == |before|
    ensures AllTooMuch(before + [now], marks + [mark]) == AllTooMuch(before, marks) + TooMuch(before, now, mark)
    ensures AllMissed(before + [now], marks + [mark]) == AllMissed(before, marks) + Missed(before, now, mark)
  {
    assert (before + [now])[..|before|] == before && (marks + [mark])[..|marks|] == marks;
  }

  lemma PollKeepsAccount(a: Kernel, b: Kernel)
    requires Accounted(a) && Happens(a, Poll, b)
    ensures Accounted(b)
  {
    var now := if a.present then Some(a.counter) else None;
    PollSees(a.seen, now, b.seen);
    PollMarks(a.seen, a.marks, now, a.restarted);
  }

  lemma {:induction false} AccountHolds(states: seq<Kernel>, events: seq<Event>, n: nat)
    requires KernelRun(states, events) && n < |states|
    ensures Accounted(states[n])
  {
    if n > 0 {
      AccountHolds(states, events, n - 1);
      assert Happens(states[n - 1], events[n - 1], states[n]);
      if events[n - 1].Poll? {
        PollKeepsAccount(states[n - 1], states[n]);
      }
    }
  }

  /**
   Against the kernel, exactly: at every poll that sees the entry, the total is the first value polled plus the true
   traffic since, plus the values before long absences from which the counter went on, less the values before restarts
   that had been passed again when polled and less the traffic that no poll ever saw.
   */
  lemma ExactTotal(states: seq<Kernel>, events: seq<Event>, n: nat)
    requires KernelRun(states, events) && 0 < n < |states| && events[n - 1].Poll? && states[n].present
    ensures var k := states[n];
      && |k.marks| == |k.seen| && k.first.Some?
      && Total(k.seen) ==
         k.first.value + k.traffic + AllTooMuch(k.seen, k.marks) - AllMissed(k.seen, k.marks) - k.lost
  {
    AccountHolds(states, events, n);
    assert Happens(states[n - 1], events[n - 1], states[n]);
    PollSees(states[n - 1].seen, Some(states[n - 1].counter), states[n].seen);
  }

  lemma {:induction false} TooMuchIsBounded(seen: seq<Option<nat>>, marks: seq<bool>)
    requires |marks| == |seen|
    ensures AllTooMuch(seen, marks) <= BeforeLongGaps(seen)
  {
    if seen != [] {
      TooMuchIsBounded(seen[..|seen| - 1], marks[..|seen| - 1]);
    }
  }

  lemma {:induction false} ShortGapsAddNothing(seen: seq<Option<nat>>)
    requires ShortGaps(seen)
    ensures BeforeLongGaps(seen) == 0
  {
    if seen != [] {
      var before := seen[..|seen| - 1];
      assert forall n | 0 <= n < |before| :: before[..n] == seen[..n];
      ShortGapsAddNothing(before);
    }
  }

  /**
   However the entry vanishes, is revived or starts again from zero, no more is ever added than the first value polled,
   the true traffic since, and the values before absences of more than 720 polls; so nothing too much without these.
   */
  lemma NeverOvercounts(states: seq<Kernel>, events: seq<Event>, n: nat)
    requires KernelRun(states, events) && n < |states|
    ensures var k := states[n];
      Total(k.seen) <= (if k.first.Some? then k.first.value + k.traffic else 0) + BeforeLongGaps(k.seen)
    ensures ShortGaps(states[n].seen) ==> BeforeLongGaps(states[n].seen) == 0
  {
    AccountHolds(states, events, n);
    TooMuchIsBounded(states[n].seen, states[n].marks);
    if ShortGaps(states[n].seen) {
      ShortGapsAddNothing(states[n].seen);
    }
  }

  // ----- A counter that was never recreated -----

  /** A counter only grows until it is recreated: it is never below its last value, and is missed nowhere. */
  ghost predicate Growing(k: Kernel) {
    && |k.marks| == |k.seen|
    && (k.first.None? ==> Latest(k.seen) == None && AllMissed(k.seen, k.marks) == AllTooMuch(k.seen, k.marks) == 0)
    && (k.first.None? ==> BeforeRestarts(k.seen) == 0)
    && (k.first.Some? && !k.recreated ==>
          && !k.restarted && k.lost == 0 && k.counter >= LastValue(k.seen) && AllMissed(k.seen, k.marks) == 0
          && AllTooMuch(k.seen, k.marks) == BeforeRestarts(k.seen))
  }

  lemma PollRestarts(before: seq<Option<nat>>, now: Option<nat>)
    ensures BeforeRestarts(before + [now]) ==
      BeforeRestarts(before) + if Restarts(before, now) then LastValue(before) else 0
  {
    assert (before + [now])[..|before|] == before;
  }

  lemma PollKeepsGrowing(a: Kernel, b: Kernel)
    requires Growing(a) && Happens(a, Poll, b)
    ensures Growing(b)
  {
    var now := if a.present then Some(a.counter) else None;
    PollSees(a.seen, now, b.seen);
    PollMarks(a.seen, a.marks, now, a.restarted);
    PollRestarts(a.seen, now);
  }

  lemma {:induction false} KeepsGrowing(states: seq<Kernel>, events: seq<Event>, n: nat)
    requires KernelRun(states, events) && n < |states|
    ensures Growing(states[n])
  {
    if n > 0 {
      KeepsGrowing(states, events, n - 1);
      assert Happens(states[n - 1], events[n - 1], states[n]);
      if events[n - 1].Poll? {
        PollKeepsGrowing(states[n - 1], states[n]);
      }
    }
  }

  /** Every restart follows the value zero. */
  ghost predicate RestartsAtZero(seen: seq<Option<nat>>) {
    forall n | 0 <= n < |seen| && Restarts(seen[..n], seen[n]) :: LastValue(seen[..n]) == 0
  }

  lemma {:induction false} NothingBeforeRestarts(seen: seq<Option<nat>>)
    ensures BeforeRestarts(seen) == 0 <==> RestartsAtZero(seen)
  {
    if seen != [] {
      var before := seen[..|seen| - 1];
      NothingBeforeRestarts(before);
      assert forall n | 0 <= n < |before| :: before[..n] == seen[..n] && before[n] == seen[n];
    }
  }

  /**
   Of a counter that was never recreated, whatever its absences: at every poll that sees it the total is the first
   value polled, the true traffic since, and the values before the restarts the collector took it for; so it is exact
   if and only if no such restart followed a value other than zero.
   */
  lemma NeverRecreated(states: seq<Kernel>, events: seq<Event>, n: nat)
    requires KernelRun(states, events) && 0 < n < |states| && events[n - 1].Poll?
    requires states[n].present && !states[n].recreated
    ensures var k := states[n];
      && k.first.Some? && Total(k.seen) == k.first.value + k.traffic + BeforeRestarts(k.seen)
      && (Total(k.seen) == k.first.value + k.traffic <==> RestartsAtZero(k.seen))
  {
    ExactTotal(states, events, n);
    KeepsGrowing(states, events, n);
    NothingBeforeRestarts(states[n].seen);
  }
}
