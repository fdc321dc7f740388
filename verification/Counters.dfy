/** Exported counters: what one poll adds to them, in whatever order its keys are taken. */
module Counters {
  import opened Traffic

  datatype Totals = Totals(connections: nat, inBytes: nat, outBytes: nat, inPkts: nat, outPkts: nat) {
    function Plus(other: Totals): Totals {
      Totals(connections + other.connections, inBytes + other.inBytes, outBytes + other.outBytes,
             inPkts + other.inPkts, outPkts + other.outPkts)
    }
  }

  const NOTHING := Totals(0, 0, 0, 0, 0)

  type Counters = map<Label, Totals>

  function CounterAt(counters: Counters, series: Label): Totals {
    if series in counters then counters[series] else NOTHING
  }

  function Add(counters: Counters, series: Label, amount: Totals): Counters {
    counters[series := CounterAt(counters, series).Plus(amount)]
  }

  /** What one poll charges, by statistics key: the series and the amount. */
  type Charges = map<string, (Label, Totals)>

  /** The charges to one series among the keys in `order`. */
  ghost function Charged(charges: Charges, order: seq<string>, series: Label): Totals
    requires forall key | key in order :: key in charges
  {
    if order == [] then NOTHING else
      var key := order[|order| - 1];
      var before := Charged(charges, order[..|order| - 1], series);
      if charges[key].0 == series then before.Plus(charges[key].1) else before
  }

  /** The charged keys outside `todo` have been taken, each once. */
  ghost predicate Taken(order: seq<string>, charges: Charges, todo: set<string>) {
    && (forall key :: key in order <==> key in charges && key !in todo)
    && (forall i, j | 0 <= i < j < |order| :: order[i] != order[j])
  }

  ghost predicate Added(before: Counters, after: Counters, charges: Charges, order: seq<string>)
    requires forall key | key in order :: key in charges
  {
    forall series :: AddedAt(before, after, charges, order, series)
  }

  ghost predicate AddedAt(before: Counters, after: Counters, charges: Charges, order: seq<string>, series: Label)
    requires forall key | key in order :: key in charges
  {
    CounterAt(after, series) == CounterAt(before, series).Plus(Charged(charges, order, series))
  }

  lemma CounterAfterAdd(now: Counters, series: Label, amount: Totals, other: Label)
    ensures CounterAt(Add(now, series, amount), other) ==
      if other == series then CounterAt(now, series).Plus(amount) else CounterAt(now, other)
  {
  }

  lemma PlusAssociates(a: Totals, b: Totals, c: Totals)
    ensures a.Plus(b).Plus(c) == a.Plus(b.Plus(c))
  {
  }

  lemma AddedStep(before: Counters, now: Counters, charges: Charges, order: seq<string>, key: string, after: Counters)
    requires key in charges && forall k | k in order :: k in charges
    requires Added(before, now, charges, order)
    requires after == Add(now, charges[key].0, charges[key].1)
    ensures Added(before, after, charges, order + [key])
  {
    forall series ensures AddedAt(before, after, charges, order + [key], series) {
      assert AddedAt(before, now, charges, order, series);
      CounterAfterAdd(now, charges[key].0, charges[key].1, series);
      ChargedStep(charges, order, key, series);
      PlusAssociates(CounterAt(before, series), Charged(charges, order, series), charges[key].1);
    }
  }

  lemma ChargedStep(charges: Charges, order: seq<string>, key: string, series: Label)
    requires key in charges && forall k | k in order :: k in charges
    ensures Charged(charges, order + [key], series) ==
      if charges[key].0 == series then Charged(charges, order, series).Plus(charges[key].1)
      else Charged(charges, order, series)
  {
  }

  /** One key of a poll: an uncharged one changes nothing, a charged one is added once. */
  lemma TakenStep(order: seq<string>, charges: Charges, todo: set<string>, key: string, rest: set<string>)
    requires Taken(order, charges, todo) && key in todo && rest == todo - {key}
    ensures Taken(if key in charges then order + [key] else order, charges, rest)
  {
  }

  /** The counters after one key of a poll. */
  function AfterKey(counters: Counters, charges: Charges, key: string): Counters {
    if key in charges then Add(counters, charges[key].0, charges[key].1) else counters
  }

  /** The loop over the keys of a poll: `order` lists the charged keys taken so far. */
  ghost predicate Charging(before: Counters, now: Counters, charges: Charges, order: seq<string>, todo: set<string>) {
    Taken(order, charges, todo) && Added(before, now, charges, order)
  }

  lemma ChargingStart(counters: Counters, charges: Charges, keys: set<string>)
    requires charges.Keys <= keys
    ensures Charging(counters, counters, charges, [], keys)
  {
    assert Taken([], charges, keys);
    forall series ensures AddedAt(counters, counters, charges, [], series) {
      PlusNothing(CounterAt(counters, series));
    }
  }

  lemma PlusNothing(a: Totals)
    ensures a.Plus(NOTHING) == a
  {
  }

  lemma ChargingStep(before: Counters, now: Counters, charges: Charges, order: seq<string>, todo: set<string>,
    key: string, rest: set<string>, after: Counters) returns (order': seq<string>)
    requires Charging(before, now, charges, order, todo) && key in todo && rest == todo - {key}
    requires after == AfterKey(now, charges, key)
    ensures Charging(before, after, charges, order', rest)
  {
    TakenStep(order, charges, todo, key, rest);
    if key in charges {
      AddedStep(before, now, charges, order, key, after);
      order' := order + [key];
    } else {
      order' := order;
    }
  }

  /** No two keys are charged to one series. */
  ghost predicate Distinct(charges: Charges) {
    forall a, b | a in charges && b in charges && charges[a].0 == charges[b].0 :: a == b
  }

  ghost predicate Hits(charges: Charges, key: string, series: Label) {
    key in charges && charges[key].0 == series
  }

  /** The one charge to a series, if there is one. */
  ghost function ChargeTo(charges: Charges, series: Label): Totals {
    if exists key :: Hits(charges, key, series) then
      var key :| Hits(charges, key, series); charges[key].1
    else NOTHING
  }

  lemma OneCharge(charges: Charges, key: string, series: Label)
    requires Distinct(charges) && Hits(charges, key, series)
    ensures ChargeTo(charges, series) == charges[key].1
  {
  }

  lemma {:induction false} ChargedOnce(charges: Charges, order: seq<string>, series: Label)
    requires Distinct(charges) && (forall key | key in order :: key in charges)
    requires forall i, j | 0 <= i < j < |order| :: order[i] != order[j]
    ensures forall key | Hits(charges, key, series) ::
      Charged(charges, order, series) == if key in order then charges[key].1 else NOTHING
    ensures (forall key | key in order :: !Hits(charges, key, series)) ==> Charged(charges, order, series) == NOTHING
  {
    if order != [] {
      ChargedOnce(charges, order[..|order| - 1], series);
    }
  }

  /** When no two keys share a series, the order of the keys does not matter. */
  lemma ChargedInAnyOrder(charges: Charges, order: seq<string>, series: Label)
    requires Distinct(charges) && Taken(order, charges, {})
    ensures Charged(charges, order, series) == ChargeTo(charges, series)
  {
    ChargedOnce(charges, order, series);
    if key :| Hits(charges, key, series) {
      OneCharge(charges, key, series);
    }
  }

  /** All that was charged to a series over a run of polls. */
  ghost function TotalCharged(log: seq<Charges>, series: Label): Totals {
    if log == [] then NOTHING
    else TotalCharged(log[..|log| - 1], series).Plus(ChargeTo(log[|log| - 1], series))
  }

  ghost predicate AllDistinct(log: seq<Charges>) {
    forall t | 0 <= t < |log| :: Distinct(log[t])
  }

  /** The counters are the sums of the charges logged. */
  ghost predicate Sums(counters: Counters, log: seq<Charges>) {
    AllDistinct(log) ==> forall series :: SumAt(counters, log, series)
  }

  ghost predicate SumAt(counters: Counters, log: seq<Charges>, series: Label) {
    CounterAt(counters, series) == TotalCharged(log, series)
  }

  lemma SumsStep(before: Counters, log: seq<Charges>, after: Counters, charges: Charges, order: seq<string>)
    requires Sums(before, log) && Charging(before, after, charges, order, {})
    ensures Sums(after, log + [charges])
  {
    var log' := log + [charges];
    if AllDistinct(log') {
      assert log'[..|log|] == log;
      assert AllDistinct(log) by {
        assert forall t | 0 <= t < |log| :: log[t] == log'[t];
      }
      assert Distinct(log'[|log|]);
      forall series ensures SumAt(after, log', series) {
        assert SumAt(before, log, series);
        assert AddedAt(before, after, charges, order, series);
        ChargedInAnyOrder(charges, order, series);
      }
    }
  }
}
