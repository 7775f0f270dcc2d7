/**
 The batch senders of `gatherTargetInformation` (snapshot.go): a collector walks the scan results, cuts them
 into batches of 128 and starts one goroutine per batch that sends the batch over an unbuffered channel.
 There is no bound on how many of these senders are alive at once. Scan results are numbered in scan order.
 */
module Batching {
  import opened Basics

  const BATCH: nat := 128

  datatype Collector = Scanning(next: nat) | AtWait | AtClose | Ended

  /** A sender with the results it still has to send; `owes` is set between a send and its wg.Done. */
  datatype Sender = Sender(rest: seq<nat>, owes: bool)

  datatype State = State(
    collector: Collector,
    batch: seq<nat>,
    senders: seq<Sender>,
    wg: int,
    received: seq<nat>,
    consumerDone: bool)

  datatype Action = Collect | FlushRest | Send(j: nat) | Done(j: nat) | WaitReturns | Close | Stop

  function Start(): State { State(Scanning(0), [], [], 0, [], false) }

  predicate Enabled(results: nat, s: State, a: Action) {
    match a
    case Collect => s.collector.Scanning? && s.collector.next < results
    case FlushRest => s.collector.Scanning? && s.collector.next >= results
    case Send(j) =>
      && j < |s.senders| && s.senders[j].rest != [] && !s.senders[j].owes
      && !s.collector.Ended? && !s.consumerDone
    case Done(j) => j < |s.senders| && s.senders[j].owes
    case WaitReturns => s.collector.AtWait? && s.wg == 0
    case Close => s.collector.AtClose?
    case Stop => s.collector.Ended? && !s.consumerDone
  }

  function Next(s: State, a: Action, results: nat): State
    requires Enabled(results, s, a)
  {
    match a
    case Collect =>
      var t := s.(collector := Scanning(s.collector.next + 1), batch := s.batch + [s.collector.next], wg := s.wg + 1);
      if |t.batch| >= BATCH then t.(senders := t.senders + [Sender(t.batch, false)], batch := []) else t
    case FlushRest => s.(collector := AtWait, senders := s.senders + [Sender(s.batch, false)], batch := [])
    case Send(j) =>
      var sender := s.senders[j];
      s.(senders := s.senders[j := Sender(sender.rest[1..], true)], received := s.received + [sender.rest[0]])
    case Done(j) => s.(senders := s.senders[j := s.senders[j].(owes := false)], wg := s.wg - 1)
    case WaitReturns => s.(collector := AtClose)
    case Close => s.(collector := Ended)
    case Stop => s.(consumerDone := true)
  }

  function Execute(results: nat, run: seq<Action>): Option<State> {
    if run == [] then Some(Start())
    else
      var last := |run| - 1;
      var before := Execute(results, run[..last]);
      if before.Some? && Enabled(results, before.value, run[last])
      then Some(Next(before.value, run[last], results)) else None
  }

  function Load(s: Sender): nat { |s.rest| + if s.owes then 1 else 0 }

  function Holds(m: nat): Sender -> nat { (s: Sender) => multiset(s.rest)[m] }

  function Scanned(results: nat, c: Collector): nat { if c.Scanning? then c.next else results }

  ghost predicate Counted(results: nat, s: State) {
    && (s.collector.Scanning? ==> s.collector.next <= results && |s.batch| < BATCH)
    && (!s.collector.Scanning? ==> s.batch == [])
    && s.wg == |s.batch| + Sum(Load, s.senders)
    && (s.collector.AtClose? || s.collector.Ended? ==> s.wg == 0)
    && (s.consumerDone ==> s.collector.Ended?)
  }

  /** How often result `m` is with the consumer, in the open batch, or with a sender. */
  function Places(s: State, m: nat): nat { multiset(s.received)[m] + multiset(s.batch)[m] + Sum(Holds(m), s.senders) }

  /** Every scanned result is with the consumer, in the open batch, or with one sender, exactly once. */
  ghost predicate Accounted(results: nat, s: State) {
    forall m: nat :: Places(s, m) == if m < Scanned(results, s.collector) then 1 else 0
  }

  ghost predicate Invariant(results: nat, s: State) { Counted(results, s) && Accounted(results, s) }

  lemma StepKeepsCount(results: nat, s: State, a: Action)
    requires Counted(results, s) && Enabled(results, s, a)
    ensures Counted(results, Next(s, a, results))
  {
    var t := Next(s, a, results);
    if a.Send? || a.Done? {
      SumUpdate(Load, s.senders, a.j, t.senders[a.j]);
    }
    if |t.senders| > |s.senders| {
      SumAppend(Load, s.senders, t.senders[|s.senders|]);
    }
  }

  lemma SenderStepKeepsPlaces(results: nat, s: State, a: Action, m: nat)
    requires Enabled(results, s, a) && (a.Send? || a.Done?)
    ensures Places(Next(s, a, results), m) == Places(s, m)
  {
    var t, rest := Next(s, a, results), s.senders[a.j].rest;
    SumUpdate(Holds(m), s.senders, a.j, t.senders[a.j]);
    if a.Send? {
      assert rest == [rest[0]] + rest[1..];
      assert multiset(t.received) == multiset(s.received) + multiset{rest[0]};
    }
  }

  lemma FlushKeepsPlaces(results: nat, s: State, m: nat)
    requires Enabled(results, s, FlushRest)
    ensures Places(Next(s, FlushRest, results), m) == Places(s, m)
  {
    SumAppend(Holds(m), s.senders, Sender(s.batch, false));
  }

  lemma CollectAddsPlace(results: nat, s: State, m: nat)
    requires Enabled(results, s, Collect)
    ensures Places(Next(s, Collect, results), m) == Places(s, m) + if m == s.collector.next then 1 else 0
  {
    var batch := s.batch + [s.collector.next];
    assert multiset(batch) == multiset(s.batch) + multiset{s.collector.next};
    SumAppend(Holds(m), s.senders, Sender(batch, false));
  }

  lemma StepKeepsResult(results: nat, s: State, a: Action, m: nat)
    requires Counted(results, s) && Enabled(results, s, a)
    requires Places(s, m) == if m < Scanned(results, s.collector) then 1 else 0
    ensures var t := Next(s, a, results);
            Places(t, m) == if m < Scanned(results, t.collector) then 1 else 0
  {
    match a {
      case Collect => CollectAddsPlace(results, s, m);
      case FlushRest => FlushKeepsPlaces(results, s, m);
      case Send(_) => SenderStepKeepsPlaces(results, s, a, m);
      case Done(_) => SenderStepKeepsPlaces(results, s, a, m);
      case _ =>
    }
  }

  lemma {:induction false} ReachableInvariant(results: nat, run: seq<Action>)
    requires Execute(results, run).Some?
    ensures Invariant(results, Execute(results, run).value)
  {
    if run != [] {
      var last := |run| - 1;
      ReachableInvariant(results, run[..last]);
      var s := Execute(results, run[..last]).value;
      var t := Next(s, run[last], results);
      StepKeepsCount(results, s, run[last]);
      forall m: nat ensures Places(t, m) == if m < Scanned(results, t.collector) then 1 else 0 {
        StepKeepsResult(results, s, run[last], m);
      }
    }
  }

  ghost predicate EachDeliveredOnce(results: nat, s: State) {
    forall m: nat :: multiset(s.received)[m] == if m < results then 1 else 0
  }

  /**
   Safety of every interleaving: the WaitGroup equals the results not yet acknowledged, no sender has
   anything left to send once the channel is closed, and by then every scan result was delivered exactly once.
   */
  lemma ChannelSafety(results: nat, run: seq<Action>)
    requires Execute(results, run).Some?
    ensures var s := Execute(results, run).value;
            && s.wg == |s.batch| + Sum(Load, s.senders)
            && (s.collector.Ended? ==>
                  && EachDeliveredOnce(results, s)
                  && forall j :: 0 <= j < |s.senders| ==> s.senders[j] == Sender([], false))
  {
    var s := Execute(results, run).value;
    ReachableInvariant(results, run);
    if s.collector.Ended? {
      SumZero(Load, s.senders);
      forall j | 0 <= j < |s.senders| ensures s.senders[j] == Sender([], false) {
        assert Load(s.senders[j]) == 0;
      }
      forall m: nat ensures multiset(s.received)[m] == if m < results then 1 else 0 {
        SumZero(Holds(m), s.senders);
        assert Places(s, m) == if m < results then 1 else 0;
      }
    }
  }

  function SenderSteps(s: Sender): nat { 2 * |s.rest| + if s.owes then 1 else 0 }

  function Measure(results: nat, s: State): int {
    var own := match s.collector
      case Scanning(next) => 3 * (results - next) + 3
      case AtWait => 2
      case AtClose => 1
      case Ended => 0;
    own + 2 * |s.batch| + Sum(SenderSteps, s.senders) + if s.consumerDone then 0 else 1
  }

  lemma StepDecreasesMeasure(results: nat, s: State, a: Action)
    requires Counted(results, s) && Enabled(results, s, a)
    ensures 0 <= Measure(results, Next(s, a, results)) < Measure(results, s)
  {
    var t := Next(s, a, results);
    if a.Send? || a.Done? {
      SumUpdate(SenderSteps, s.senders, a.j, t.senders[a.j]);
    }
    if |t.senders| > |s.senders| {
      SumAppend(SenderSteps, s.senders, t.senders[|s.senders|]);
    }
  }

  lemma SomeStepEnabled(results: nat, s: State) returns (a: Action)
    requires Counted(results, s) && !(s.collector.Ended? && s.consumerDone)
    ensures Enabled(results, s, a)
  {
    SumZero(Load, s.senders);
    if s.collector.Scanning? {
      a := if s.collector.next < results then Collect else FlushRest;
    } else if j: nat :| j < |s.senders| && Load(s.senders[j]) != 0 {
      a := if s.senders[j].owes then Done(j) else Send(j);
    } else {
      a := match s.collector case AtWait => WaitReturns case AtClose => Close case _ => Stop;
    }
  }

  lemma {:induction false} RunLength(results: nat, run: seq<Action>)
    requires Execute(results, run).Some?
    ensures 0 <= Measure(results, Execute(results, run).value) <= 3 * results + 4 - |run|
  {
    if run != [] {
      var last := |run| - 1;
      RunLength(results, run[..last]);
      ReachableInvariant(results, run[..last]);
      StepDecreasesMeasure(results, Execute(results, run[..last]).value, run[last]);
    }
  }

  /** Termination of every interleaving, with all results delivered when nothing can move any more. */
  lemma EveryRunEnds(results: nat, run: seq<Action>)
    requires Execute(results, run).Some?
    ensures |run| <= 3 * results + 4
    ensures var s := Execute(results, run).value;
            (forall a :: !Enabled(results, s, a)) ==>
              s.collector.Ended? && s.consumerDone && EachDeliveredOnce(results, s)
  {
    var s := Execute(results, run).value;
    RunLength(results, run);
    ReachableInvariant(results, run);
    ChannelSafety(results, run);
    if (forall a :: !Enabled(results, s, a)) && !(s.collector.Ended? && s.consumerDone) {
      var a := SomeStepEnabled(results, s);
      assert false;
    }
  }

  /** Batches are full: a sender that starts while results are still coming in has 128 of them, the last one fewer. */
  lemma BatchSizes(results: nat, run: seq<Action>, a: Action)
    requires Execute(results, run).Some? && Enabled(results, Execute(results, run).value, a)
    requires a.Collect? || a.FlushRest?
    ensures var s := Execute(results, run).value;
            var t := Next(s, a, results);
            if a.FlushRest? then |t.senders| == |s.senders| + 1 && |t.senders[|s.senders|].rest| < 128
            else
              && (|s.batch| == 127 <==> |t.senders| == |s.senders| + 1)
              && (|s.batch| < 127 <==> t.senders == s.senders)
              && (|s.batch| == 127 ==> |t.senders[|s.senders|].rest| == 128)
  {
    ReachableInvariant(results, run);
  }
}
