/**
 The channel protocol of `chunkFile` (chunk.go): one producer reads the file, four workers encode the
 pieces, a closer waits for the WaitGroup, and the consumer in `Snapshot.Add` drains the results.
 Both channels are unbuffered, so a send and its receive are one step. An `Action` is one atomic step of
 one goroutine (or one rendezvous of two); an interleaving is a sequence of actions.
 */
module Chunking {
  import opened Basics

  const WORKERS: nat := 4

  /** What reading the file will give: so many pieces, and then the end of the file or a read error. */
  datatype Source = Source(pieces: nat, readFails: bool)

  /** What travels to the consumer: the outcome of job `num`, or the producer's read error. */
  datatype Message = Job(num: nat) | ReadError

  datatype Producer =
    | Reading(next: nat)    // about to call chunker.Next for piece `next`
    | Offering(num: nat)    // wg.Add(1) done, blocked in `jobs <- j`
    | Reporting             // read error, blocked in `c <- ChunkResult{Error: err}`
    | Reported              // error sent, about to call wg.Done
    | Finished

  datatype Worker =
    | Waiting               // blocked in `range jobs`
    | Working(num: nat)
    | Sending(num: nat)     // blocked in `chunks <- ChunkResult{...}`
    | Sent                  // about to call wg.Done
    | Exited

  datatype Closer = AtWait | AtCloseJobs | AtCloseChunks | Closed

  datatype State = State(
    producer: Producer,
    workers: seq<Worker>,
    closer: Closer,
    wg: int,
    received: seq<Message>,
    consumerDone: bool)

  datatype Action =
    | Read | ReadEnd | Report | ReportDone
    | Accept(w: nat) | Encode(w: nat) | Deliver(w: nat) | Done(w: nat) | Leave(w: nat)
    | WaitReturns | CloseJobs | CloseChunks | Stop

  predicate JobsClosed(s: State) { s.closer.AtCloseChunks? || s.closer.Closed? }

  predicate ChunksClosed(s: State) { s.closer.Closed? }

  function Start(): State {
    State(Reading(0), seq(WORKERS, _ => Waiting), AtWait, 1, [], false)
  }

  predicate Enabled(src: Source, s: State, a: Action) {
    match a
    case Read => s.producer.Reading? && s.producer.next < src.pieces
    case ReadEnd => s.producer.Reading? && s.producer.next >= src.pieces
    case Report => s.producer.Reporting? && !ChunksClosed(s) && !s.consumerDone
    case ReportDone => s.producer.Reported?
    case Accept(w) => w < |s.workers| && s.workers[w].Waiting? && s.producer.Offering? && !JobsClosed(s)
    case Encode(w) => w < |s.workers| && s.workers[w].Working?
    case Deliver(w) => w < |s.workers| && s.workers[w].Sending? && !ChunksClosed(s) && !s.consumerDone
    case Done(w) => w < |s.workers| && s.workers[w].Sent?
    case Leave(w) => w < |s.workers| && s.workers[w].Waiting? && JobsClosed(s)
    case WaitReturns => s.closer.AtWait? && s.wg == 0
    case CloseJobs => s.closer.AtCloseJobs?
    case CloseChunks => s.closer.AtCloseChunks?
    case Stop => ChunksClosed(s) && !s.consumerDone
  }

  function Next(src: Source, s: State, a: Action): State
    requires Enabled(src, s, a)
  {
    match a
    case Read => s.(producer := Offering(s.producer.next), wg := s.wg + 1)
    case ReadEnd => if src.readFails then s.(producer := Reporting) else s.(producer := Finished, wg := s.wg - 1)
    case Report => s.(producer := Reported, received := s.received + [ReadError])
    case ReportDone => s.(producer := Finished, wg := s.wg - 1)
    case Accept(w) => s.(producer := Reading(s.producer.num + 1), workers := s.workers[w := Working(s.producer.num)])
    case Encode(w) => s.(workers := s.workers[w := Sending(s.workers[w].num)])
    case Deliver(w) => s.(workers := s.workers[w := Sent], received := s.received + [Job(s.workers[w].num)])
    case Done(w) => s.(workers := s.workers[w := Waiting], wg := s.wg - 1)
    case Leave(w) => s.(workers := s.workers[w := Exited])
    case WaitReturns => s.(closer := AtCloseJobs)
    case CloseJobs => s.(closer := AtCloseChunks)
    case CloseChunks => s.(closer := Closed)
    case Stop => s.(consumerDone := true)
  }

  /** The state an interleaving leads to, or None when one of its steps could not be taken. */
  function Execute(src: Source, run: seq<Action>): Option<State> {
    if run == [] then Some(Start())
    else
      var last := |run| - 1;
      var before := Execute(src, run[..last]);
      if before.Some? && Enabled(src, before.value, run[last])
      then Some(Next(src, before.value, run[last])) else None
  }

  /* ---- What every reachable state satisfies ---- */

  /** How often the consumer has to get a message: every job's outcome once, a read error once. */
  function Due(src: Source, m: Message): nat {
    match m
    case Job(num) => if num < src.pieces then 1 else 0
    case ReadError => if src.readFails then 1 else 0
  }

  function WorkerLoad(w: Worker): nat { if w.Waiting? || w.Exited? then 0 else 1 }

  function Holds(m: Message): Worker -> nat {
    (w: Worker) => if (w.Working? || w.Sending?) && m == Job(w.num) then 1 else 0
  }

  function ProducerLoad(p: Producer): nat {
    match p case Finished => 0 case Offering(_) => 2 case _ => 1
  }

  /** How often a message has left the producer so far. */
  function Issued(src: Source, p: Producer, m: Message): nat {
    match p
    case Reading(next) => if m.Job? && m.num < next then 1 else 0
    case Offering(num) => if m.Job? && m.num < num then 1 else 0
    case Reporting => if m.Job? then Due(src, m) else 0
    case Reported => Due(src, m)
    case Finished => Due(src, m)
  }

  predicate ProducerOk(src: Source, p: Producer) {
    match p
    case Reading(next) => next <= src.pieces
    case Offering(num) => num < src.pieces
    case Reporting => src.readFails
    case Reported => src.readFails
    case Finished => true
  }

  /** Every message issued that was issued is either with the consumer or in one worker's hands, exactly once. */
  ghost predicate Accounted(src: Source, s: State) {
    forall m :: multiset(s.received)[m] + Sum(Holds(m), s.workers) == Issued(src, s.producer, m)
  }

  /** The WaitGroup counts the active producer and the jobs in flight; nobody leaves early. */
  ghost predicate Counted(src: Source, s: State) {
    && |s.workers| == WORKERS
    && ProducerOk(src, s.producer)
    && s.wg == ProducerLoad(s.producer) + Sum(WorkerLoad, s.workers)
    && (!s.closer.AtWait? ==> s.wg == 0)
    && (!JobsClosed(s) ==> forall w :: 0 <= w < |s.workers| ==> !s.workers[w].Exited?)
    && (s.consumerDone ==> ChunksClosed(s))
  }

  ghost predicate Invariant(src: Source, s: State) {
    Counted(src, s) && Accounted(src, s)
  }

  ghost predicate EachDeliveredOnce(src: Source, s: State) {
    forall m :: multiset(s.received)[m] == Due(src, m)
  }

  /** A send that is due, or can come due, on a channel that is already closed: Go would panic there. */
  predicate SendsOnClosedChannel(s: State) {
    || (JobsClosed(s) && (s.producer.Offering? || s.producer.Reading?))
    || (ChunksClosed(s) && s.producer.Reporting?)
    || (ChunksClosed(s) && exists w :: 0 <= w < |s.workers| && (s.workers[w].Sending? || s.workers[w].Working?))
  }

  lemma WorkersAtStart()
    ensures Sum(WorkerLoad, Start().workers) == 0
    ensures forall m :: Sum(Holds(m), Start().workers) == 0
  {
    SumZero(WorkerLoad, Start().workers);
    forall m ensures Sum(Holds(m), Start().workers) == 0 { SumZero(Holds(m), Start().workers); }
  }

  predicate OfWorker(a: Action) { a.Accept? || a.Encode? || a.Deliver? || a.Done? || a.Leave? }

  /** A worker's step keeps the account: it moves a message from one place to another, or none. */
  lemma WorkerKeepsMessage(src: Source, s: State, a: Action, m: Message)
    requires OfWorker(a) && ProducerOk(src, s.producer) && Enabled(src, s, a)
    requires multiset(s.received)[m] + Sum(Holds(m), s.workers) == Issued(src, s.producer, m)
    ensures var t := Next(src, s, a);
            multiset(t.received)[m] + Sum(Holds(m), t.workers) == Issued(src, t.producer, m)
  {
    var t := Next(src, s, a);
    SumUpdate(Holds(m), s.workers, a.w, t.workers[a.w]);
    if a.Deliver? {
      assert multiset(t.received) == multiset(s.received) + multiset{Job(s.workers[a.w].num)};
    } else {
      assert t.received == s.received;
    }
  }

  lemma StepKeepsMessage(src: Source, s: State, a: Action, m: Message)
    requires ProducerOk(src, s.producer) && Enabled(src, s, a)
    requires multiset(s.received)[m] + Sum(Holds(m), s.workers) == Issued(src, s.producer, m)
    ensures var t := Next(src, s, a);
            multiset(t.received)[m] + Sum(Holds(m), t.workers) == Issued(src, t.producer, m)
  {
    if OfWorker(a) {
      WorkerKeepsMessage(src, s, a, m);
    } else {
      var t := Next(src, s, a);
      assert t.workers == s.workers;
      assert a.Report? ==> multiset(t.received) == multiset(s.received) + multiset{ReadError};
    }
  }

  lemma StepKeepsCount(src: Source, s: State, a: Action)
    requires Counted(src, s) && Enabled(src, s, a)
    ensures Counted(src, Next(src, s, a))
  {
    if OfWorker(a) {
      SumUpdate(WorkerLoad, s.workers, a.w, Next(src, s, a).workers[a.w]);
    }
  }

  /** One step of any goroutine keeps the invariant. */
  lemma StepKeepsInvariant(src: Source, s: State, a: Action)
    requires Invariant(src, s) && Enabled(src, s, a)
    ensures Invariant(src, Next(src, s, a))
  {
    StepKeepsCount(src, s, a);
    forall m
      ensures multiset(Next(src, s, a).received)[m] + Sum(Holds(m), Next(src, s, a).workers)
        == Issued(src, Next(src, s, a).producer, m)
    {
      StepKeepsMessage(src, s, a, m);
    }
  }

  lemma {:induction false} ReachableInvariant(src: Source, run: seq<Action>)
    requires Execute(src, run).Some?
    ensures Invariant(src, Execute(src, run).value)
  {
    if run == [] {
      WorkersAtStart();
    } else {
      var last := |run| - 1;
      ReachableInvariant(src, run[..last]);
      StepKeepsInvariant(src, Execute(src, run[..last]).value, run[last]);
    }
  }

  /**
   Safety of every interleaving: the WaitGroup always equals the active producer plus the jobs in flight and
   never goes negative, no goroutine is about to send on a closed channel, and once the result channel is
   closed the consumer holds every job's outcome exactly once (and the read error, if there was one).
   */
  lemma ChannelSafety(src: Source, run: seq<Action>)
    requires Execute(src, run).Some?
    ensures var s := Execute(src, run).value;
            && s.wg == ProducerLoad(s.producer) + Sum(WorkerLoad, s.workers) >= 0
            && !SendsOnClosedChannel(s)
            && (forall m :: multiset(s.received)[m] <= Due(src, m))
            && (ChunksClosed(s) ==> EachDeliveredOnce(src, s))
  {
    var s := Execute(src, run).value;
    ReachableInvariant(src, run);
    SumZero(WorkerLoad, s.workers);
    forall m
      ensures multiset(s.received)[m] <= Due(src, m) && (ChunksClosed(s) ==> multiset(s.received)[m] == Due(src, m))
    {
      SumZero(Holds(m), s.workers);
      assert multiset(s.received)[m] + Sum(Holds(m), s.workers) == Issued(src, s.producer, m);
    }
  }

  /* ---- Every run ends, and only when everything is done ---- */

  function WorkerSteps(w: Worker): nat {
    match w case Exited => 0 case Waiting => 1 case Sent => 2 case Sending(_) => 3 case Working(_) => 4
  }

  function ProducerSteps(src: Source, p: Producer): int {
    match p
    case Reading(next) => 6 * (src.pieces - next) + 3
    case Offering(num) => 6 * (src.pieces - num) + 2
    case Reporting => 2
    case Reported => 1
    case Finished => 0
  }

  function CloserSteps(c: Closer): nat {
    match c case AtWait => 3 case AtCloseJobs => 2 case AtCloseChunks => 1 case Closed => 0
  }

  function Measure(src: Source, s: State): int {
    var consumer := if s.consumerDone then 0 else 1;
    ProducerSteps(src, s.producer) + Sum(WorkerSteps, s.workers) + CloserSteps(s.closer) + consumer
  }

  predicate Over(s: State) {
    && s.producer.Finished?
    && (forall w :: 0 <= w < |s.workers| ==> s.workers[w].Exited?)
    && s.closer.Closed?
    && s.consumerDone
  }

  lemma StepDecreasesMeasure(src: Source, s: State, a: Action)
    requires Invariant(src, s) && Enabled(src, s, a)
    ensures 0 <= Measure(src, Next(src, s, a)) < Measure(src, s)
  {
    var t := Next(src, s, a);
    if OfWorker(a) {
      SumUpdate(WorkerSteps, s.workers, a.w, t.workers[a.w]);
    }
  }

  /** No deadlock: as long as the consumer drains, some goroutine can move until all have ended. */
  lemma SomeStepEnabled(src: Source, s: State) returns (a: Action)
    requires Invariant(src, s) && !Over(s)
    ensures Enabled(src, s, a)
  {
    SumZero(WorkerLoad, s.workers);
    if w: nat :| w < |s.workers| && WorkerLoad(s.workers[w]) != 0 {
      assert s.closer.AtWait?;
      a := match s.workers[w] case Working(_) => Encode(w) case Sending(_) => Deliver(w) case _ => Done(w);
    } else if !s.producer.Finished? {
      assert s.closer.AtWait?;
      assert s.workers[0].Waiting?;
      a := match s.producer
        case Reading(next) => if next < src.pieces then Read else ReadEnd
        case Offering(_) => Accept(0)
        case Reporting => Report
        case _ => ReportDone;
    } else if !s.closer.Closed? {
      a := match s.closer case AtWait => WaitReturns case AtCloseJobs => CloseJobs case _ => CloseChunks;
    } else if !s.consumerDone {
      a := Stop;
    } else {
      var w: nat :| w < |s.workers| && !s.workers[w].Exited?;
      a := Leave(w);
    }
  }

  lemma {:induction false} RunLength(src: Source, run: seq<Action>)
    requires Execute(src, run).Some?
    ensures |run| + Measure(src, Execute(src, run).value) <= 6 * src.pieces + 11
    ensures 0 <= Measure(src, Execute(src, run).value)
  {
    if run == [] {
      var ws := Start().workers;
      assert ws == [Waiting, Waiting, Waiting, Waiting];
      assert ws[1..] == [Waiting, Waiting, Waiting] && ws[1..][1..] == [Waiting, Waiting];
      assert ws[1..][1..][1..] == [Waiting];
    } else {
      var last := |run| - 1;
      RunLength(src, run[..last]);
      ReachableInvariant(src, run[..last]);
      StepDecreasesMeasure(src, Execute(src, run[..last]).value, run[last]);
    }
  }

  /**
   Termination of every interleaving: a run has at most six steps per piece and eleven more, and one that
   cannot be continued has ended all goroutines with every result delivered exactly once.
   */
  lemma EveryRunEnds(src: Source, run: seq<Action>)
    requires Execute(src, run).Some?
    ensures |run| <= 6 * src.pieces + 11
    ensures var s := Execute(src, run).value;
            (forall a :: !Enabled(src, s, a)) ==> Over(s) && EachDeliveredOnce(src, s)
  {
    var s := Execute(src, run).value;
    RunLength(src, run);
    ReachableInvariant(src, run);
    ChannelSafety(src, run);
    if (forall a :: !Enabled(src, s, a)) && !Over(s) {
      var a := SomeStepEnabled(src, s);
      assert false;
    }
  }

  /** Every run can be continued to the end. */
  lemma {:induction false} EveryRunCanEnd(src: Source, run: seq<Action>) returns (more: seq<Action>)
    requires Execute(src, run).Some?
    ensures Execute(src, run + more).Some? && Over(Execute(src, run + more).value)
    decreases 6 * src.pieces + 11 - |run|
  {
    var s := Execute(src, run).value;
    if Over(s) {
      more := [];
      assert run + [] == run;
    } else {
      ReachableInvariant(src, run);
      var a := SomeStepEnabled(src, s);
      assert (run + [a])[..|run|] == run;
      RunLength(src, run + [a]);
      var rest := EveryRunCanEnd(src, run + [a]);
      more := [a] + rest;
      assert run + more == (run + [a]) + rest;
    }
  }
}
