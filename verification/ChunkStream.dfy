/** `ChunkStream::pump` as a two-thread step system: the producer on the caller's
    thread, the consumer feeding the downstream sink, and the bounded queue
    between them. Each step is one critical section of `QueueSink` or one call
    into the producer or the sink; a condition-variable wait is a step enabled
    only while its predicate holds. */
module ChunkStreams {
  import opened Options
  import opened Arithmetic
  import opened Coordinates

  /** The thread that called `pump`. It still has `todo` to offer, but may return
      at any time, whatever its pushes returned. */
  datatype Producer<T> =
    | Producing(todo: seq<T>)
    | MustFail
    | MustClose(ok: bool)
    | Joining(ok: bool)
    | Finished(success: bool)

  datatype Consumer<T> =
    | Waiting
    | Holding(item: T)
    | MustReport
    | Stopped(ok: bool)

  datatype Stream<T> = Stream(
    capacity: nat, queue: seq<T>, closed: bool, error: bool, producer: Producer<T>, consumer: Consumer<T>,
    offered: seq<T>, accepted: seq<T>, delivered: seq<T>, finishes: nat, cancelled: bool)

  datatype Action =
    | Push | Return(ok: bool) | FailProducer | Close | Join(finishOk: bool)
    | Pop | Deliver(ok: bool) | FailConsumer

  /** `QueueSink::fail`: the queue is emptied and the sink is told. */
  function Failed<T>(s: Stream<T>): Stream<T> {
    s.(error := true, closed := true, queue := [], cancelled := true)
  }

  /** `QueueSink::push` by the producer. */
  function PushStep<T>(s: Stream<T>): Option<Stream<T>> {
    if !s.producer.Producing? || s.producer.todo == [] then None
    else if !s.closed && !s.error && |s.queue| >= s.capacity then None
    else
      var item := s.producer.todo[0];
      var offered := s.(producer := Producing(s.producer.todo[1..]), offered := s.offered + [item]);
      if s.error || s.closed then Some(offered)
      else Some(offered.(queue := s.queue + [item], accepted := s.accepted + [item]))
  }

  /** The decision after the join: only a run without any failure finishes. */
  function JoinStep<T>(s: Stream<T>, finishOk: bool): Option<Stream<T>> {
    if !s.producer.Joining? || !s.consumer.Stopped? then None
    else if !s.producer.ok || !s.consumer.ok || s.error then Some(s.(producer := Finished(false)))
    else Some(s.(producer := Finished(finishOk), finishes := s.finishes + 1))
  }

  /** One round of `QueueSink::consume`, up to taking a chunk or stopping. */
  function PopStep<T>(s: Stream<T>): Option<Stream<T>> {
    if !s.consumer.Waiting? || !(s.closed || s.queue != []) then None
    else if s.queue == [] then Some(s.(consumer := Stopped(!s.error)))
    else Some(s.(consumer := Holding(s.queue[0]), queue := s.queue[1..]))
  }

  function Next<T>(s: Stream<T>, action: Action): Option<Stream<T>> {
    match action
    case Push => PushStep(s)
    case Return(ok) =>
      if s.producer.Producing? then Some(s.(producer := if ok then MustClose(true) else MustFail)) else None
    case FailProducer =>
      if s.producer.MustFail? then Some(Failed(s).(producer := MustClose(false))) else None
    case Close =>
      if s.producer.MustClose? then Some(s.(closed := true, producer := Joining(s.producer.ok))) else None
    case Join(finishOk) => JoinStep(s, finishOk)
    case Pop => PopStep(s)
    case Deliver(ok) =>
      if s.consumer.Holding? then
        Some(s.(delivered := s.delivered + [s.consumer.item], consumer := if ok then Waiting else MustReport))
      else None
    case FailConsumer =>
      if s.consumer.MustReport? then Some(Failed(s).(consumer := Stopped(false))) else None
  }

  function Start<T>(capacity: nat, script: seq<T>): Stream<T> {
    Stream(Larger(capacity, 1), [], false, false, Producing(script), Waiting, [], [], [], 0, false)
  }

  /** Any interleaving, with any answers of the producer and the sink. */
  function Runs<T>(capacity: nat, script: seq<T>, actions: seq<Action>): Option<Stream<T>> {
    if actions == [] then Some(Start(capacity, script))
    else
      match Runs(capacity, script, actions[..|actions| - 1])
      case None => None
      case Some(s) => Next(s, actions[|actions| - 1])
  }

  function InHand<T>(consumer: Consumer<T>): seq<T> {
    match consumer
    case Holding(item) => [item]
    case _ => []
  }

  /** What every step keeps. */
  ghost predicate Inv<T>(s: Stream<T>) {
    && s.capacity >= 1 && |s.queue| <= s.capacity
    && Flow(s) && Phases(s)
  }

  /** Nothing is lost, reordered or duplicated while there is no error. */
  ghost predicate Flow<T>(s: Stream<T>) {
    && s.delivered + InHand(s.consumer) <= s.accepted
    && (!s.error ==> s.accepted == s.delivered + InHand(s.consumer) + s.queue && s.accepted == s.offered)
    && (s.error ==> s.queue == [])
  }

  ghost predicate Phases<T>(s: Stream<T>) {
    && (s.error ==> s.closed && s.cancelled)
    && (s.cancelled ==> s.error)
    && (s.closed && !s.error ==> s.producer.Joining? || s.producer.Finished?)
    && (s.producer.Joining? || s.producer.Finished? ==> s.closed)
    && (s.producer.MustClose? && !s.producer.ok ==> s.error)
    && (s.producer.Joining? && !s.producer.ok ==> s.error)
    && (s.consumer.MustReport? ==> s.delivered != [])
    && (s.consumer.Stopped? ==> s.closed && s.queue == [] && (!s.consumer.ok ==> s.error))
    && (s.producer.Finished? ==> s.consumer.Stopped?)
    && (s.finishes == 0 || (s.finishes == 1 && s.producer.Finished? && !s.error && s.consumer.ok))
    && (s.producer.Finished? && s.producer.success ==> s.finishes == 1)
    && (s.producer.Finished? && s.finishes == 0 ==> s.error)
  }

  lemma StepKeepsFlow<T>(s: Stream<T>, action: Action)
    requires Inv(s) && Next(s, action).Some?
    ensures Flow(Next(s, action).value)
  {
    var after := Next(s, action).value;
    match action {
      case Push =>
        if !s.error && !s.closed {
          var item := s.producer.todo[0];
          assert s.delivered + InHand(s.consumer) + (s.queue + [item]) == s.accepted + [item];
        }
      case Pop =>
        if s.queue != [] {
          assert s.delivered + [] == s.delivered;
          assert s.delivered + [s.queue[0]] + s.queue[1..] == s.accepted;
        }
      case Deliver(ok) =>
        assert s.delivered + [s.consumer.item] + [] == s.delivered + [s.consumer.item];
      case _ =>
    }
  }

  lemma StepKeepsInv<T>(s: Stream<T>, action: Action)
    requires Inv(s) && Next(s, action).Some?
    ensures Inv(Next(s, action).value)
  {
    StepKeepsFlow(s, action);
    hide InHand;
  }

  lemma {:induction false} RunsKeepInv<T>(capacity: nat, script: seq<T>, actions: seq<Action>)
    requires Runs(capacity, script, actions).Some?
    ensures Inv(Runs(capacity, script, actions).value)
  {
    hide Inv, Next;
    if actions == [] {
      StartIsInv(capacity, script);
    } else {
      RunsKeepInv(capacity, script, actions[..|actions| - 1]);
      StepKeepsInv(Runs(capacity, script, actions[..|actions| - 1]).value, actions[|actions| - 1]);
    }
  }

  lemma StartIsInv<T>(capacity: nat, script: seq<T>)
    ensures Inv(Start(capacity, script))
  {
  }

  /** At every moment of every run the queue is within its bound and what the
      sink has seen is a prefix, in order, of what was accepted. */
  lemma BoundedAndOrdered<T>(capacity: nat, script: seq<T>, actions: seq<Action>)
    requires Runs(capacity, script, actions).Some?
    ensures var s := Runs(capacity, script, actions).value;
      |s.queue| <= Larger(capacity, 1) && s.delivered <= s.accepted
  {
    RunsKeepInv(capacity, script, actions);
    CapacityStays(capacity, script, actions);
  }

  lemma {:induction false} CapacityStays<T>(capacity: nat, script: seq<T>, actions: seq<Action>)
    requires Runs(capacity, script, actions).Some?
    ensures Runs(capacity, script, actions).value.capacity == Larger(capacity, 1)
  {
    if actions != [] {
      CapacityStays(capacity, script, actions[..|actions| - 1]);
    }
  }

  /** Success means everything offered was delivered and the sink was finished
      exactly once, without ever being cancelled. */
  lemma SuccessMeansComplete<T>(capacity: nat, script: seq<T>, actions: seq<Action>)
    requires Runs(capacity, script, actions).Some?
    requires Runs(capacity, script, actions).value.producer == Finished(true)
    ensures var s := Runs(capacity, script, actions).value;
      s.delivered == s.accepted == s.offered && s.finishes == 1 && !s.cancelled
  {
    RunsKeepInv(capacity, script, actions);
    var s := Runs(capacity, script, actions).value;
    assert s.delivered + [] + [] == s.delivered;
  }

  /** Once anything has failed the sink is cancelled, and in no continuation is it
      finished. */
  lemma FailureMeansUnfinished<T>(capacity: nat, script: seq<T>, actions: seq<Action>, more: seq<Action>)
    requires Runs(capacity, script, actions).Some? && Runs(capacity, script, actions).value.error
    requires Runs(capacity, script, actions + more).Some?
    ensures var s := Runs(capacity, script, actions + more).value;
      s.cancelled && s.finishes == 0 && s.producer != Finished(true)
  {
    RunsKeepInv(capacity, script, actions + more);
    ErrorsStay(capacity, script, actions, more);
  }

  lemma {:induction false} ErrorsStay<T>(capacity: nat, script: seq<T>, actions: seq<Action>, more: seq<Action>)
    requires Runs(capacity, script, actions).Some? && Runs(capacity, script, actions).value.error
    requires Runs(capacity, script, actions + more).Some?
    ensures Runs(capacity, script, actions + more).value.error
  {
    if more == [] {
      assert actions + more == actions;
    } else {
      assert (actions + more)[..|actions + more| - 1] == actions + more[..|more| - 1];
      ErrorsStay(capacity, script, actions, more[..|more| - 1]);
    }
  }

  /** After the last delivery: once the sink was finished no step is left, so no chunk
      reaches it afterwards. */
  lemma FinishIsLast<T>(capacity: nat, script: seq<T>, actions: seq<Action>, action: Action)
    requires Runs(capacity, script, actions).Some? && Runs(capacity, script, actions).value.finishes == 1
    ensures Runs(capacity, script, actions + [action]) == None
  {
    RunsKeepInv(capacity, script, actions);
    hide Runs, Flow;
    var s := Runs(capacity, script, actions).value;
    assert Next(s, action) == None;
    OneMoreStep(capacity, script, actions, action);
  }

  lemma OneMoreStep<T>(capacity: nat, script: seq<T>, actions: seq<Action>, action: Action)
    requires Runs(capacity, script, actions).Some?
    ensures Runs(capacity, script, actions + [action]) == Next(Runs(capacity, script, actions).value, action)
  {
    hide Next;
    assert (actions + [action])[..|actions|] == actions;
  }

  /** How much is left to do. Every step uses some of it up, so every run of a
      producer with a finite script is finite. */
  function Remaining<T>(s: Stream<T>): nat {
    (match s.producer
     case Producing(todo) => 6 * |todo| + 4
     case MustFail => 3
     case MustClose(_) => 2
     case Joining(_) => 1
     case Finished(_) => 0)
    + 4 * |s.queue|
    + (match s.consumer
       case Waiting => 1
       case Holding(_) => 4
       case MustReport => 2
       case Stopped(_) => 0)
  }

  lemma StepsUseUp<T>(s: Stream<T>, action: Action)
    requires Next(s, action).Some?
    ensures Remaining(Next(s, action).value) < Remaining(s)
  {
  }

  lemma {:induction false} RunsAreFinite<T>(capacity: nat, script: seq<T>, actions: seq<Action>)
    requires Runs(capacity, script, actions).Some?
    ensures |actions| <= 6 * |script| + 5
    ensures |actions| + Remaining(Runs(capacity, script, actions).value) <= 6 * |script| + 5
  {
    hide Next;
    if actions != [] {
      RunsAreFinite(capacity, script, actions[..|actions| - 1]);
      StepsUseUp(Runs(capacity, script, actions[..|actions| - 1]).value, actions[|actions| - 1]);
    }
  }

  ghost predicate Enabled<T>(s: Stream<T>, action: Action) {
    Next(s, action).Some?
  }

  /** No reachable state is stuck: until `pump` has returned, some step is
      enabled. */
  lemma NeverStuck<T>(capacity: nat, script: seq<T>, actions: seq<Action>)
    requires Runs(capacity, script, actions).Some? && !Runs(capacity, script, actions).value.producer.Finished?
    ensures exists action :: Enabled(Runs(capacity, script, actions).value, action)
  {
    RunsKeepInv(capacity, script, actions);
    hide Runs;
    var s := Runs(capacity, script, actions).value;
    match s.producer {
      case Producing(_) => assert Enabled(s, Return(true));
      case MustFail => assert Enabled(s, FailProducer);
      case MustClose(_) => assert Enabled(s, Close);
      case Joining(_) =>
        var action :=
          match s.consumer
          case Waiting => Pop
          case Holding(_) => Deliver(true)
          case MustReport => FailConsumer
          case Stopped(_) => Join(true);
        assert Enabled(s, action);
      case Finished(_) =>
    }
  }

  /** A blocked push is always released: if the queue is full, the consumer can
      step. */
  lemma BackpressureIsReleased<T>(capacity: nat, script: seq<T>, actions: seq<Action>)
    requires Runs(capacity, script, actions).Some?
    requires var s := Runs(capacity, script, actions).value;
      s.producer.Producing? && s.producer.todo != [] && !Enabled(s, Push)
    ensures var s := Runs(capacity, script, actions).value;
      Enabled(s, Pop) || Enabled(s, Deliver(true)) || Enabled(s, FailConsumer)
  {
    RunsKeepInv(capacity, script, actions);
    hide Runs;
    var s := Runs(capacity, script, actions).value;
    assert s.queue != [];
  }

  const BYTES_PER_CHUNK := 2 * 1024 * 1024

  function Clamp(value: nat, low: nat, high: nat): nat
    requires low <= high
  {
    if value < low then low else if value > high then high else value
  }

  /** `stream_capacity`. */
  function StreamCapacity(maxInFlight: nat, softBudget: nat): nat {
    var budgetCapacity := Clamp(Larger(softBudget, BYTES_PER_CHUNK) / BYTES_PER_CHUNK, 1, 128);
    if maxInFlight == 0 then budgetCapacity
    else
      var window := Clamp(maxInFlight, 1, 4096);
      if window <= budgetCapacity then window else budgetCapacity
  }

  /** The window is the largest there is of at most 128 chunks, no more than asked for,
      that fits the budget at 2 MiB a chunk; one chunk is always allowed. */
  lemma CapacityFits(maxInFlight: nat, softBudget: nat)
    ensures Fits(StreamCapacity(maxInFlight, softBudget), maxInFlight, softBudget)
    ensures forall window :: Fits(window, maxInFlight, softBudget) ==> window <= StreamCapacity(maxInFlight, softBudget)
  {
    var budget := Larger(softBudget, BYTES_PER_CHUNK);
    Recompose(budget, BYTES_PER_CHUNK);
    forall window | Fits(window, maxInFlight, softBudget)
      ensures window <= StreamCapacity(maxInFlight, softBudget)
    {
      assert window * BYTES_PER_CHUNK <= budget;
    }
  }

  predicate Fits(window: int, maxInFlight: nat, softBudget: nat) {
    && 1 <= window <= 128
    && (maxInFlight > 0 ==> window <= maxInFlight)
    && (window == 1 || window * 0x20_0000 <= softBudget)
  }
}
