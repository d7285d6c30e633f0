/** `BoundedThreadPool` as a step system over its mutex: clients submitting,
    workers taking and running tasks, and the destructor. A condition-variable
    wait is a step enabled only while its predicate holds. Tasks are named by the
    order in which their submission began. */
module ThreadPools {
  import opened Options

  type Task = nat

  datatype Worker = Waiting | Running(task: Task) | Exited
  datatype Client = Idle | Submitting(task: Task)
  datatype Owner = Alive | Joining | Destroyed

  datatype Pool = Pool(
    capacity: nat, tasks: seq<Task>, accepting: bool, workers: seq<Worker>, clients: seq<Client>, owner: Owner,
    begun: nat, accepted: seq<Task>, dequeued: seq<Task>, ran: seq<Task>)

  datatype Action =
    | BeginSubmit(client: nat) | Accept(client: nat) | Reject(client: nat)
    | Take(worker: nat) | Run(worker: nat) | Exit(worker: nat)
    | Shutdown | Join

  function ClientStep(p: Pool, c: nat, action: Action): Option<Pool> {
    if c >= |p.clients| || p.owner.Destroyed? then None
    else
      match (action, p.clients[c])
      case (BeginSubmit(_), Idle) => Some(p.(clients := p.clients[c := Submitting(p.begun)], begun := p.begun + 1))
      case (Accept(_), Submitting(task)) =>
        if p.accepting && |p.tasks| < p.capacity then
          Some(p.(clients := p.clients[c := Idle], tasks := p.tasks + [task], accepted := p.accepted + [task]))
        else None
      case (Reject(_), Submitting(_)) => if p.accepting then None else Some(p.(clients := p.clients[c := Idle]))
      case _ => None
  }

  /** `worker_loop`. */
  function WorkerStep(p: Pool, w: nat, action: Action): Option<Pool> {
    if w >= |p.workers| then None
    else
      match (action, p.workers[w])
      case (Take(_), Waiting) =>
        if p.tasks == [] then None
        else Some(p.(workers :=
          p.workers[w := Running(p.tasks[0])], tasks := p.tasks[1..], dequeued := p.dequeued + [p.tasks[0]]))
      case (Run(_), Running(task)) => Some(p.(workers := p.workers[w := Waiting], ran := p.ran + [task]))
      case (Exit(_), Waiting) =>
        if p.tasks == [] && !p.accepting then Some(p.(workers := p.workers[w := Exited])) else None
      case _ => None
  }

  function OwnerStep(p: Pool, action: Action): Option<Pool> {
    match (action, p.owner)
    case (Shutdown, Alive) => Some(p.(accepting := false, owner := Joining))
    case (Join, Joining) => if forall w | 0 <= w < |p.workers| ::
      p.workers[w].Exited? then Some(p.(owner := Destroyed)) else None
    case _ => None
  }

  function Next(p: Pool, action: Action): Option<Pool> {
    match action
    case BeginSubmit(c) => ClientStep(p, c, action)
    case Accept(c) => ClientStep(p, c, action)
    case Reject(c) => ClientStep(p, c, action)
    case Take(w) => WorkerStep(p, w, action)
    case Run(w) => WorkerStep(p, w, action)
    case Exit(w) => WorkerStep(p, w, action)
    case _ => OwnerStep(p, action)
  }

  function AtLeastOne(n: nat): nat {
    if n == 0 then 1 else n
  }

  function Start(workers: nat, capacity: nat, clients: nat): Pool {
    Pool(AtLeastOne(capacity), [], true, seq(AtLeastOne(workers), _ => Waiting), seq(clients, _ => Idle), Alive, 0, [],
      [], [])
  }

  function Runs(workers: nat, capacity: nat, clients: nat, actions: seq<Action>): Option<Pool> {
    if actions == [] then Some(Start(workers, capacity, clients))
    else
      match Runs(workers, capacity, clients, actions[..|actions| - 1])
      case None => None
      case Some(p) => Next(p, actions[|actions| - 1])
  }

  function One(b: bool): nat {
    if b then 1 else 0
  }

  /** How many workers are running a task right now. */
  function InFlight(workers: seq<Worker>, task: Task): nat {
    if workers == [] then 0
    else InFlight(workers[..|workers| - 1], task) + One(workers[|workers| - 1] == Running(task))
  }

  lemma {:induction false} InFlightUpdate(workers: seq<Worker>, w: nat, worker: Worker, task: Task)
    requires w < |workers|
    ensures InFlight(workers[w := worker], task) + One(workers[w] == Running(task))
      == InFlight(workers, task) + One(worker == Running(task))
  {
    var init, last := workers[..|workers| - 1], |workers| - 1;
    if w == last {
      assert workers[w := worker][..last] == init;
    } else {
      assert workers[w := worker][..last] == init[w := worker];
      InFlightUpdate(init, w, worker, task);
    }
  }

  lemma {:induction false} InFlightNothing(workers: seq<Worker>, task: Task)
    requires forall w | 0 <= w < |workers| :: !workers[w].Running?
    ensures InFlight(workers, task) == 0
  {
    if workers != [] {
      InFlightNothing(workers[..|workers| - 1], task);
    }
  }

  ghost predicate Unique(tasks: seq<Task>) {
    forall i, j | 0 <= i < j < |tasks| :: tasks[i] != tasks[j]
  }

  /** The queue is bounded, first in first out, and loses nothing. */
  ghost predicate Queued(p: Pool) {
    && |p.tasks| <= p.capacity && p.capacity >= 1 && |p.workers| >= 1
    && p.accepted == p.dequeued + p.tasks
    && (forall task: Task :: multiset(p.dequeued)[task] == multiset(p.ran)[task] + InFlight(p.workers, task))
  }

  /** Tickets are handed out once and accepted at most once. */
  ghost predicate Tickets(p: Pool) {
    && Unique(p.accepted)
    && (forall i | 0 <= i < |p.accepted| :: p.accepted[i] < p.begun)
    && (forall c | 0 <= c < |p.clients| && p.clients[c].Submitting? ::
      p.clients[c].task < p.begun && p.clients[c].task !in p.accepted)
    && (forall c, d | 0 <= c < d < |p.clients| && p.clients[c].Submitting? && p.clients[d].Submitting? ::
          p.clients[c].task != p.clients[d].task)
  }

  ghost predicate Ending(p: Pool) {
    && (p.accepting <==> p.owner.Alive?)
    && (forall w | 0 <= w < |p.workers| && p.workers[w].Exited? :: !p.accepting && p.tasks == [])
    && (p.owner.Destroyed? ==> forall w | 0 <= w < |p.workers| :: p.workers[w].Exited?)
  }

  ghost predicate Inv(p: Pool) {
    Queued(p) && Tickets(p) && Ending(p)
  }

  lemma ClientKeepsInv(p: Pool, c: nat, action: Action)
    requires Inv(p) && ClientStep(p, c, action).Some?
    ensures Inv(ClientStep(p, c, action).value)
  {
    hide InFlight;
    var after := ClientStep(p, c, action).value;
    assert p.accepted + (if action.Accept? then [p.clients[c].task] else []) == after.dequeued + after.tasks;
  }

  lemma WorkerKeepsInv(p: Pool, w: nat, action: Action)
    requires Inv(p) && WorkerStep(p, w, action).Some?
    ensures Inv(WorkerStep(p, w, action).value)
  {
    hide InFlight, Tickets;
    var after := WorkerStep(p, w, action).value;
    forall task: Task
      ensures multiset(after.dequeued)[task] == multiset(after.ran)[task] + InFlight(after.workers, task)
    {
      InFlightUpdate(p.workers, w, after.workers[w], task);
    }
    if action.Take? {
      assert p.dequeued + [p.tasks[0]] + p.tasks[1..] == p.accepted;
    }
    SameTickets(p, after);
  }

  lemma SameTickets(p: Pool, after: Pool)
    requires Tickets(p) && after.accepted == p.accepted && after.clients == p.clients && after.begun == p.begun
    ensures Tickets(after)
  {
  }

  lemma OwnerKeepsInv(p: Pool, action: Action)
    requires Inv(p) && OwnerStep(p, action).Some?
    ensures Inv(OwnerStep(p, action).value)
  {
    hide Tickets, InFlight;
    SameTickets(p, OwnerStep(p, action).value);
  }

  lemma StepKeepsInv(p: Pool, action: Action)
    requires Inv(p) && Next(p, action).Some?
    ensures Inv(Next(p, action).value)
  {
    hide Inv, ClientStep, WorkerStep, OwnerStep;
    if action.BeginSubmit? || action.Accept? || action.Reject? {
      ClientKeepsInv(p, action.client, action);
    } else if action.Take? || action.Run? || action.Exit? {
      WorkerKeepsInv(p, action.worker, action);
    } else {
      OwnerKeepsInv(p, action);
    }
  }

  lemma StartIsInv(workers: nat, capacity: nat, clients: nat)
    ensures Inv(Start(workers, capacity, clients))
  {
    forall task: Task
      ensures InFlight(Start(workers, capacity, clients).workers, task) == 0
    {
      InFlightNothing(Start(workers, capacity, clients).workers, task);
    }
  }

  lemma {:induction false} RunsKeepInv(workers: nat, capacity: nat, clients: nat, actions: seq<Action>)
    requires Runs(workers, capacity, clients, actions).Some?
    ensures Inv(Runs(workers, capacity, clients, actions).value)
  {
    hide Inv, Next;
    if actions == [] {
      StartIsInv(workers, capacity, clients);
    } else {
      RunsKeepInv(workers, capacity, clients, actions[..|actions| - 1]);
      StepKeepsInv(Runs(workers, capacity, clients, actions[..|actions| - 1]).value, actions[|actions| - 1]);
    }
  }

  lemma {:induction false} CapacityStays(workers: nat, capacity: nat, clients: nat, actions: seq<Action>)
    requires Runs(workers, capacity, clients, actions).Some?
    ensures Runs(workers, capacity, clients, actions).value.capacity == AtLeastOne(capacity)
  {
    if actions != [] {
      CapacityStays(workers, capacity, clients, actions[..|actions| - 1]);
    }
  }

  /** At every moment of every interleaving the queue is within the capacity the
      pool was made with, tasks leave it in the order they entered, and none has run twice. */
  lemma BoundedFifoOnce(workers: nat, capacity: nat, clients: nat, actions: seq<Action>)
    requires Runs(workers, capacity, clients, actions).Some?
    ensures var p := Runs(workers, capacity, clients, actions).value;
      && |p.tasks| <= AtLeastOne(capacity) && p.dequeued <= p.accepted
      && multiset(p.ran) <= multiset(p.accepted) && forall task :: multiset(p.ran)[task] <= 1
  {
    RunsKeepInv(workers, capacity, clients, actions);
    CapacityStays(workers, capacity, clients, actions);
    var p := Runs(workers, capacity, clients, actions).value;
    hide Runs, InFlight, Ending;
    assert multiset(p.accepted) == multiset(p.dequeued) + multiset(p.tasks);
    forall task: Task
      ensures multiset(p.accepted)[task] <= 1
    {
      UniqueOnce(p.accepted, task);
    }
  }

  lemma {:induction false} UniqueOnce(tasks: seq<Task>, task: Task)
    requires Unique(tasks)
    ensures multiset(tasks)[task] <= 1
  {
    if tasks != [] {
      var init, last := tasks[..|tasks| - 1], tasks[|tasks| - 1];
      assert tasks == init + [last];
      UniqueOnce(init, task);
      assert last !in init;
    }
  }

  /** Nothing is accepted once the shutdown has begun. */
  lemma NoneAfterShutdown(p: Pool, action: Action)
    requires !p.accepting && Next(p, action).Some?
    ensures Next(p, action).value.accepted == p.accepted && !Next(p, action).value.accepting
  {
  }

  /** The destructor returns only when every accepted task has run, exactly
      once. */
  lemma DestroyedMeansAllRan(workers: nat, capacity: nat, clients: nat, actions: seq<Action>)
    requires Runs(workers, capacity, clients, actions).Some?
    requires Runs(workers, capacity, clients, actions).value.owner.Destroyed?
    ensures var p := Runs(workers, capacity, clients, actions).value;
      p.tasks == [] && multiset(p.ran) == multiset(p.accepted)
  {
    RunsKeepInv(workers, capacity, clients, actions);
    var p := Runs(workers, capacity, clients, actions).value;
    hide Runs, InFlight, Tickets;
    forall task: Task
      ensures InFlight(p.workers, task) == 0
    {
      InFlightNothing(p.workers, task);
    }
    assert p.workers[0].Exited?;
    assert p.dequeued + [] == p.dequeued;
  }

  ghost predicate Enabled(p: Pool, action: Action) {
    Next(p, action).Some?
  }

  /** A submission blocked on a full queue is not stuck: some worker can step. */
  lemma FullQueueDrains(workers: nat, capacity: nat, clients: nat, actions: seq<Action>)
    requires Runs(workers, capacity, clients, actions).Some?
    requires var p := Runs(workers, capacity, clients, actions).value;
      p.accepting && |p.tasks| >= p.capacity
    ensures exists action: Action ::
      (action.Take? || action.Run?) && Enabled(Runs(workers, capacity, clients, actions).value, action)
  {
    RunsKeepInv(workers, capacity, clients, actions);
    hide Runs, InFlight, Tickets;
    var p := Runs(workers, capacity, clients, actions).value;
    assert !p.workers[0].Exited?;
    assert Enabled(p, if p.workers[0].Waiting? then Take(0) else Run(0));
  }

  /** The destructor is never stuck: while it waits, it or a worker can step. */
  lemma DestructorProceeds(workers: nat, capacity: nat, clients: nat, actions: seq<Action>)
    requires Runs(workers, capacity, clients, actions).Some?
    requires Runs(workers, capacity, clients, actions).value.owner.Joining?
    ensures exists action: Action ::
      (action.Take? || action.Run? || action.Exit? || action.Join?)
        && Enabled(Runs(workers, capacity, clients, actions).value, action)
  {
    RunsKeepInv(workers, capacity, clients, actions);
    hide Runs, InFlight, Tickets;
    var p := Runs(workers, capacity, clients, actions).value;
    if w :| 0 <= w < |p.workers| && !p.workers[w].Exited? {
      assert Enabled(p, if p.workers[w].Running? then Run(w) else if p.tasks == [] then Exit(w) else Take(w));
    } else {
      assert Enabled(p, Join);
    }
  }

  function Busy(workers: seq<Worker>): nat {
    if workers == [] then 0
    else
      Busy(workers[..|workers| - 1])
      + match workers[|workers| - 1] case Waiting => 1 case Running(_) => 2 case Exited => 0
  }

  function Load(worker: Worker): nat {
    match worker
    case Waiting => 1
    case Running(_) => 2
    case Exited => 0
  }

  lemma {:induction false} BusyUpdate(workers: seq<Worker>, w: nat, worker: Worker)
    requires w < |workers|
    ensures Busy(workers[w := worker]) + Load(workers[w]) == Busy(workers) + Load(worker)
  {
    var init, last := workers[..|workers| - 1], |workers| - 1;
    if w == last {
      assert workers[w := worker][..last] == init;
    } else {
      assert workers[w := worker][..last] == init[w := worker];
      BusyUpdate(init, w, worker);
    }
  }

  /** What is left for the workers and the destructor. */
  function Left(p: Pool): nat {
    2 * |p.tasks| + Busy(p.workers) + (match p.owner case Alive => 2 case Joining => 1 case Destroyed => 0)
  }

  /** Every step of the workers or the destructor uses some of it up, and after
      the shutdown no client adds to it: destruction takes a bounded number of
      their steps. */
  lemma WorkIsUsedUp(p: Pool, action: Action)
    requires Next(p, action).Some?
    ensures action.Take? || action.Run? || action.Exit? || action.Shutdown? || action.Join? ==>
      Left(Next(p, action).value) < Left(p)
    ensures !p.accepting ==> Left(Next(p, action).value) <= Left(p)
  {
    if action.Take? || action.Run? || action.Exit? {
      var w := action.worker;
      BusyUpdate(p.workers, w, Next(p, action).value.workers[w]);
    }
  }
}
