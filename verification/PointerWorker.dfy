/**
  The pointer mailbox of src/input.rs as a step system: movers, one worker and one
  flusher over a lock and two `Notify` objects.

  `Notify` is modelled as tokio documents it: `notify_one` wakes a task that is parked,
  otherwise it stores one permit; a `notified()` future takes the permit, or parks, when
  it is first polled.
*/
module PointerWorker {
  import opened Common
  import opened PointerStates

  datatype Worker = Polling | Parked | Woken | Top | Dispatching(target: Position)

  datatype Flusher = Off | Checking | FlushPolling | FlushParked | FlushWoken

  /**
    `owed` counts movers that queued a target and are about to notify the worker.
    `requested` and `dispatched` record the queued and the dispatched targets. `lost` says that
    a failed dispatch gave up the newest target, `told` that a caller got the error since.
  */
  datatype State = State(p: Pointer, workPermit: bool, idlePermit: bool, worker: Worker, flusher: Flusher, owed: nat,
                         requested: seq<Position>, dispatched: seq<Position>, lost: bool, told: bool)

  function Initial(at: Position): State {
    State(Pointer(at, at.x as real, at.y as real, None, None, false, false), false, false, Polling, Off, 0, [], [], false, false)
  }

  datatype Action =
    | Move(m: Motion)
    | Notify
    | WorkerPolls
    | WorkerWakes
    | WorkerTakes
    | DispatchEnds(ok: bool)
    | FlushStarts
    | FlushChecks
    | FlushPolls
    | FlushWakes
    | FlushAbandoned

  predicate CanStep(s: State, a: Action) {
    match a
    case Move(_) => true
    case Notify => s.owed > 0
    case WorkerPolls => s.worker.Polling?
    case WorkerWakes => s.worker.Woken?
    case WorkerTakes => s.worker.Top?
    case DispatchEnds(_) => s.worker.Dispatching?
    case FlushStarts => s.flusher.Off?
    case FlushChecks => s.flusher.Checking?
    case FlushPolls => s.flusher.FlushPolling?
    case FlushWakes => s.flusher.FlushWoken?
    case FlushAbandoned => !s.flusher.Off?
  }

  function IdleNotified(s: State): State {
    if s.flusher.FlushParked? then s.(flusher := FlushWoken) else s.(idlePermit := true)
  }

  function Step(s: State, a: Action): State
    requires CanStep(s, a)
  {
    match a
    case Move(m) =>
      var moved := s.(p := s.p.Moved(m));
      if s.p.failed then moved.(told := true)
      else if s.p.Queues(m) then
        moved.(owed := s.owed + 1, requested := s.requested + [moved.p.Target()], lost := false)
      else moved.(lost := false)
    case Notify =>
      if s.worker.Parked? then s.(owed := s.owed - 1, worker := Woken) else s.(owed := s.owed - 1, workPermit := true)
    case WorkerPolls => if s.workPermit then s.(workPermit := false, worker := Top) else s.(worker := Parked)
    case WorkerWakes => s.(worker := Top)
    case WorkerTakes =>
      if s.p.pending.None? then IdleNotified(s.(p := s.p.Taken(), worker := Polling))
      else s.(p := s.p.Taken(), worker := Dispatching(s.p.pending.value), dispatched := s.dispatched + [s.p.pending.value])
    case DispatchEnds(ok) =>
      var gone := !ok && s.p.pending.None? && s.worker.target != s.p.cursor;
      IdleNotified(s.(p := s.p.Completed(s.worker.target, ok), worker := if s.p.pending.None? then Polling else Top,
                      lost := gone || s.lost, told := !gone && s.told))
    case FlushStarts => s.(flusher := Checking)
    case FlushChecks =>
      if s.p.failed then s.(p := s.p.(failed := false), flusher := Off, told := true)
      else s.(flusher := if s.p.IsIdle() then Off else FlushPolling)
    case FlushPolls => if s.idlePermit then s.(idlePermit := false, flusher := Checking) else s.(flusher := FlushParked)
    case FlushWakes => s.(flusher := Checking)
    // A woken future that is dropped hands its notification on.
    case FlushAbandoned => s.(flusher := Off, idlePermit := s.idlePermit || s.flusher.FlushWoken?)
  }

  predicate Legal(s: State, run: seq<Action>)
    decreases |run|
  {
    run == [] || (CanStep(s, run[0]) && Legal(Step(s, run[0]), run[1..]))
  }

  function End(s: State, run: seq<Action>): State
    requires Legal(s, run)
    decreases |run|
  {
    if run == [] then s else End(Step(s, run[0]), run[1..])
  }

  // ---------------------------------------------------------------------
  // The invariant
  // ---------------------------------------------------------------------

  /** The lock-protected flags mirror the worker's place in its loop. */
  predicate WorkerOk(s: State) {
    && s.p.busy == s.worker.Dispatching?
    && s.p.inFlight == (if s.worker.Dispatching? then Some(s.worker.target) else None)
  }

  /** A queued target always has someone on the way to it. */
  predicate NoLostWakeup(s: State) {
    && (s.worker.Parked? ==> !s.workPermit)
    && (s.p.pending.Some? ==> s.owed > 0 || s.workPermit || s.worker.Woken? || s.worker.Top? || s.worker.Dispatching?)
  }

  /** A flusher that will wait has a wake-up stored or work left to wait for. */
  predicate FlusherOk(s: State) {
    && (s.flusher.FlushParked? ==> !s.idlePermit)
    && (s.flusher.FlushPolling? || s.flusher.FlushParked? ==> s.idlePermit || !s.p.IsIdle())
  }

  /** The position everything queued leads to is the rounded request. */
  predicate InSync(s: State) {
    s.p.Latest() == s.p.Target()
  }

  predicate SyncOk(s: State) {
    && (InSync(s) <==> !s.lost)
    && (s.lost ==> s.p.IsIdle() && (s.p.failed || s.told))
  }

  function Queue(s: State): seq<Position> {
    s.dispatched + if s.p.pending.Some? then [s.p.pending.value] else []
  }

  /** Targets are dispatched in the order requested, the newest one is never skipped. */
  predicate OrderOk(s: State) {
    && Subsequence(Queue(s), s.requested)
    && (s.requested == [] <==> Queue(s) == [])
    && (s.requested != [] ==> s.requested[|s.requested| - 1] == Queue(s)[|Queue(s)| - 1])
  }

  predicate Inv(s: State) {
    WorkerOk(s) && NoLostWakeup(s) && FlusherOk(s) && SyncOk(s) && OrderOk(s)
  }

  /** A mover touches the coordinates, and the queue exactly when it has to notify. */
  lemma Moving(p: Pointer, m: Motion)
    ensures var p' := p.Moved(m);
            && p'.busy == p.busy && p'.inFlight == p.inFlight && p'.cursor == p.cursor && !p'.failed
            && (p.failed ==> p' == p.(failed := false) && !p.Queues(m))
            && (!p.failed ==> p'.Latest() == p'.Target())
            && p'.pending == if p.Queues(m) then Some(p'.Target()) else p.pending
  {
    hide Round, Clamp;
  }

  /** The steps of the worker itself. */
  predicate OfWorker(a: Action) {
    a.WorkerPolls? || a.WorkerWakes? || a.WorkerTakes? || a.DispatchEnds?
  }

  lemma WorkerStep(s: State, a: Action)
    requires WorkerOk(s) && CanStep(s, a)
    ensures WorkerOk(Step(s, a))
  {
    if OfWorker(a) {
      WorkerMoves(s, a);
    } else {
      OthersLeaveWorker(s, a);
    }
    hide Step, CanStep;
  }

  lemma WorkerMoves(s: State, a: Action)
    requires WorkerOk(s) && CanStep(s, a) && OfWorker(a)
    ensures WorkerOk(Step(s, a))
  {
    hide Pointer.Target, Pointer.Latest, Pointer.IsIdle;
  }

  /** The worker is parked and woken, but stays where it is in its loop. */
  lemma OthersLeaveWorker(s: State, a: Action)
    requires CanStep(s, a) && !OfWorker(a)
    ensures var s' := Step(s, a);
            && (s'.worker == s.worker || (s.worker.Parked? && s'.worker.Woken?))
            && s'.p.busy == s.p.busy && s'.p.inFlight == s.p.inFlight
  {
    hide Pointer.Moved, Pointer.Queues, Pointer.Target, Pointer.Latest, Pointer.IsIdle;
    if a.Move? {
      Moving(s.p, a.m);
    }
  }

  lemma WakeupStep(s: State, a: Action)
    requires NoLostWakeup(s) && CanStep(s, a)
    ensures NoLostWakeup(Step(s, a))
  {
    hide Pointer.Moved, Pointer.Queues, Pointer.Target, Pointer.Latest, Pointer.IsIdle;
    if a.Move? {
      Moving(s.p, a.m);
    }
  }

  lemma FlusherStep(s: State, a: Action)
    requires WorkerOk(s) && FlusherOk(s) && CanStep(s, a)
    ensures FlusherOk(Step(s, a))
  {
    hide Pointer.Moved, Pointer.Queues, Pointer.Target, Pointer.Latest;
    if a.Move? {
      Moving(s.p, a.m);
    }
  }

  lemma SyncStep(s: State, a: Action)
    requires WorkerOk(s) && SyncOk(s) && CanStep(s, a)
    ensures SyncOk(Step(s, a))
  {
    hide Round, Clamp, Pointer.Moved, Pointer.Queues;
    if a.Move? {
      Moving(s.p, a.m);
    }
  }

  lemma QueueStep(s: State, a: Action)
    requires CanStep(s, a)
    ensures var s' := Step(s, a);
            if a.Move? && s.p.Queues(a.m)
            then s'.requested == s.requested + [s'.p.Target()] && Queue(s') == s.dispatched + [s'.p.Target()]
            else s'.requested == s.requested && Queue(s') == Queue(s)
  {
    if a.Move? {
      QueueOnMove(s, a);
    } else {
      QueueOtherwise(s, a);
    }
    hide Step, CanStep, Queue, Pointer.Queues;
  }

  lemma QueueOnMove(s: State, a: Action)
    requires a.Move?
    ensures var s' := Step(s, a);
            if s.p.Queues(a.m)
            then s'.requested == s.requested + [s'.p.Target()] && Queue(s') == s.dispatched + [s'.p.Target()]
            else s'.requested == s.requested && Queue(s') == Queue(s)
  {
    hide Pointer.Moved, Pointer.Queues, Pointer.Target, Pointer.Latest;
    Moving(s.p, a.m);
  }

  lemma QueueOtherwise(s: State, a: Action)
    requires CanStep(s, a) && !a.Move?
    ensures Step(s, a).requested == s.requested && Queue(Step(s, a)) == Queue(s)
  {
    hide Pointer.Target, Pointer.Latest, Pointer.IsIdle;
    if a.WorkerTakes? && s.p.pending.Some? {
      var now := s.dispatched + [s.p.pending.value];
      assert now + [] == now;
    }
  }

  lemma OrderStep(s: State, a: Action)
    requires OrderOk(s) && CanStep(s, a)
    ensures OrderOk(Step(s, a))
  {
    hide Subsequence, Step, CanStep, Pointer.Queues, Pointer.Target;
    QueueStep(s, a);
    if a.Move? && s.p.Queues(a.m) {
      var t := Step(s, a).p.Target();
      QueueNewest(s.dispatched, if s.p.pending.Some? then [s.p.pending.value] else [], s.requested, t);
    }
  }

  /** Replacing the waiting target by a newer one only skips the older one. */
  lemma QueueNewest(done: seq<Position>, waiting: seq<Position>, requested: seq<Position>, t: Position)
    requires Subsequence(done + waiting, requested)
    ensures Subsequence(done + [t], requested + [t])
  {
    SubsequenceOfSelf(done);
    SubsequenceExtend(done, done, waiting);
    SubsequenceTransitive(done, done + waiting, requested);
    SubsequenceAppend(done, requested, [t]);
  }

  lemma StepInv(s: State, a: Action)
    requires Inv(s) && CanStep(s, a)
    ensures Inv(Step(s, a))
  {
    hide Step, CanStep, WorkerOk, NoLostWakeup, FlusherOk, SyncOk, OrderOk;
    WorkerStep(s, a);
    WakeupStep(s, a);
    FlusherStep(s, a);
    SyncStep(s, a);
    OrderStep(s, a);
  }

  lemma {:induction false} RunInv(s: State, run: seq<Action>)
    requires Inv(s) && Legal(s, run)
    ensures Inv(End(s, run))
    decreases |run|
  {
    hide Inv, Step, CanStep;
    if run != [] {
      StepInv(s, run[0]);
      RunInv(Step(s, run[0]), run[1..]);
    }
  }

  lemma InitialInv(at: Position)
    ensures Inv(Initial(at))
  {
  }

  // ---------------------------------------------------------------------
  // Every interleaving
  // ---------------------------------------------------------------------

  ghost predicate Reachable(s: State) {
    exists at: Position, run: seq<Action> :: Legal(Initial(at), run) && End(Initial(at), run) == s
  }

  lemma ReachableInv(s: State)
    requires Reachable(s)
    ensures Inv(s)
  {
    hide Inv, Step, CanStep;
    var at: Position, run: seq<Action> :| Legal(Initial(at), run) && End(Initial(at), run) == s;
    InitialInv(at);
    RunInv(Initial(at), run);
  }

  /** A queued target is never forgotten: the worker is on its way, or is about to be told. */
  lemma QueuedIsServed(s: State)
    requires Reachable(s) && s.p.pending.Some?
    ensures s.worker.Top? || s.worker.Dispatching? || s.worker.Woken? || s.workPermit || s.owed > 0
    ensures s.worker.Parked? ==> s.owed > 0
  {
    hide Step, CanStep;
    ReachableInv(s);
  }

  /** The steps that happen by themselves once no mover starts a move and no flusher starts or gives up. */
  predicate Internal(a: Action) {
    !a.Move? && !a.FlushStarts? && !a.FlushAbandoned?
  }

  function WorkerRank(s: State): nat {
    5 * s.owed + (if s.workPermit then 4 else 0) + (if s.p.pending.Some? then 2 else 0) +
    match s.worker
    case Parked => 0
    case Polling => 1
    case Top => 2
    case Woken => 3
    case Dispatching(_) => 3
  }

  function FlusherRank(s: State): nat {
    (if s.idlePermit then 3 else 0) +
    match s.flusher
    case Off => 0
    case FlushParked => 0
    case FlushPolling => 1
    case Checking => 2
    case FlushWoken => 3
  }

  function Rank(s: State): nat {
    4 * WorkerRank(s) + FlusherRank(s)
  }

  lemma IdleCost(s: State)
    ensures WorkerRank(IdleNotified(s)) == WorkerRank(s) && FlusherRank(IdleNotified(s)) <= FlusherRank(s) + 3
  {
    hide Pointer.Moved, Pointer.Target, Pointer.Latest;
  }

  /** A worker step lowers the worker's rank and leaves the flusher alone, up to one notification. */
  lemma WorkerRankFalls(s: State, a: Action)
    requires CanStep(s, a) && (a.Notify? || OfWorker(a))
    ensures WorkerRank(Step(s, a)) < WorkerRank(s) && FlusherRank(Step(s, a)) <= FlusherRank(s) + 3
  {
    if a.WorkerTakes? {
      TakingRank(s);
    } else if a.DispatchEnds? {
      EndingRank(s, a.ok);
    } else {
      WakingRank(s, a);
    }
    hide Step, CanStep, WorkerRank, FlusherRank;
  }

  lemma WakingRank(s: State, a: Action)
    requires CanStep(s, a) && (a.Notify? || a.WorkerPolls? || a.WorkerWakes?)
    ensures WorkerRank(Step(s, a)) < WorkerRank(s) && FlusherRank(Step(s, a)) == FlusherRank(s)
  {
    hide Pointer.Target, Pointer.Latest;
  }

  lemma TakingRank(s: State)
    requires CanStep(s, WorkerTakes)
    ensures var s' := Step(s, WorkerTakes); WorkerRank(s') < WorkerRank(s) && FlusherRank(s') <= FlusherRank(s) + 3
  {
    hide IdleNotified, Pointer.Target, Pointer.Latest;
    if s.p.pending.None? {
      IdleCost(s.(p := s.p.Taken(), worker := Polling));
    }
  }

  lemma EndingRank(s: State, ok: bool)
    requires CanStep(s, DispatchEnds(ok))
    ensures var s' := Step(s, DispatchEnds(ok)); WorkerRank(s') < WorkerRank(s) && FlusherRank(s') <= FlusherRank(s) + 3
  {
    hide IdleNotified, Pointer.Target, Pointer.Latest;
    var gone := !ok && s.p.pending.None? && s.worker.target != s.p.cursor;
    IdleCost(s.(p := s.p.Completed(s.worker.target, ok), worker := if s.p.pending.None? then Polling else Top,
                lost := gone || s.lost, told := !gone && s.told));
  }

  lemma FlusherRankFalls(s: State, a: Action)
    requires CanStep(s, a) && (a.FlushChecks? || a.FlushPolls? || a.FlushWakes?)
    ensures WorkerRank(Step(s, a)) == WorkerRank(s) && FlusherRank(Step(s, a)) < FlusherRank(s)
  {
    hide Pointer.Target, Pointer.Latest;
  }

  lemma RankFalls(s: State, a: Action)
    requires CanStep(s, a) && Internal(a)
    ensures Rank(Step(s, a)) < Rank(s)
  {
    hide Step, CanStep, WorkerRank, FlusherRank;
    if a.FlushChecks? || a.FlushPolls? || a.FlushWakes? {
      FlusherRankFalls(s, a);
    } else {
      WorkerRankFalls(s, a);
    }
  }

  /** Left alone, the mailbox comes to rest within `Rank` steps, whichever steps are taken. */
  lemma {:induction false} Settles(s: State, run: seq<Action>)
    requires Legal(s, run) && forall a :: a in run ==> Internal(a)
    ensures |run| + Rank(End(s, run)) <= Rank(s)
    decreases |run|
  {
    hide Step, CanStep, Rank, Internal;
    if run != [] {
      assert run[0] in run;
      RankFalls(s, run[0]);
      Settles(Step(s, run[0]), run[1..]);
    }
  }

  /** No deadlock: while a flusher is inside `flush_pointer`, some internal step can be taken. */
  lemma FlusherNeverStuck(s: State) returns (a: Action)
    requires Inv(s) && !s.flusher.Off?
    ensures CanStep(s, a) && Internal(a)
  {
    hide Step;
    a := match s.flusher
      case Checking => FlushChecks
      case FlushPolling => FlushPolls
      case FlushWoken => FlushWakes
      case _ =>
        if s.owed > 0 then Notify
        else match s.worker
          case Dispatching(_) => DispatchEnds(true)
          case Top => WorkerTakes
          case Woken => WorkerWakes
          case _ => WorkerPolls;
  }

  /** So a flush returns: a run of internal steps that cannot go on has let it out, after at most `Rank` steps. */
  lemma FlushReturns(s: State, run: seq<Action>)
    requires Reachable(s) && Legal(s, run) && (forall a :: a in run ==> Internal(a))
    requires forall a :: Internal(a) ==> !CanStep(End(s, run), a)
    ensures End(s, run).flusher.Off? && |run| <= Rank(s)
  {
    hide Step, CanStep, Inv, Rank, Internal;
    ReachableInv(s);
    RunInv(s, run);
    Settles(s, run);
    if !End(s, run).flusher.Off? {
      var a := FlusherNeverStuck(End(s, run));
    }
  }

  /** Targets reach the compositor in the order requested, and the newest one is dispatched or queued. */
  lemma DispatchOrder(s: State)
    requires Reachable(s)
    ensures Subsequence(s.dispatched, s.requested)
    ensures s.requested != [] && s.p.pending.None? ==>
              s.dispatched != [] && s.dispatched[|s.dispatched| - 1] == s.requested[|s.requested| - 1]
  {
    hide Step, CanStep, Subsequence;
    ReachableInv(s);
    SubsequenceOfSelf(s.dispatched);
    SubsequenceExtend(s.dispatched, s.dispatched, if s.p.pending.Some? then [s.p.pending.value] else []);
    SubsequenceTransitive(s.dispatched, Queue(s), s.requested);
    assert s.dispatched + [] == s.dispatched;
  }

  /** This look makes `flush_pointer` return, and there is no error to report. */
  predicate FlushReturnsOk(s: State) {
    s.flusher.Checking? && !s.p.failed && Step(s, FlushChecks).flusher.Off?
  }

  lemma OkMeansIdle(s: State)
    requires FlushReturnsOk(s)
    ensures s.p.IsIdle()
  {
    hide Pointer.Target, Pointer.Latest;
  }

  /**
    When `flush_pointer` returns Ok, the last completed `movecursor` is the rounded request,
    unless a failed dispatch lost it; then some caller has been given the error before.
  */
  lemma ClickPosition(s: State)
    requires Reachable(s) && FlushReturnsOk(s)
    ensures s.p.cursor == s.p.Target() <==> !s.lost
    ensures s.lost ==> s.told
  {
    OkMeansIdle(s);
    hide Step, CanStep;
    ReachableInv(s);
  }

  /**
    The error of a failed dispatch waits for the next mover or flusher, who gets it and nothing else: a
    refused move leaves coordinates and queue alone. Nobody else takes it away, save for a later dispatch.
  */
  lemma ErrorReachesOneCaller(s: State, a: Action)
    requires s.p.failed && CanStep(s, a)
    ensures a.Move? ==> Step(s, a).p == s.p.(failed := false) && Step(s, a).told && Step(s, a).owed == s.owed
    ensures a.FlushChecks? ==> Step(s, a).p == s.p.(failed := false) && Step(s, a).told && Step(s, a).flusher.Off?
    ensures !a.Move? && !a.FlushChecks? && !a.DispatchEnds? ==> Step(s, a).p.failed
  {
    hide Pointer.Target, Pointer.Latest, Pointer.IsIdle, Pointer.At;
  }

  predicate NoFailure(run: seq<Action>) {
    forall a :: a in run ==> a != DispatchEnds(false)
  }

  lemma {:induction false} LossNeedsFailure(s: State, run: seq<Action>)
    requires Legal(s, run) && NoFailure(run) && !s.lost
    ensures !End(s, run).lost
    decreases |run|
  {
    hide Pointer.Moved, Pointer.Queues, Pointer.Target, Pointer.Latest;
    if run != [] {
      assert run[0] in run && forall a :: a in run[1..] ==> a in run;
      LossNeedsFailure(Step(s, run[0]), run[1..]);
    }
  }

  /** In a run without a failed dispatch the position is in sync at every moment. */
  lemma AlwaysInSync(at: Position, run: seq<Action>)
    requires Legal(Initial(at), run) && NoFailure(run)
    ensures InSync(End(Initial(at), run))
  {
    hide Step, CanStep;
    InitialInv(at);
    RunInv(Initial(at), run);
    LossNeedsFailure(Initial(at), run);
  }

  /** The moves of a run, refused ones left out. */
  function Accepted(s: State, run: seq<Action>): seq<Motion>
    requires Legal(s, run)
    decreases |run|
  {
    if run == [] then []
    else (if run[0].Move? && !s.p.failed then [run[0].m] else []) + Accepted(Step(s, run[0]), run[1..])
  }

  function Motions(run: seq<Action>): seq<Motion> {
    if run == [] then [] else (if run[0].Move? then [run[0].m] else []) + Motions(run[1..])
  }

  /** Where the moves lead from (x, y): the last absolute one plus the relative ones since, cut after each. */
  function Follow(x: real, y: real, ms: seq<Motion>): (real, real)
    decreases |ms|
  {
    if ms == [] then (x, y)
    else
      match ms[0]
      case To(x', y') => Follow(Clamp(x'), Clamp(y'), ms[1..])
      case By(dx, dy) => Follow(Clamp(x + dx), Clamp(y + dy), ms[1..])
  }

  lemma CoordinateStep(s: State, a: Action)
    requires CanStep(s, a)
    ensures var s' := Step(s, a);
            (s'.p.x, s'.p.y) == Follow(s.p.x, s.p.y, if a.Move? && !s.p.failed then [a.m] else [])
  {
    hide Clamp;
    if a.Move? {
      assert Step(s, a).p == s.p.Moved(a.m);
      hide Step, CanStep, Pointer.Target, Pointer.Latest;
      assert [a.m][1..] == [];
    } else {
      OthersKeep(s, a);
      hide Step, CanStep;
    }
  }

  /** Only moves change the coordinates, and only a failed dispatch raises the error. */
  lemma OthersKeep(s: State, a: Action)
    requires CanStep(s, a) && !a.Move?
    ensures Kept(s.p, Step(s, a).p) && (a != DispatchEnds(false) && !s.p.failed ==> !Step(s, a).p.failed)
  {
    hide Pointer.Target, Pointer.Latest, Pointer.IsIdle, IdleNotified, Kept;
    if a.WorkerTakes? {
      KeptTaken(s.p);
      KeptNotified(s.(p := s.p.Taken(), worker := Polling));
    } else if a.DispatchEnds? {
      KeptCompleted(s.p, s.worker.target, a.ok);
      var gone := !a.ok && s.p.pending.None? && s.worker.target != s.p.cursor;
      KeptNotified(s.(p := s.p.Completed(s.worker.target, a.ok), worker := if s.p.pending.None? then Polling else Top,
                      lost := gone || s.lost, told := !gone && s.told));
    } else {
      KeptElse(s, a);
    }
    hide Step, CanStep;
  }

  predicate Kept(p: Pointer, p': Pointer) {
    p'.x == p.x && p'.y == p.y
  }

  lemma KeptTaken(p: Pointer)
    ensures Kept(p, p.Taken()) && p.Taken().failed == p.failed
  {
  }

  lemma KeptCompleted(p: Pointer, target: Position, ok: bool)
    ensures Kept(p, p.Completed(target, ok)) && p.Completed(target, ok).failed == !ok
  {
  }

  lemma KeptNotified(s: State)
    ensures IdleNotified(s).p == s.p
  {
  }

  lemma KeptElse(s: State, a: Action)
    requires CanStep(s, a) && !a.Move? && !a.WorkerTakes? && !a.DispatchEnds?
    ensures Kept(s.p, Step(s, a).p) && (!s.p.failed ==> !Step(s, a).p.failed)
  {
    hide Pointer.Target, Pointer.Latest, Pointer.IsIdle, IdleNotified;
  }

  lemma {:induction false} FollowAppend(x: real, y: real, a: seq<Motion>, b: seq<Motion>)
    ensures Follow(x, y, a + b) == Follow(Follow(x, y, a).0, Follow(x, y, a).1, b)
    decreases |a|
  {
    hide Clamp;
    if a == [] {
      assert a + b == b;
    } else {
      assert (a + b)[1..] == a[1..] + b;
      match a[0] {
        case To(x', y') => FollowAppend(Clamp(x'), Clamp(y'), a[1..], b);
        case By(dx, dy) => FollowAppend(Clamp(x + dx), Clamp(y + dy), a[1..], b);
      }
    }
  }

  /** In every run the coordinates are where the accepted moves lead. */
  lemma {:induction false} CoordinatesFollow(s: State, run: seq<Action>)
    requires Legal(s, run)
    ensures (End(s, run).p.x, End(s, run).p.y) == Follow(s.p.x, s.p.y, Accepted(s, run))
    decreases |run|
  {
    hide Step, CanStep, Clamp, Follow;
    if run == [] {
      FollowNothing(s.p.x, s.p.y);
    } else {
      var first := if run[0].Move? && !s.p.failed then [run[0].m] else [];
      CoordinateStep(s, run[0]);
      CoordinatesFollow(Step(s, run[0]), run[1..]);
      FollowAppend(s.p.x, s.p.y, first, Accepted(Step(s, run[0]), run[1..]));
    }
  }

  lemma FollowNothing(x: real, y: real)
    ensures Follow(x, y, []) == (x, y)
  {
  }

  predicate Near(p: Position, x: real, y: real) {
    -0.5 <= p.x as real - x <= 0.5 && -0.5 <= p.y as real - y <= 0.5
  }

  /** A click behind an Ok flush lands within half a pixel of where the accepted moves lead, unless a target was lost. */
  lemma ClickLands(at: Position, run: seq<Action>)
    requires Legal(Initial(at), run) && FlushReturnsOk(End(Initial(at), run)) && !End(Initial(at), run).lost
    ensures var (x, y) := Follow(at.x as real, at.y as real, Accepted(Initial(at), run));
            Near(End(Initial(at), run).p.cursor, x, y)
  {
    hide Step, CanStep, Follow, Round;
    var s := End(Initial(at), run);
    assert Reachable(s);
    ClickPosition(s);
    CoordinatesFollow(Initial(at), run);
    RoundIsNearest(s.p.x);
    RoundIsNearest(s.p.y);
  }

  lemma {:induction false} NothingRefused(s: State, run: seq<Action>)
    requires Legal(s, run) && NoFailure(run) && !s.p.failed
    ensures Accepted(s, run) == Motions(run)
    decreases |run|
  {
    if run != [] {
      assert run[0] in run && forall a :: a in run[1..] ==> a in run;
      StaysWell(s, run[0]);
      hide Step, CanStep;
      NothingRefused(Step(s, run[0]), run[1..]);
    }
  }

  lemma StaysWell(s: State, a: Action)
    requires CanStep(s, a) && a != DispatchEnds(false) && !s.p.failed
    ensures !Step(s, a).p.failed
  {
    if a.Move? {
      assert Step(s, a).p == s.p.Moved(a.m);
      hide Step, CanStep, Pointer.Target, Pointer.Latest;
    } else {
      OthersKeep(s, a);
      hide Step, CanStep;
    }
  }

  /** Without a failed dispatch no move is refused, and every click lands where all the moves lead. */
  lemma ClickLandsAlways(at: Position, run: seq<Action>)
    requires Legal(Initial(at), run) && NoFailure(run) && FlushReturnsOk(End(Initial(at), run))
    ensures var (x, y) := Follow(at.x as real, at.y as real, Motions(run));
            Near(End(Initial(at), run).p.cursor, x, y)
  {
    hide Step, CanStep, Follow, Near;
    LossNeedsFailure(Initial(at), run);
    ClickLands(at, run);
    NothingRefused(Initial(at), run);
  }

  /** The next accepted move repairs a lost position. */
  lemma MoveRepairs(s: State, m: Motion)
    requires Reachable(s) && !s.p.failed
    ensures InSync(Step(s, Move(m))) && !Step(s, Move(m)).lost
  {
    hide Pointer.Moved, Pointer.Queues;
    Moving(s.p, m);
  }

  /**
    How a click can land on the old position: the dispatch of (5, 0) fails, a later move is
    refused with the error, and the flush in front of the button then finds nothing to report.
  */
  lemma LostClick()
    ensures exists s :: Reachable(s) && FlushReturnsOk(s) && s.p.cursor != s.p.Target()
  {
    hide Step, CanStep, FlushReturnsOk;
    var at, p1 := Position(0, 0), Position(5, 0);
    var run := [Move(To(5.0, 0.0)), Notify, WorkerPolls, WorkerTakes, DispatchEnds(false), Move(To(6.0, 0.0)), FlushStarts];
    var states := [Initial(at), AfterMove(false, false), AfterMove(true, false), AfterMove(false, true), InDispatch(),
                   AfterFailure(true, false, Off), AfterFailure(false, true, Off), AfterFailure(false, true, Checking)];
    LostBefore();
    LostAfter();
    LostLook();
    LegalSteps(states, run);
    assert Reachable(states[7]);
    assert states[7].p.Target() == p1;
  }

  function AfterMove(permit: bool, top: bool): State {
    State(Pointer(Position(0, 0), 5.0, 0.0, Some(Position(5, 0)), None, false, false), permit, false,
          if top then Top else Polling, Off, if permit || top then 0 else 1, [Position(5, 0)], [], false, false)
  }

  function InDispatch(): State {
    State(Pointer(Position(0, 0), 5.0, 0.0, None, Some(Position(5, 0)), true, false), false, false,
          Dispatching(Position(5, 0)), Off, 0, [Position(5, 0)], [Position(5, 0)], false, false)
  }

  function AfterFailure(failed: bool, told: bool, flusher: Flusher): State {
    State(Pointer(Position(0, 0), 5.0, 0.0, None, None, false, failed), false, true,
          Polling, flusher, 0, [Position(5, 0)], [Position(5, 0)], true, told)
  }

  lemma LostBefore()
    ensures var m := Move(To(5.0, 0.0));
            && CanStep(Initial(Position(0, 0)), m) && Step(Initial(Position(0, 0)), m) == AfterMove(false, false)
    ensures CanStep(AfterMove(false, false), Notify) && Step(AfterMove(false, false), Notify) == AfterMove(true, false)
    ensures CanStep(AfterMove(true, false), WorkerPolls) && Step(AfterMove(true, false), WorkerPolls) == AfterMove(false, true)
    ensures CanStep(AfterMove(false, true), WorkerTakes) && Step(AfterMove(false, true), WorkerTakes) == InDispatch()
  {
  }

  lemma LostAfter()
    ensures CanStep(InDispatch(), DispatchEnds(false))
    ensures Step(InDispatch(), DispatchEnds(false)) == AfterFailure(true, false, Off)
    ensures Step(AfterFailure(true, false, Off), Move(To(6.0, 0.0))) == AfterFailure(false, true, Off)
    ensures CanStep(AfterFailure(true, false, Off), Move(To(6.0, 0.0)))
    ensures CanStep(AfterFailure(false, true, Off), FlushStarts)
    ensures Step(AfterFailure(false, true, Off), FlushStarts) == AfterFailure(false, true, Checking)
  {
  }

  lemma LostLook()
    ensures FlushReturnsOk(AfterFailure(false, true, Checking))
  {
  }

  lemma {:induction false} LegalSteps(states: seq<State>, run: seq<Action>)
    requires |states| == |run| + 1
    requires forall i :: 0 <= i < |run| ==> CanStep(states[i], run[i]) && states[i + 1] == Step(states[i], run[i])
    ensures Legal(states[0], run) && End(states[0], run) == states[|run|]
    decreases |run|
  {
    hide Step, CanStep;
    if run != [] {
      LegalSteps(states[1..], run[1..]);
    }
  }
}
