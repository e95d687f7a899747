/**
  The lifecycle of `AppWorkerBase` as a sequential state machine over an
  immutable record. The public members (`Initialize`, `Start`, `Stop`, the
  `State` setter and the token getters) are functions from one worker record
  to the next. The background task's effects are separate steps that a
  scheduler may interleave with them: the scheduler starting the task's
  delegate, the delegate setting `IsBusy`, the user loop returning, and the
  user loop throwing.

  `Start` creates a new `CancellationTokenSource` each time. The record keeps
  the cancelled flag of every source created so far: the field `TokenSource`
  is the last one, but an older task may still be running its loop.
*/
module AppWorker {
  import opened Wrappers

  datatype WorkerState = Stopped | Running

  /** The arguments of one `StateChanged` event. */
  datatype StateChange = StateChanged(oldState: WorkerState, newState: WorkerState)

  /** Calls of the virtual hooks, tagged with the generation of the task or token source involved. */
  datatype Hook = LoopException(generation: nat) | ThreadExit(generation: nat)

  /**
    Where the task created by one `Start` is: not yet run, running its
    delegate but before `IsBusy = true`, inside the user loop, or done.
  */
  datatype TaskPhase = Scheduled | Started | InLoop | Finished

  /** The `CancellationToken` getter: `default(CancellationToken)` before any start, else the token of a source. */
  datatype Token = NoToken | TokenOf(generation: nat)

  /** `InvalidOperationException` with its message. */
  datatype Error = InvalidOperation(message: string)

  const InitializeMessage := "Service cannot be initialized because it seems to be currently running"
  const StartMessage := "Service cannot be started because it seems to be currently running"

  /**
    The worker's observable state: `State`, `IsBusy`, the cancellation flag
    of each token source by generation (one per `Start`), the task started
    for each of them, the `StateChanged` events fired so far and the hook calls.
  */
  datatype Worker = Worker(
    state: WorkerState,
    isBusy: bool,
    cancelled: seq<bool>,
    tasks: seq<TaskPhase>,
    changes: seq<StateChange>,
    hooks: seq<Hook>)

  /** A call that either returns a new worker or throws, leaving the worker as it was. */
  datatype Reply = Reply(worker: Worker, thrown: Option<Error>)

  // ---------------------------------------------------------------------------
  // Invariant
  // ---------------------------------------------------------------------------

  /** Number of events that entered `Running`. */
  function Starts(changes: seq<StateChange>): nat
    decreases |changes|
  {
    if |changes| == 0 then 0
    else Starts(changes[..|changes| - 1]) + (if changes[|changes| - 1].newState == Running then 1 else 0)
  }

  /**
    The events form one history ending in `state`: starting from `Stopped`,
    each event leaves the state the previous one entered and changes it.
  */
  predicate History(changes: seq<StateChange>, state: WorkerState) {
    && (forall k :: 0 <= k < |changes| ==> changes[k].oldState != changes[k].newState)
    && (forall k :: 0 < k < |changes| ==> changes[k].oldState == changes[k - 1].newState)
    && (if |changes| == 0 then state == Stopped
        else changes[0].oldState == Stopped && changes[|changes| - 1].newState == state)
  }

  /**
    What holds of every worker reachable from the constructor: one task per
    token source and per start, a token source whenever running, every source
    but the last cancelled, and the last cancelled whenever stopped.
  */
  predicate Valid(w: Worker) {
    && |w.cancelled| == |w.tasks| == Starts(w.changes)
    && History(w.changes, w.state)
    && (w.state == Running ==> |w.cancelled| > 0)
    && (forall h :: 0 <= h < |w.cancelled| - 1 ==> w.cancelled[h])
    && (w.state == Stopped && |w.cancelled| > 0 ==> w.cancelled[|w.cancelled| - 1])
  }

  /**
    `IsBusy` is set only while the current token source is live. The code as
    written does not keep this (see `TaskSetsBusy`); the intended steps do.
  */
  predicate BusyMeansLive(w: Worker) {
    w.isBusy ==> |w.cancelled| > 0 && !w.cancelled[|w.cancelled| - 1]
  }

  lemma StartsAppend(changes: seq<StateChange>, e: StateChange)
    ensures Starts(changes + [e]) == Starts(changes) + (if e.newState == Running then 1 else 0)
  {
    assert (changes + [e])[..|changes|] == changes;
  }

  /** One more event that leaves the final state and enters the other one extends the history. */
  lemma HistoryAppend(changes: seq<StateChange>, from: WorkerState, to: WorkerState)
    requires History(changes, from) && from != to
    ensures History(changes + [StateChanged(from, to)], to)
    ensures Starts(changes + [StateChanged(from, to)]) == Starts(changes) + (if to == Running then 1 else 0)
  {
    StartsAppend(changes, StateChanged(from, to));
  }

  // ---------------------------------------------------------------------------
  // Properties and constructor
  // ---------------------------------------------------------------------------

  /**
    The private `State` setter: nothing happens when the value is the current
    state; otherwise the state changes and exactly one event carrying the old
    and the new state, in that order, is fired.
  */
  function SetState(w: Worker, value: WorkerState): (w': Worker)
    ensures w'.state == value
    ensures value == w.state ==> w'.changes == w.changes
    ensures value != w.state ==> w'.changes == w.changes + [StateChanged(w.state, value)]
    ensures w'.(state := w.state, changes := w.changes) == w
  {
    if value == w.state then w
    else w.(state := value, changes := w.changes + [StateChanged(w.state, value)])
  }

  /** The constructor: stopped, not busy, no token source and no event fired. */
  function New(): (w: Worker)
    ensures w.state == Stopped && !w.isBusy
    ensures w.changes == [] && w.hooks == []
    ensures CancellationToken(w) == NoToken && !CancellationPending(w)
    ensures Valid(w) && BusyMeansLive(w)
  {
    var blank := Worker(Stopped, false, [], [], [], []);
    SetState(blank, Stopped).(isBusy := false)
  }

  /** Whether a token reports cancellation; the default token never does. */
  function IsCancellationRequested(w: Worker, t: Token): bool
    requires t.TokenOf? ==> t.generation < |w.cancelled|
  {
    match t
    case NoToken => false
    case TokenOf(g) => w.cancelled[g]
  }

  /**
    The `CancellationToken` getter: the default token until the first
    `Start`, afterwards the token of the source the latest `Start` created.
  */
  function CancellationToken(w: Worker): (t: Token)
    ensures Valid(w) ==> (t == NoToken <==> Starts(w.changes) == 0)
    ensures Valid(w) && t.TokenOf? ==> t.generation + 1 == Starts(w.changes)
  {
    if |w.cancelled| == 0 then NoToken else TokenOf(|w.cancelled| - 1)
  }

  /** The obsolete `CancellationPending` getter: whether the current token reports cancellation. */
  function CancellationPending(w: Worker): (b: bool)
    ensures b == (CancellationToken(w).TokenOf? && IsCancellationRequested(w, CancellationToken(w)))
    ensures Valid(w) && w.state == Stopped ==> (b <==> Starts(w.changes) > 0)
  {
    |w.cancelled| > 0 && w.cancelled[|w.cancelled| - 1]
  }

  // ---------------------------------------------------------------------------
  // Cancellation
  // ---------------------------------------------------------------------------

  /**
    `Cancel()` on the source of generation `g`. The first call runs the
    callback registered by `CreateWorker` synchronously, which clears `IsBusy`
    and calls `OnWorkerThreadExit`; later calls do nothing.
  */
  function CancelSource(w: Worker, g: nat): (w': Worker)
    requires g < |w.cancelled|
    ensures w'.cancelled == w.cancelled[g := true]
    ensures w.cancelled[g] ==> w' == w
    ensures !w.cancelled[g] ==> !w'.isBusy && w'.hooks == w.hooks + [ThreadExit(g)]
    ensures w'.state == w.state && w'.tasks == w.tasks && w'.changes == w.changes
  {
    if w.cancelled[g] then w
    else w.(cancelled := w.cancelled[g := true], isBusy := false, hooks := w.hooks + [ThreadExit(g)])
  }

  // ---------------------------------------------------------------------------
  // Public operations
  // ---------------------------------------------------------------------------

  /** `Initialize()`: throws exactly when the worker is not stopped; it never changes the worker. */
  function Initialize(w: Worker): (thrown: Option<Error>)
    ensures thrown.Some? <==> w.state != Stopped
    ensures thrown.Some? ==> thrown.value == InvalidOperation(InitializeMessage)
  {
    if w.state != Stopped then Some(InvalidOperation(InitializeMessage)) else None
  }

  /**
    `Start()`: throws and changes nothing unless stopped; otherwise creates a
    new, uncancelled token source and a scheduled task for it, enters
    `Running` and fires exactly one `(Stopped, Running)` event.
  */
  function Start(w: Worker): (r: Reply)
    ensures r.thrown.Some? <==> w.state != Stopped
    ensures r.thrown.Some? ==> r.thrown.value == InvalidOperation(StartMessage) && r.worker == w
    ensures r.thrown.None? ==>
              && r.worker.state == Running
              && r.worker.cancelled == w.cancelled + [false]
              && r.worker.tasks == w.tasks + [Scheduled]
              && r.worker.changes == w.changes + [StateChanged(Stopped, Running)]
              && r.worker.isBusy == w.isBusy && r.worker.hooks == w.hooks
              && CancellationToken(r.worker) == TokenOf(|w.cancelled|)
              && !CancellationPending(r.worker)
    ensures Valid(w) ==> Valid(r.worker)
    ensures Valid(w) && BusyMeansLive(w) ==> BusyMeansLive(r.worker)
  {
    if w.state != Stopped then Reply(w, Some(InvalidOperation(StartMessage)))
    else
      // CreateWorker: a new token source, its exit callback, and the task.
      var created := w.(cancelled := w.cancelled + [false], tasks := w.tasks + [Scheduled]);
      var w' := SetState(created, Running);
      if Valid(w) then HistoryAppend(w.changes, Stopped, Running); Reply(w', None)
      else Reply(w', None)
  }

  /**
    `Stop()`: nothing when not running; otherwise cancels the current token
    source (running its exit callback if it was live), then enters `Stopped`
    and fires exactly one `(Running, Stopped)` event.
  */
  function Stop(w: Worker): (w': Worker)
    ensures w.state != Running ==> w' == w
    ensures w.state == Running ==>
              && w'.state == Stopped
              && w'.changes == w.changes + [StateChanged(Running, Stopped)]
              && w'.tasks == w.tasks
              && (|w.cancelled| > 0 ==> w'.cancelled == w.cancelled[|w.cancelled| - 1 := true])
    ensures w.state == Running && |w.cancelled| > 0 ==>
              var last := |w.cancelled| - 1;
              && w'.hooks == w.hooks + (if w.cancelled[last] then [] else [ThreadExit(last)])
              && w'.isBusy == (w.isBusy && w.cancelled[last])
    ensures w.state == Running && |w.cancelled| > 0 ==> CancellationPending(w')
    ensures Valid(w) ==> Valid(w')
    ensures Valid(w) && BusyMeansLive(w) ==> BusyMeansLive(w') && !w'.isBusy
  {
    if w.state != Running then w
    else
      var cancelled := if |w.cancelled| > 0 then CancelSource(w, |w.cancelled| - 1) else w;
      if Valid(w) then HistoryAppend(w.changes, Running, Stopped); SetState(cancelled, Stopped)
      else SetState(cancelled, Stopped)
  }

  /** Starting twice without a stop: the second call throws and the worker stays running. */
  lemma StartTwiceFails(w: Worker)
    requires w.state == Stopped
    ensures Start(w).thrown.None?
    ensures Start(Start(w).worker).thrown == Some(InvalidOperation(StartMessage))
    ensures Start(Start(w).worker).worker.state == Running
  {
  }

  // ---------------------------------------------------------------------------
  // Steps of the worker task
  // ---------------------------------------------------------------------------

  /**
    The scheduler picks up the task of generation `g`. A task whose token is
    already cancelled never runs its delegate; otherwise the delegate starts.
  */
  function TaskStarts(w: Worker, g: nat): (w': Worker)
    requires g < |w.tasks| == |w.cancelled| && w.tasks[g] == Scheduled
    ensures w.cancelled[g] ==> w' == w.(tasks := w.tasks[g := Finished])
    ensures !w.cancelled[g] ==> w' == w.(tasks := w.tasks[g := Started])
    ensures Valid(w) ==> Valid(w')
    ensures BusyMeansLive(w) ==> BusyMeansLive(w')
  {
    if w.cancelled[g] then w.(tasks := w.tasks[g := Finished])
    else w.(tasks := w.tasks[g := Started])
  }

  /**
    The delegate of generation `g` sets `IsBusy` and enters the user loop.
    It does so unconditionally: the token may have been cancelled, and its
    callback already run, since the delegate started.
  */
  function TaskSetsBusy(w: Worker, g: nat): (w': Worker)
    requires g < |w.tasks| && w.tasks[g] == Started
    ensures w'.isBusy && w'.tasks == w.tasks[g := InLoop]
    ensures w' == w.(isBusy := true, tasks := w'.tasks)
    ensures Valid(w) ==> Valid(w')
  {
    w.(tasks := w.tasks[g := InLoop], isBusy := true)
  }

  /**
    The corrected effect of setting `IsBusy`: a delegate whose
    token has already been cancelled leaves `IsBusy` alone.
  */
  function TaskSetsBusyIfLive(w: Worker, g: nat): (w': Worker)
    requires g < |w.tasks| == |w.cancelled| && w.tasks[g] == Started
    ensures w'.tasks == w.tasks[g := InLoop]
    ensures w'.isBusy == (w.isBusy || !w.cancelled[g])
    ensures w' == w.(isBusy := w'.isBusy, tasks := w'.tasks)
    ensures Valid(w) ==> Valid(w') && (BusyMeansLive(w) ==> BusyMeansLive(w'))
  {
    w.(tasks := w.tasks[g := InLoop], isBusy := w.isBusy || !w.cancelled[g])
  }

  /**
    The user loop of generation `g` returns normally: the task ends and
    nothing else happens; in particular neither `State` nor `IsBusy` changes.
  */
  function LoopReturns(w: Worker, g: nat): (w': Worker)
    requires g < |w.tasks| && w.tasks[g] == InLoop
    ensures w' == w.(tasks := w.tasks[g := Finished])
    ensures Valid(w) ==> Valid(w')
    ensures BusyMeansLive(w) ==> BusyMeansLive(w')
  {
    w.(tasks := w.tasks[g := Finished])
  }

  /**
    The user loop of generation `g` throws. An `AggregateException` is
    ignored. Any other exception is logged, passed to
    `OnWorkerThreadLoopException`, and the source held in the field
    `TokenSource` (the current one, whichever task threw) is cancelled
    unless cancellation was already requested. `State` never changes.
  */
  function LoopThrows(w: Worker, g: nat, aggregate: bool): (w': Worker)
    requires Valid(w) && g < |w.tasks| && w.tasks[g] == InLoop
    ensures w'.state == w.state && w'.changes == w.changes
    ensures w'.tasks == w.tasks[g := Finished]
    ensures aggregate ==> w' == w.(tasks := w.tasks[g := Finished])
    ensures !aggregate ==> CancellationPending(w')
    ensures !aggregate && CancellationPending(w) ==>
              w' == w.(tasks := w.tasks[g := Finished], hooks := w.hooks + [LoopException(g)])
    ensures !aggregate && !CancellationPending(w) ==>
              && !w'.isBusy
              && w'.cancelled == w.cancelled[|w.cancelled| - 1 := true]
              && w'.hooks == w.hooks + [LoopException(g), ThreadExit(|w.cancelled| - 1)]
    ensures Valid(w')
    ensures BusyMeansLive(w) ==> BusyMeansLive(w')
  {
    var ended := w.(tasks := w.tasks[g := Finished]);
    if aggregate then ended
    else
      var reported := ended.(hooks := ended.hooks + [LoopException(g)]);
      var last := |w.cancelled| - 1;
      if !reported.cancelled[last] then CancelSource(reported, last) else reported
  }

  /**
    The corrected failure handling: the task cancels its own token
    source, not whatever source the field holds when it fails.
  */
  function LoopThrowsOwnToken(w: Worker, g: nat, aggregate: bool): (w': Worker)
    requires Valid(w) && g < |w.tasks| && w.tasks[g] == InLoop
    ensures w'.state == w.state && w'.changes == w.changes
    ensures w'.tasks == w.tasks[g := Finished]
    ensures !aggregate ==> w'.cancelled == w.cancelled[g := true]
    ensures aggregate ==> w' == w.(tasks := w.tasks[g := Finished])
    ensures !aggregate ==>
              && w'.hooks == w.hooks + [LoopException(g)] + (if w.cancelled[g] then [] else [ThreadExit(g)])
              && w'.isBusy == (w.isBusy && w.cancelled[g])
    ensures Valid(w')
    ensures BusyMeansLive(w) ==> BusyMeansLive(w')
  {
    var ended := w.(tasks := w.tasks[g := Finished]);
    if aggregate then ended
    else
      var reported := ended.(hooks := ended.hooks + [LoopException(g)]);
      if !reported.cancelled[g] then CancelSource(reported, g) else reported
  }

  /** With the intended handling, a task from an earlier start that fails leaves the current run alone. */
  lemma StaleFailureSparesCurrentRun(w: Worker, g: nat, aggregate: bool)
    requires Valid(w) && g < |w.tasks| - 1 && w.tasks[g] == InLoop
    ensures LoopThrowsOwnToken(w, g, aggregate).cancelled == w.cancelled
    ensures LoopThrowsOwnToken(w, g, aggregate).isBusy == w.isBusy
  {
  }

  // ---------------------------------------------------------------------------
  // Traces
  // ---------------------------------------------------------------------------

  /** A call from the owner or a step of one of the tasks. */
  datatype Action =
    | CallInitialize
    | CallStart
    | CallStop
    | Begin(generation: nat)
    | SetBusy(generation: nat)
    | Return(generation: nat)
    | Throw(generation: nat, aggregate: bool)

  /** One action as the code is written; a task step that is not enabled leaves the worker as it is. */
  function Apply(w: Worker, a: Action): (w': Worker)
    requires Valid(w)
    ensures Valid(w')
  {
    match a
    case CallInitialize => w
    case CallStart => Start(w).worker
    case CallStop => Stop(w)
    case Begin(g) => if g < |w.tasks| && w.tasks[g] == Scheduled then TaskStarts(w, g) else w
    case SetBusy(g) => if g < |w.tasks| && w.tasks[g] == Started then TaskSetsBusy(w, g) else w
    case Return(g) => if g < |w.tasks| && w.tasks[g] == InLoop then LoopReturns(w, g) else w
    case Throw(g, aggregate) => if g < |w.tasks| && w.tasks[g] == InLoop then LoopThrows(w, g, aggregate) else w
  }

  /** A sequence of actions applied in order. */
  function Run(w: Worker, actions: seq<Action>): (w': Worker)
    requires Valid(w)
    ensures Valid(w')
    decreases |actions|
  {
    if |actions| == 0 then w else Run(Apply(w, actions[0]), actions[1..])
  }

  /**
    One action with the intended corrections: the delegate sets `IsBusy`
    only while its token is live, and a failing task cancels its own token.
  */
  function ApplyIntended(w: Worker, a: Action): (w': Worker)
    requires Valid(w) && BusyMeansLive(w)
    ensures Valid(w') && BusyMeansLive(w')
  {
    match a
    case CallInitialize => w
    case CallStart => Start(w).worker
    case CallStop => Stop(w)
    case Begin(g) => if g < |w.tasks| && w.tasks[g] == Scheduled then TaskStarts(w, g) else w
    case SetBusy(g) => if g < |w.tasks| && w.tasks[g] == Started then TaskSetsBusyIfLive(w, g) else w
    case Return(g) => if g < |w.tasks| && w.tasks[g] == InLoop then LoopReturns(w, g) else w
    case Throw(g, aggregate) =>
      if g < |w.tasks| && w.tasks[g] == InLoop then LoopThrowsOwnToken(w, g, aggregate) else w
  }

  /** A sequence of actions applied in order with the intended corrections. */
  function RunIntended(w: Worker, actions: seq<Action>): (w': Worker)
    requires Valid(w) && BusyMeansLive(w)
    ensures Valid(w') && BusyMeansLive(w')
    decreases |actions|
  {
    if |actions| == 0 then w else RunIntended(ApplyIntended(w, actions[0]), actions[1..])
  }

  /**
    Every worker reachable from the constructor, by any interleaving of
    calls and task steps, satisfies the invariant: one source and one task
    per start, only the last source live, and its events one history.
  */
  lemma ReachableIsValid(actions: seq<Action>)
    ensures Valid(Run(New(), actions))
  {
  }

  /** With the intended corrections a stopped worker is never busy, whatever the interleaving. */
  lemma IntendedStoppedIsIdle(actions: seq<Action>)
    ensures var w := RunIntended(New(), actions); w.state == Stopped ==> !w.isBusy
  {
  }

  /** Event `k` of a valid worker: even events start it, odd events stop it. */
  lemma {:induction false} ChangeAt(w: Worker, k: nat)
    requires Valid(w) && k < |w.changes|
    ensures w.changes[k] == if k % 2 == 0 then StateChanged(Stopped, Running) else StateChanged(Running, Stopped)
  {
    if k > 0 {
      ChangeAt(w, k - 1);
    }
  }

  /**
    `StateChanged` is fired once per actual transition with the correct pair:
    the events alternate between starting and stopping, and the worker is
    running exactly when an odd number of them have fired.
  */
  lemma EventsAlternate(w: Worker)
    requires Valid(w)
    ensures forall k :: 0 <= k < |w.changes| ==>
              w.changes[k] == if k % 2 == 0 then StateChanged(Stopped, Running) else StateChanged(Running, Stopped)
    ensures w.state == Running <==> |w.changes| % 2 == 1
  {
    forall k | 0 <= k < |w.changes|
      ensures w.changes[k] == if k % 2 == 0 then StateChanged(Stopped, Running) else StateChanged(Running, Stopped)
    {
      ChangeAt(w, k);
    }
    if |w.changes| > 0 {
      ChangeAt(w, |w.changes| - 1);
    }
  }

  /** Running a non-empty sequence of actions applies the first one, then the rest. */
  lemma RunFirst(w: Worker, a: Action, rest: seq<Action>)
    requires Valid(w)
    ensures Run(w, [a] + rest) == Run(Apply(w, a), rest)
  {
    assert ([a] + rest)[1..] == rest;
  }

  // The first counterexample trace: start, the delegate starts, stop, and
  // only then the delegate sets `IsBusy`; its loop then returns.
  const Up := StateChanged(Stopped, Running)
  const Down := StateChanged(Running, Stopped)
  const Busy1 := Worker(Running, false, [false], [Scheduled], [Up], [])
  const Busy2 := Worker(Running, false, [false], [Started], [Up], [])
  const Busy3 := Worker(Stopped, false, [true], [Started], [Up, Down], [ThreadExit(0)])
  const Busy4 := Worker(Stopped, true, [true], [InLoop], [Up, Down], [ThreadExit(0)])
  const Busy5 := Worker(Stopped, true, [true], [Finished], [Up, Down], [ThreadExit(0)])

  lemma BusyStep1() ensures Apply(New(), CallStart) == Busy1 {}
  lemma BusyStep2() ensures Valid(Busy1) && Apply(Busy1, Begin(0)) == Busy2 { BusyStep1(); }
  lemma BusyStep3() ensures Valid(Busy2) && Apply(Busy2, CallStop) == Busy3 { BusyStep2(); }
  lemma BusyStep4() ensures Valid(Busy3) && Apply(Busy3, SetBusy(0)) == Busy4 { BusyStep3(); }
  lemma BusyStep5() ensures Valid(Busy4) && Apply(Busy4, Return(0)) == Busy5 { BusyStep4(); }

  /**
    As written, a delegate that sets `IsBusy` after `Stop` has run the exit
    callback leaves the worker stopped, with its only task finished and its
    token cancelled, yet busy.
  */
  lemma StoppedWorkerStaysBusy()
    ensures Run(New(), [CallStart, Begin(0), CallStop, SetBusy(0), Return(0)]) == Busy5
    ensures Busy5.state == Stopped && Busy5.isBusy && Busy5.tasks == [Finished] && Busy5.cancelled == [true]
  {
    BusyStep1(); BusyStep2(); BusyStep3(); BusyStep4(); BusyStep5();
    RunFirst(Busy4, Return(0), []);
    RunFirst(Busy3, SetBusy(0), [Return(0)]);
    RunFirst(Busy2, CallStop, [SetBusy(0), Return(0)]);
    RunFirst(Busy1, Begin(0), [CallStop, SetBusy(0), Return(0)]);
    RunFirst(New(), CallStart, [Begin(0), CallStop, SetBusy(0), Return(0)]);
    assert [Return(0)] == [Return(0)] + [];
  }

  /** The stuck `IsBusy` lasts only while stopped: a later start and stop cancel a new source and clear it. */
  lemma RestartClearsStuckBusy()
    ensures Valid(Busy5) && Busy5.isBusy
    ensures !Apply(Apply(Busy5, CallStart), CallStop).isBusy
  {
    BusyStep5();
  }

  // The second counterexample trace: start, the task enters its loop, stop,
  // start again, the new task enters its loop, and then the loop of the
  // first task throws.
  const Trace2 := Worker(Running, true, [false], [InLoop], [Up], [])
  const Trace3 := Worker(Stopped, false, [true], [InLoop], [Up, Down], [ThreadExit(0)])
  const Trace4 := Worker(Running, false, [true, false], [InLoop, Scheduled], [Up, Down, Up], [ThreadExit(0)])
  const Trace5 := Worker(Running, false, [true, false], [InLoop, Started], [Up, Down, Up], [ThreadExit(0)])
  const Trace6 := Worker(Running, true, [true, false], [InLoop, InLoop], [Up, Down, Up], [ThreadExit(0)])
  const Trace7 := Worker(Running, false, [true, true], [Finished, InLoop], [Up, Down, Up],
                         [ThreadExit(0), LoopException(0), ThreadExit(1)])

  lemma TraceStep1() ensures Valid(Busy2) && Apply(Busy2, SetBusy(0)) == Trace2 { BusyStep2(); }
  lemma TraceStep2() ensures Valid(Trace2) && Apply(Trace2, CallStop) == Trace3 { TraceStep1(); }
  lemma TraceStep3() ensures Valid(Trace3) && Apply(Trace3, CallStart) == Trace4 { TraceStep2(); }
  lemma TraceStep4() ensures Valid(Trace4) && Apply(Trace4, Begin(1)) == Trace5 { TraceStep3(); }
  lemma TraceStep5() ensures Valid(Trace5) && Apply(Trace5, SetBusy(1)) == Trace6 { TraceStep4(); }
  lemma TraceStep6() ensures Valid(Trace6) && Apply(Trace6, Throw(0, false)) == Trace7 { TraceStep5(); }

  /**
    As written, a task from an earlier start that fails after a restart
    cancels the token of the new run: the worker still reports `Running`
    while the new task's token is cancelled and `IsBusy` is cleared.
  */
  lemma StaleFailureCancelsNewRun()
    ensures Run(New(), [CallStart, Begin(0), SetBusy(0), CallStop, CallStart, Begin(1), SetBusy(1), Throw(0, false)])
            == Trace7
    ensures Trace7.state == Running && Trace7.tasks[1] == InLoop && Trace7.cancelled[1] && !Trace7.isBusy
  {
    BusyStep1(); BusyStep2();
    TraceStep1(); TraceStep2(); TraceStep3(); TraceStep4(); TraceStep5(); TraceStep6();
    RunFirst(Trace6, Throw(0, false), []);
    RunFirst(Trace5, SetBusy(1), [Throw(0, false)]);
    RunFirst(Trace4, Begin(1), [SetBusy(1), Throw(0, false)]);
    RunFirst(Trace3, CallStart, [Begin(1), SetBusy(1), Throw(0, false)]);
    RunFirst(Trace2, CallStop, [CallStart, Begin(1), SetBusy(1), Throw(0, false)]);
    RunFirst(Busy2, SetBusy(0), [CallStop, CallStart, Begin(1), SetBusy(1), Throw(0, false)]);
    RunFirst(Busy1, Begin(0), [SetBusy(0), CallStop, CallStart, Begin(1), SetBusy(1), Throw(0, false)]);
    RunFirst(New(), CallStart, [Begin(0), SetBusy(0), CallStop, CallStart, Begin(1), SetBusy(1), Throw(0, false)]);
    assert [Throw(0, false)] == [Throw(0, false)] + [];
  }
}
