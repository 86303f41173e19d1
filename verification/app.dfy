/** `AbstractApp` with the lifecycle parts of `JavaScriptApp`: an app
    instance bound to one configuration store and one work queue, with the
    guarded transitions `start`, `shutdown` and `restart` and the observer
    `update` that drives them from change-sets.

    `start` and `shutdown` write the `running` key and notify, and the app
    observes its own store, so each of them re-enters `update`. The model
    keeps that re-entrant call: `Start`, `Shutdown`, `Restart` and `Update`
    are mutually recursive, and their termination measure is exactly the
    fact that the app's reaction to its own notification triggers nothing.

    Script execution is opaque: `startImpl` (a new script thread),
    `thread.interrupt()` and `cleanup()` (the script's `onunload`) are
    recorded as hooks, in the order they are called. The clock is the
    parameter `now`; one operation reads it once. */
module App {
  import opened Wrappers
  import opened JavaText
  import opened ConfigStore
  import WorkQueue

  // Keys and values of an app's configuration. `AppConfig` declares them; it
  // is not part of this model, so the spellings below are assumptions and
  // only their distinctness matters.
  const Running: string := "running"
  const StartValue: string := "start"
  const StopValue: string := "stop"
  const RestartValue: string := "restart"
  const AppKey: string := "app"
  const Availability: string := "availability"
  const Unavailable: string := "unavailable"
  const ResourceTitle: string := "resource_title"
  const ResourceType: string := "resource_type"
  const AllowOutput: string := "allow_output"
  const AllowErrorOutput: string := "allow_error_output"
  const EnableRequestDelivery: string := "enable_request_delivery"
  const StartOnStartup: string := "start_on_startup"
  const DirPath: string := "dir_path"
  const TypeKey: string := "type"

  /** Calls into the script host, in call order. */
  datatype Hook = StartImpl | Interrupt | Cleanup

  datatype AppState = AppState(
    name: string,
    cfg: Store,
    started: bool,
    startTs: int,
    stopTs: int,
    subresources: set<string>,
    allowOutput: bool,
    allowErrorOutput: bool,
    title: Option<string>,
    resourceType: Option<string>,
    worker: WorkQueue.Worker,
    hooks: seq<Hook>)

  /** The app after an operation, and the change-sets its store emitted
      during it, in emission order (for the other observers of the store). */
  datatype Step = Step(app: AppState, notes: seq<ChangeSet>)

  /** The identifier of the app's resource: its name in lower case. */
  function ResourceId(a: AppState): string {
    Lower(a.name)
  }

  /** The constructor: stopped, flags and resource attributes read from the
      configuration, an idle work queue. */
  function NewApp(name: string, cfg: Store): (a: AppState)
    ensures !a.started && a.subresources == {} && a.hooks == []
    ensures a.allowOutput == GetBool(cfg, AllowOutput)
    ensures a.allowErrorOutput == GetBool(cfg, AllowErrorOutput)
    ensures a.title == Get(cfg, ResourceTitle) && a.resourceType == Get(cfg, ResourceType)
    ensures a.worker == WorkQueue.Fresh
  {
    AppState(name, cfg, false, 0, 0, {}, GetBool(cfg, AllowOutput), GetBool(cfg, AllowErrorOutput),
             Get(cfg, ResourceTitle), Get(cfg, ResourceType), WorkQueue.Fresh, [])
  }

  // ------------------------------------------------------------- lifecycle

  /** The lifecycle transition a change-set asks of `update`, if any. */
  datatype Action = DoStart | DoRestart | DoShutdown | NoAction

  function ActionFor(a: AppState, cs: ChangeSet): (act: Action)
    requires Describes(a.cfg, cs)
  {
    if Running !in cs then NoAction
    else
      var v := a.cfg[Running];
      if v == StartValue && !a.started then DoStart
      else if v == RestartValue then DoRestart
      else if v == StopValue && a.started then DoShutdown
      else NoAction
  }

  function UpdateRank(a: AppState, cs: ChangeSet): nat
    requires Describes(a.cfg, cs)
  {
    match ActionFor(a, cs)
    case NoAction => 0
    case DoRestart => 3
    case _ => 2
  }

  /** `start`: on a stopped app, clears the stop time, records the start
      time, marks it started, writes and notifies running=start (which the
      app itself observes), then starts the script. On a started app it
      only reports. */
  function Start(a: AppState, now: int): (s: Step)
    ensures a.started ==> s == Step(a, [])
    ensures !a.started ==> s.app == a.(started := true, startTs := now, stopTs := 0,
                                       cfg := a.cfg[Running := StartValue],
                                       hooks := a.hooks + [StartImpl])
    ensures !a.started ==> s.notes == [{Running}]
    decreases 1
  {
    if a.started then Step(a, [])
    else
      var b := a.(stopTs := 0, startTs := now, started := true);
      var notified := SetPropertyAndNotify(b.cfg, [Running, StartValue]);
      SetThenGet(b.cfg, Running, StartValue);
      var c := b.(cfg := notified.store);
      var inner := Update(c, {Running}, now);
      Step(inner.app.(hooks := inner.app.hooks + [StartImpl]), [{Running}] + inner.notes)
  }

  /** `shutdown`: on a started app, removes every subresource, interrupts
      the script thread and runs its cleanup, marks it stopped, records the
      stop time and writes and notifies running=stop. On a stopped app it
      only reports. */
  function Shutdown(a: AppState, now: int): (s: Step)
    ensures !a.started ==> s == Step(a, [])
    ensures a.started ==> s.app == a.(started := false, stopTs := now, subresources := {},
                                      cfg := a.cfg[Running := StopValue],
                                      hooks := a.hooks + [Interrupt, Cleanup])
    ensures a.started ==> s.notes == [{Running}]
    decreases 1
  {
    if !a.started then Step(a, [])
    else
      var b := a.(subresources := {}, hooks := a.hooks + [Interrupt, Cleanup]);
      var c := b.(started := false, stopTs := now);
      var notified := SetPropertyAndNotify(c.cfg, [Running, StopValue]);
      SetThenGet(c.cfg, Running, StopValue);
      var d := c.(cfg := notified.store);
      var inner := Update(d, {Running}, now);
      Step(inner.app, [{Running}] + inner.notes)
  }

  /** `restart` with `JavaScriptApp.restartImpl`: removes every subresource,
      records the start time, stops the script only if it was started, then
      clears `started` and calls `start`, and finally clears the stop time.
      The app is started afterwards whatever its state before. */
  function Restart(a: AppState, now: int): (s: Step)
    ensures s.app == a.(started := true, startTs := now, stopTs := 0, subresources := {},
                        cfg := a.cfg[Running := StartValue],
                        hooks := a.hooks + (if a.started then [Interrupt, Cleanup] else []) + [StartImpl])
    ensures s.notes == [{Running}]
    decreases 2
  {
    var b := a.(subresources := {}, startTs := now);
    var c := if b.started then b.(hooks := b.hooks + [Interrupt, Cleanup]) else b;
    var started := Start(c.(started := false), now);
    Step(started.app.(stopTs := 0), started.notes)
  }

  /** The resource attributes and output flags `update` reads again for
      the keys a change-set names; the others keep their values. */
  function Refresh(b: AppState, cs: ChangeSet): (r: AppState)
    ensures r == b.(title := r.title, resourceType := r.resourceType,
                    allowOutput := r.allowOutput, allowErrorOutput := r.allowErrorOutput)
    ensures r.title == if ResourceTitle in cs then Get(b.cfg, ResourceTitle) else b.title
    ensures r.resourceType == if ResourceType in cs then Get(b.cfg, ResourceType) else b.resourceType
    ensures r.allowOutput == if AllowOutput in cs then GetBool(b.cfg, AllowOutput) else b.allowOutput
    ensures r.allowErrorOutput ==
      if AllowErrorOutput in cs then GetBool(b.cfg, AllowErrorOutput) else b.allowErrorOutput
  {
    b.(title := if ResourceTitle in cs then Get(b.cfg, ResourceTitle) else b.title,
       resourceType := if ResourceType in cs then Get(b.cfg, ResourceType) else b.resourceType,
       allowOutput := if AllowOutput in cs then GetBool(b.cfg, AllowOutput) else b.allowOutput,
       allowErrorOutput := if AllowErrorOutput in cs then GetBool(b.cfg, AllowErrorOutput) else b.allowErrorOutput)
  }

  /** `update`: the app's observer of its own store. "start" starts a
      stopped app, "restart" always restarts, "stop" shuts a started app
      down; then the resource title, resource type and output flags named
      in the change-set are read again. A change-set that asks for no
      transition and names no attribute leaves the app as it is. */
  function Update(a: AppState, cs: ChangeSet, now: int): (s: Step)
    requires Describes(a.cfg, cs)
    ensures ActionFor(a, cs) == NoAction ==> s == Step(Refresh(a, cs), [])
    decreases UpdateRank(a, cs)
  {
    var acted := match ActionFor(a, cs)
      case DoStart => Start(a, now)
      case DoRestart => Restart(a, now)
      case DoShutdown => Shutdown(a, now)
      case NoAction => Step(a, []);
    Step(Refresh(acted.app, cs), acted.notes)
  }

  /** What `update` does, case by case: the transition the running value
      asks for, then the refreshed attributes, and nothing else. */
  lemma UpdateSpec(a: AppState, cs: ChangeSet, now: int)
    requires Describes(a.cfg, cs)
    ensures var s := Update(a, cs, now);
      && s.app.name == a.name && s.app.worker == a.worker
      && Describes(s.app.cfg, cs)
      && (s.notes == [] || (s.notes == [{Running}] && Running in s.app.cfg))
      && (Running !in cs ==> s == Step(Refresh(a, cs), []))
      && (Running in cs ==>
           s.app.started == (if a.cfg[Running] in {StartValue, RestartValue} then true
                             else if a.cfg[Running] == StopValue then false
                             else a.started))
      && (Running in cs && a.cfg[Running] in {StartValue, RestartValue} ==>
           s.app.cfg[Running] == StartValue)
      && (forall k :: k in a.cfg && k != Running ==> k in s.app.cfg && s.app.cfg[k] == a.cfg[k])
      && s.app.title == (if ResourceTitle in cs then Get(s.app.cfg, ResourceTitle) else a.title)
      && s.app.allowOutput == (if AllowOutput in cs then GetBool(s.app.cfg, AllowOutput) else a.allowOutput)
      && s.app.allowErrorOutput ==
           (if AllowErrorOutput in cs then GetBool(s.app.cfg, AllowErrorOutput) else a.allowErrorOutput)
  {
    match ActionFor(a, cs)
    case DoStart =>
      var st := Start(a, now);
      assert Update(a, cs, now) == Step(Refresh(st.app, cs), st.notes);
    case DoRestart =>
      var st := Restart(a, now);
      assert Update(a, cs, now) == Step(Refresh(st.app, cs), st.notes);
    case DoShutdown =>
      var st := Shutdown(a, now);
      assert Update(a, cs, now) == Step(Refresh(st.app, cs), st.notes);
    case NoAction =>
  }

  /** The app's reaction to the notification its own `start`, `shutdown` or
      `restart` emitted is a no-op: this is why the re-entrant call ends.
      (A guarded transition that did nothing emitted nothing to react to.) */
  lemma OwnNotificationIsNoOp(a: AppState, now: int, later: int)
    ensures var s := Start(a, now); !a.started ==> Update(s.app, {Running}, later) == Step(s.app, [])
    ensures var s := Shutdown(a, now); a.started ==> Update(s.app, {Running}, later) == Step(s.app, [])
    ensures var s := Restart(a, now); Update(s.app, {Running}, later) == Step(s.app, [])
  {
  }

  /** Reacting to the same change-set a second time changes nothing and
      notifies nothing: after "restart" the store says "start". */
  lemma UpdateIsIdempotent(a: AppState, cs: ChangeSet, now: int, later: int)
    requires Describes(a.cfg, cs)
    ensures var b := Update(a, cs, now).app; Update(b, cs, later) == Step(b, [])
  {
    var b := Update(a, cs, now).app;
    assert ActionFor(b, cs) == NoAction;
  }

  /** A change-set without "running" never starts or stops the app. */
  lemma NoRunningNoTransition(a: AppState, cs: ChangeSet, now: int)
    requires Describes(a.cfg, cs) && Running !in cs
    ensures Update(a, cs, now).app.started == a.started
    ensures Update(a, cs, now).app.hooks == a.hooks
  {
  }

  /** Lifecycle transitions never touch the work queue itself: queued work
      survives a restart and a shutdown, and the interrupt of a shutdown or
      a restart ends no consumer loop. A start adds a loop only later, when
      its script thread calls `ReceiveMessages`. */
  lemma LifecycleKeepsQueue(a: AppState, now: int)
    ensures Start(a, now).app.worker == a.worker
    ensures Shutdown(a, now).app.worker == a.worker
    ensures Restart(a, now).app.worker == a.worker
  {
  }

  /** `receiveMessages`: the script thread a start created, once the
      script's code has run without an exception, executes the app's work
      queue itself. This adds one consumer loop on the same queue; nothing
      else changes. */
  function ReceiveMessages(a: AppState): (b: AppState)
    ensures b.worker.loops == a.worker.loops + 1
    ensures b.worker.queue == a.worker.queue && b.worker.ran == a.worker.ran
    ensures b == a.(worker := b.worker)
  {
    a.(worker := WorkQueue.Enter(a.worker))
  }

  /** A restart whose script reaches its loop adds a loop and keeps the old
      ones: restarting a running app leaves two loops draining one queue. */
  lemma RestartAddsALoop(a: AppState, now: int)
    ensures var b := ReceiveMessages(Restart(a, now).app);
      && b.started && b.worker.loops == a.worker.loops + 1
      && b.worker.queue == a.worker.queue && b.worker.ran == a.worker.ran
  {
  }

  /** A restart brings a queue back to life after an `Error` ended its only
      loop: once the new script thread reaches its loop, the backlog's head
      runs next. */
  lemma RestartRevivesQueue(a: AppState, now: int)
    requires a.worker.loops == 0 && |a.worker.queue| > 0
    ensures var w := WorkQueue.WorkStep(ReceiveMessages(Restart(a, now).app).worker, WorkQueue.Completes);
      && w.ran == a.worker.ran + [a.worker.queue[0]]
      && w.queue == a.worker.queue[1..] && w.loops == 1
  {
  }

  // -------------------------------------------------------------- delivery

  /** `deliverRequestToSubResource`: appends one request delivery to the
      app's own queue; nothing else changes. */
  function DeliverRequestToSubResource(a: AppState, request: nat, resource: string): (b: AppState)
    ensures b.worker.queue == a.worker.queue + [WorkQueue.RequestDelivery(request, resource)]
    ensures b == a.(worker := b.worker) && b.worker.ran == a.worker.ran && b.worker.loops == a.worker.loops
  {
    a.(worker := WorkQueue.Deliver(a.worker, WorkQueue.RequestDelivery(request, resource)))
  }

  /** `deliveRunnable`: appends one runnable to the app's own queue;
      `guarded` says whether its `run` catches every `Exception`. */
  function DeliverRunnable(a: AppState, id: int, guarded: bool): (b: AppState)
    ensures b.worker.queue == a.worker.queue + [WorkQueue.Runnable(id, guarded)]
    ensures b == a.(worker := b.worker) && b.worker.ran == a.worker.ran && b.worker.loops == a.worker.loops
  {
    a.(worker := WorkQueue.Deliver(a.worker, WorkQueue.Runnable(id, guarded)))
  }

  /** Start then shutdown: stopped, no subresources, stop time is the
      shutdown time, start time kept, the store says "stop". */
  lemma StartThenShutdown(a: AppState, t0: int, t1: int)
    requires !a.started
    ensures var b := Shutdown(Start(a, t0).app, t1).app;
      !b.started && b.startTs == t0 && b.stopTs == t1 && b.subresources == {} && b.cfg[Running] == StopValue
  {
  }
}
