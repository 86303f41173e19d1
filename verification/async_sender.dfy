/** `AsynchronousSender`: `send` executes the request and returns at once;
    a response, the timeout timer and `abort` each run later as one atomic
    event, on whichever thread delivers them. */
module AsyncSender {
  import opened Wrappers
  import opened Senders

  datatype Sender = Sender(
    received: bool,       // lock.receivedresponse
    aborted: bool,        // lock.aborted
    timeouted: bool,      // lock.timeouted
    executed: bool,       // the request went out, so responses can arrive
    armed: bool,          // the timeout task is scheduled and has not run
    ending: Option<Ending>, // how send returned, once it has
    timeout: int,         // milliseconds; <= 0 means no timer
    status: Status,
    listeners: set<Callback>,
    calls: seq<Callback>, // callbacks run, in order
    paths: seq<Path>)     // outcome paths run, in order

  datatype Event =
    | Send(netFail: bool)  // the script calls send; netFail: execute throws an I/O error
    | Response(r: nat)     // a response reaches the handler
    | TimerFire            // the timeout task runs
    | Abort                // the script calls abort

  function Init(timeout: int, status: Status, listeners: set<Callback>): Sender {
    Sender(false, false, false, false, false, None, timeout, status, listeners, [], [])
  }

  /** `send`: an I/O failure on execute runs `onerror`, raises a network
      error and arms no timer; otherwise the timer is armed iff the timeout
      is positive. `send` does not look at an earlier abort. */
  function SendStep(s: Sender, netFail: bool): (s': Sender)
    requires s.ending.None?
    ensures s'.ending.Some?
    ensures s'.armed <==> !netFail && s.timeout > 0
    ensures s'.executed <==> !netFail
    ensures netFail ==> (s'.ending == Some(Raised(NetworkError)) && s'.paths == s.paths + [ErrorPath]
      && s'.calls == s.calls + Call(s.listeners, OnReady) + Call(s.listeners, OnError))
    ensures !netFail ==> s'.ending == Some(Normal) && s'.paths == s.paths && s'.calls == s.calls
    ensures s'.received == s.received && s'.aborted == s.aborted && s'.timeouted == s.timeouted
  {
    if netFail then
      var (st, log) := HandleError(s.status, s.listeners, OnError);
      s.(executed := false, armed := false, status := st, calls := s.calls + log, paths := s.paths + [ErrorPath],
         ending := Some(Raised(NetworkError)))
    else s.(executed := true, armed := s.timeout > 0, ending := Some(Normal))
  }

  /** `handleAsyncResponse`: a response before any abort or timeout is
      recorded and delivered; any other is ignored entirely. */
  function Respond(s: Sender, r: nat): (s': Sender)
    ensures s.executed && !s.aborted && !s.timeouted ==>
      && s'.received && s'.paths == s.paths + [LoadPath]
      && s'.calls == s.calls + Call(s.listeners, OnReady) + Call(s.listeners, OnLoad)
      && s'.status.response == Some(r) && s'.status.readyState == Done
    ensures !(s.executed && !s.aborted && !s.timeouted) ==> s' == s
    ensures s'.aborted == s.aborted && s'.timeouted == s.timeouted && s'.armed == s.armed
  {
    if s.executed && !s.aborted && !s.timeouted then
      var (st, log) := LoadEffects(s.status, s.listeners, r);
      s.(received := true, status := st, calls := s.calls + log, paths := s.paths + [LoadPath])
    else s
  }

  /** The timeout task: with no response yet it marks the request timed
      out, even after an abort; it reports the timeout only when there has
      been neither a response nor an abort. */
  function Fire(s: Sender): (s': Sender)
    requires s.armed
    ensures !s'.armed
    ensures s'.timeouted <==> s.timeouted || !s.received
    ensures !s.received && !s.aborted ==> (s'.paths == s.paths + [TimeoutPath]
      && s'.calls == s.calls + Call(s.listeners, OnReady) + Call(s.listeners, OnTimeout)
      && s'.status.error && s'.status.readyState == Done)
    ensures s.received || s.aborted ==> s'.paths == s.paths && s'.calls == s.calls && s'.status == s.status
    ensures s'.received == s.received && s'.aborted == s.aborted
  {
    var s1 := s.(armed := false, timeouted := s.timeouted || !s.received);
    if !s.received && !s.aborted then
      var (st, log) := HandleError(s1.status, s1.listeners, OnTimeout);
      s1.(status := st, calls := s1.calls + log, paths := s1.paths + [TimeoutPath])
    else s1
  }

  /** `abort`: effective only before any response or timeout, and then every
      time it is called. */
  function AbortStep(s: Sender): (s': Sender)
    ensures !s.received && !s.timeouted ==> (s'.aborted && s'.paths == s.paths + [AbortPath]
      && s'.calls == s.calls + Call(s.listeners, OnReady)
      && s'.status.error && !s'.status.sending && s'.status.readyState == Unsent)
    ensures s.received || s.timeouted ==> s' == s
    ensures s'.received == s.received && s'.timeouted == s.timeouted
  {
    if !s.received && !s.timeouted then
      var (st, log) := AbortEffects(s.status, s.listeners);
      s.(aborted := true, status := st, calls := s.calls + log, paths := s.paths + [AbortPath])
    else s
  }

  function Step(s: Sender, e: Event): Sender {
    match e
    case Send(netFail) => if s.ending.None? then SendStep(s, netFail) else s
    case Response(r) => Respond(s, r)
    case TimerFire => if s.armed then Fire(s) else s
    case Abort => AbortStep(s)
  }

  function Run(s: Sender, events: seq<Event>): Sender
    decreases |events|
  {
    if events == [] then s else Run(Step(s, events[0]), events[1..])
  }

  // ------------------------------------------------------------ invariant

  /** What holds in every reachable state: a response was only recorded
      while nothing else had happened, and nothing else happens after it;
      each path leaves its flag behind; the timeout and abort paths rule
      each other out; the error path only follows a failed execute, after
      which no response or timer can come. */
  ghost predicate Inv(s: Sender) {
    && (s.received ==> !s.aborted && !s.timeouted && s.executed)
    && (LoadPath in s.paths ==> s.received)
    && (TimeoutPath in s.paths ==> s.timeouted && AbortPath !in s.paths)
    && (AbortPath in s.paths ==> s.aborted && TimeoutPath !in s.paths)
    && (s.armed ==> s.executed)
    && (s.ending.None? ==> !s.executed && !s.armed && !s.timeouted && LoadPath !in s.paths && TimeoutPath !in s.paths && ErrorPath !in s.paths)
    && (ErrorPath in s.paths <==> s.ending == Some(Raised(NetworkError)))
    && (ErrorPath in s.paths ==> !s.executed && !s.armed && !s.received && !s.timeouted)
    && CallsFollowPaths(s.calls, s.paths)
  }

  lemma StepInv(s: Sender, e: Event)
    requires Inv(s)
    ensures Inv(Step(s, e))
  {
  }

  lemma {:induction false} RunInv(s: Sender, events: seq<Event>)
    requires Inv(s)
    ensures Inv(Run(s, events))
    decreases |events|
  {
    if events != [] {
      StepInv(s, events[0]);
      RunInv(Step(s, events[0]), events[1..]);
    }
  }

  /** In every interleaving of send, responses, timer and aborts, at most
      one kind of the load, timeout and abort paths runs, and a callback
      only runs on its own path. */
  lemma PathsAreExclusive(timeout: int, status: Status, listeners: set<Callback>, events: seq<Event>)
    ensures var s := Run(Init(timeout, status, listeners), events);
      Exclusive(s.paths) && CallsFollowPaths(s.calls, s.paths)
  {
    RunInv(Init(timeout, status, listeners), events);
  }

  /** `onerror` excludes `onload` and `ontimeout`: after a failed execute no
      response arrives and no timer runs. */
  lemma ErrorExcludesLoadAndTimeout(timeout: int, status: Status, listeners: set<Callback>, events: seq<Event>)
    ensures var s := Run(Init(timeout, status, listeners), events);
      ErrorPath in s.paths ==> LoadPath !in s.paths && TimeoutPath !in s.paths
  {
    RunInv(Init(timeout, status, listeners), events);
  }

  // ------------------------------------------------------------ scenarios

  /** A timer is armed by `send` exactly when the timeout is positive and
      the request went out. */
  lemma TimerArmedIff(timeout: int, status: Status, listeners: set<Callback>, netFail: bool)
    ensures Step(Init(timeout, status, listeners), Send(netFail)).armed <==> timeout > 0 && !netFail
  {
  }

  /** A network failure runs `onreadystatechange` and `onerror`, raises a
      network error and arms no timer. */
  lemma NetworkFailure(timeout: int, status: Status, listeners: set<Callback>)
    ensures var s := Step(Init(timeout, status, listeners), Send(true));
      && s.ending == Some(Raised(NetworkError)) && !s.armed && s.paths == [ErrorPath]
      && s.calls == Call(listeners, OnReady) + Call(listeners, OnError)
  {
    assert Call(listeners, OnReady) + Call(listeners, OnError) == [] + Call(listeners, OnReady) + Call(listeners, OnError);
  }

  /** `abort` is not guarded against itself: a second abort before any
      response or timeout runs the abort path again. */
  lemma RepeatedAbortRerunsAbortPath(timeout: int, status: Status, listeners: set<Callback>)
    ensures var s := Step(Step(Step(Init(timeout, status, listeners), Send(false)), Abort), Abort);
      s.paths == [AbortPath, AbortPath] && s.calls == Call(listeners, OnReady) + Call(listeners, OnReady)
  {
    assert Call(listeners, OnReady) + Call(listeners, OnReady) == [] + Call(listeners, OnReady) + Call(listeners, OnReady);
  }

  /** The timer marks the request timed out even after an abort, but then
      reports nothing. */
  lemma TimerAfterAbort(timeout: int, status: Status, listeners: set<Callback>)
    requires timeout > 0
    ensures var s0 := Step(Step(Init(timeout, status, listeners), Send(false)), Abort);
      var s := Step(s0, TimerFire);
      s.timeouted && s.paths == s0.paths && s.calls == s0.calls && TimeoutPath !in s.paths
  {
  }

  /** With no response and no abort the timer reports the timeout; later
      responses and aborts run nothing. */
  lemma TimeoutSilencesTheRest(timeout: int, status: Status, listeners: set<Callback>, r: nat)
    requires timeout > 0
    ensures var s := Step(Step(Init(timeout, status, listeners), Send(false)), TimerFire);
      && s.paths == [TimeoutPath] && s.calls == Call(listeners, OnReady) + Call(listeners, OnTimeout)
      && Step(s, Response(r)) == s && Step(s, Abort) == s
  {
    assert Call(listeners, OnReady) + Call(listeners, OnTimeout) == [] + Call(listeners, OnReady) + Call(listeners, OnTimeout);
  }

  /** Every response (observe notifications included) runs `onload` while
      there has been no abort and no timeout. */
  lemma EveryResponseLoads(timeout: int, status: Status, listeners: set<Callback>, r1: nat, r2: nat)
    ensures var s := Step(Step(Step(Init(timeout, status, listeners), Send(false)), Response(r1)), Response(r2));
      && s.paths == [LoadPath, LoadPath] && s.status.response == Some(r2)
      && s.calls == Call(listeners, OnReady) + Call(listeners, OnLoad) + Call(listeners, OnReady) + Call(listeners, OnLoad)
  {
    var l := Call(listeners, OnReady) + Call(listeners, OnLoad);
    assert [] + l + l == Call(listeners, OnReady) + Call(listeners, OnLoad) + Call(listeners, OnReady) + Call(listeners, OnLoad);
  }

  /** An abort before `send` runs the abort path, yet `send` still executes
      the request; its responses are then ignored. */
  lemma AbortBeforeSendStillExecutes(timeout: int, status: Status, listeners: set<Callback>, r: nat)
    ensures var s := Step(Step(Init(timeout, status, listeners), Abort), Send(false));
      && s.executed && s.ending == Some(Normal) && s.paths == [AbortPath]
      && Step(s, Response(r)) == s
  {
  }

  /** A failed execute does not stop a later abort from running the abort
      path, so `onerror` and the abort path can both run. */
  lemma AbortAfterNetworkFailure(timeout: int, status: Status, listeners: set<Callback>)
    ensures var s := Step(Step(Init(timeout, status, listeners), Send(true)), Abort);
      s.paths == [ErrorPath, AbortPath]
  {
  }
}
