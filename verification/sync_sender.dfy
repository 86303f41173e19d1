/** `SynchronousSender`: the script's caller blocks in `send` until a
    response, an abort or the deadline. Each `synchronized (lock)` block is
    one atomic event; the caller's return from `lock.wait` is a `Wake`
    event, which may come from a notification, an elapsed wait or a
    spurious wakeup. Time is an abstract clock the sender never lets run
    backwards. */
module SyncSender {
  import opened Wrappers
  import opened Senders

  /** Where the script's caller is: before `send`, blocked in the wait
      loop, or returned from `send`. */
  datatype Phase = Idle | Waiting | Returned(ending: Ending)

  datatype Sender = Sender(
    received: bool,       // lock.receivedresponse
    aborted: bool,        // lock.aborted
    timeouted: bool,      // lock.timeouted
    executed: bool,       // the request went out, so responses can arrive
    phase: Phase,
    timeout: int,         // milliseconds; <= 0 means no deadline
    timestamp: int,       // clock when the request went out
    clock: int,           // the latest time the sender has seen
    status: Status,
    listeners: set<Callback>,
    calls: seq<Callback>, // callbacks run, in order
    paths: seq<Path>)     // outcome paths run, in order

  datatype Event =
    | Send(now: int, netFail: bool)  // the script calls send; netFail: execute throws an I/O error
    | Response(r: nat)               // a response reaches the handler
    | Abort                          // the script calls abort
    | Wake(now: int)                 // the blocked caller returns from lock.wait
    | Interrupt                      // the blocked caller is interrupted

  function Init(timeout: int, clock: int, status: Status, listeners: set<Callback>): Sender {
    Sender(false, false, false, false, Idle, timeout, clock, clock, status, listeners, [], [])
  }

  /** The clock after an event that reads the time `now`. */
  function Tick(s: Sender, now: int): (t: int)
    ensures t >= s.clock && t >= now && (t == s.clock || t == now)
  {
    if now < s.clock then s.clock else now
  }

  /** `isTimeout` as written: the deadline `timestamp + timeout` has passed
      and neither an abort nor a response has happened. With a timeout of
      zero or less the deadline is the send time itself. */
  predicate IsTimeoutAsWritten(s: Sender, t: int) {
    t >= s.timestamp + s.timeout && !s.aborted && !s.received
  }

  /** The check the untimed wait evidently intends: a timeout of zero or
      less has no deadline. */
  predicate IsTimeout(s: Sender, t: int) {
    s.timeout > 0 && IsTimeoutAsWritten(s, t)
  }

  /** `checkAborted` raising: an abort with neither a response nor a
      timeout before it. */
  predicate AbortPending(s: Sender) {
    s.aborted && !s.received && !s.timeouted
  }

  /** `checkAborted` when it raises: the abort path, and `send` ends with an
      abort error. */
  function RaiseAbort(s: Sender): (s': Sender)
    ensures s'.phase == Returned(Raised(AbortError)) && s'.paths == s.paths + [AbortPath]
    ensures s'.status.readyState == Unsent && !s'.status.sending && s'.status.error
    ensures s'.calls == s.calls + Call(s.listeners, OnReady)
    ensures s'.received == s.received && s'.aborted == s.aborted && s'.timeouted == s.timeouted
  {
    var (st, log) := AbortEffects(s.status, s.listeners);
    s.(status := st, calls := s.calls + log, paths := s.paths + [AbortPath], phase := Returned(Raised(AbortError)))
  }

  /** `checkTimeout` when it raises: the timeout is recorded, `handleError`
      runs `ontimeout`, and `send` ends with a timeout error. */
  function RaiseTimeout(s: Sender): (s': Sender)
    ensures s'.phase == Returned(Raised(TimeoutError)) && s'.paths == s.paths + [TimeoutPath]
    ensures s'.timeouted && s'.received == s.received && s'.aborted == s.aborted
    ensures s'.status.error && s'.status.readyState == Done
    ensures s'.calls == s.calls + Call(s.listeners, OnReady) + Call(s.listeners, OnTimeout)
  {
    var (st, log) := HandleError(s.status, s.listeners, OnTimeout);
    s.(timeouted := true, status := st, calls := s.calls + log, paths := s.paths + [TimeoutPath],
       phase := Returned(Raised(TimeoutError)))
  }

  /** One pass of the caller's wait loop after `lock.wait` returns:
      `checkAborted`, then `checkTimeout` with the given test, then the loop
      condition; a caller that stays in the loop waits again. The timed
      loop first re-reads the clock, and when no time is left `checkTimeout`
      raises before any wait; that case is the next `Wake`, whose test then
      holds. */
  function Resume(s: Sender, t: int, timesOut: bool): (s': Sender)
    requires s.phase.Waiting?
  {
    if AbortPending(s) then RaiseAbort(s)
    else if timesOut then RaiseTimeout(s)
    else if s.received || s.aborted then s.(phase := Returned(Normal))
    else s
  }

  /** `send`: a sender aborted beforehand returns at once without executing
      the request; otherwise the request is executed, and an I/O failure
      runs `onerror` and raises a network error; otherwise the caller
      blocks. */
  function SendStep(s: Sender, now: int): (s': Sender)
    requires s.phase.Idle?
  {
    if s.aborted then s.(phase := Returned(Normal))
    else s.(timestamp := Tick(s, now), clock := Tick(s, now), executed := true, phase := Waiting)
  }

  function FailSend(s: Sender, now: int): (s': Sender)
    requires s.phase.Idle? && !s.aborted
  {
    var (st, log) := HandleError(s.status, s.listeners, OnError);
    s.(timestamp := Tick(s, now), clock := Tick(s, now), status := st, calls := s.calls + log,
       paths := s.paths + [ErrorPath], phase := Returned(Raised(NetworkError)))
  }

  /** `handleSyncResponse`: every response is recorded, but only one that
      comes before any abort or timeout is delivered to the script. */
  function Respond(s: Sender, r: nat): (s': Sender)
    ensures s.executed ==> s'.received
    ensures !s.executed ==> s' == s
    ensures s'.aborted == s.aborted && s'.timeouted == s.timeouted && s'.phase == s.phase
    ensures s.executed && !s.aborted && !s.timeouted ==>
      s'.paths == s.paths + [LoadPath] && s'.status.response == Some(r) && s'.status.readyState == Done
      && s'.calls == s.calls + Call(s.listeners, OnReady) + Call(s.listeners, OnLoad)
    ensures !(s.executed && !s.aborted && !s.timeouted) ==> s'.paths == s.paths && s'.calls == s.calls
  {
    if !s.executed then s
    else if !s.aborted && !s.timeouted then
      var (st, log) := LoadEffects(s.status, s.listeners, r);
      s.(received := true, status := st, calls := s.calls + log, paths := s.paths + [LoadPath])
    else s.(received := true)
  }

  /** One atomic event; `asWritten` selects the source's timeout test. */
  function StepWith(s: Sender, e: Event, asWritten: bool): Sender {
    match e
    case Send(now, netFail) =>
      if !s.phase.Idle? then s
      else if netFail && !s.aborted then FailSend(s, now)
      else SendStep(s, now)
    case Response(r) => Respond(s, r)
    case Abort => s.(aborted := true)
    case Wake(now) =>
      if !s.phase.Waiting? then s
      else
        var t := Tick(s, now);
        var s1 := s.(clock := t);
        Resume(s1, t, if asWritten then IsTimeoutAsWritten(s1, t) else IsTimeout(s1, t))
    case Interrupt =>
      if s.phase.Waiting? then s.(phase := Returned(Raised(Interrupted))) else s
  }

  function Step(s: Sender, e: Event): Sender {
    StepWith(s, e, false)
  }

  function Run(s: Sender, events: seq<Event>): Sender
    decreases |events|
  {
    if events == [] then s else Run(Step(s, events[0]), events[1..])
  }

  function RunAsWritten(s: Sender, events: seq<Event>): Sender
    decreases |events|
  {
    if events == [] then s else RunAsWritten(StepWith(s, events[0], true), events[1..])
  }

  // ------------------------------------------------------------ invariant

  /** What holds in every reachable state: each outcome path leaves its flag
      behind; the load path excludes the other two; the timeout and abort
      paths only run in the caller, which then returns, so together they
      run at most once and exactly when `send` raised the matching error. */
  ghost predicate Inv(s: Sender) {
    && (LoadPath in s.paths ==> s.received && TimeoutPath !in s.paths && AbortPath !in s.paths)
    && (TimeoutPath in s.paths ==> s.timeouted)
    && (AbortPath in s.paths ==> s.aborted)
    && Count(s.paths, TimeoutPath) == (if s.phase == Returned(Raised(TimeoutError)) then 1 else 0)
    && Count(s.paths, AbortPath) == (if s.phase == Returned(Raised(AbortError)) then 1 else 0)
    && (s.timeouted ==> s.phase == Returned(Raised(TimeoutError)))
    && (s.received ==> s.executed)
    && (s.phase.Idle? ==> !s.executed && s.paths == [] && s.calls == [])
    && (s.phase.Waiting? ==> s.executed)
    && CallsFollowPaths(s.calls, s.paths)
    && (ErrorPath in s.paths <==> s.phase == Returned(Raised(NetworkError)))
    && (ErrorPath in s.paths ==> !s.executed && Count(s.paths, ErrorPath) == 1)
  }

  lemma InitInv(timeout: int, clock: int, status: Status, listeners: set<Callback>)
    ensures Inv(Init(timeout, clock, status, listeners))
  {
  }

  lemma StepInv(s: Sender, e: Event, asWritten: bool)
    requires Inv(s)
    ensures Inv(StepWith(s, e, asWritten))
  {
    var s' := StepWith(s, e, asWritten);
    match e
    case Send(now, netFail) =>
      if s.phase.Idle? && netFail && !s.aborted {
        assert s'.paths == [ErrorPath];
      }
    case Response(r) =>
    case Abort =>
    case Wake(now) =>
      if s.phase.Waiting? {
        var t := Tick(s, now);
        var s1 := s.(clock := t);
        var timesOut := if asWritten then IsTimeoutAsWritten(s1, t) else IsTimeout(s1, t);
        if AbortPending(s1) {
          assert s' == RaiseAbort(s1);
          assert multiset(s'.paths) == multiset(s.paths) + multiset{AbortPath};
        } else if timesOut {
          assert s' == RaiseTimeout(s1);
          assert multiset(s'.paths) == multiset(s.paths) + multiset{TimeoutPath};
        }
      }
    case Interrupt =>
  }

  lemma {:induction false} RunInv(s: Sender, events: seq<Event>)
    requires Inv(s)
    ensures Inv(Run(s, events)) && Inv(RunAsWritten(s, events))
    decreases |events|
  {
    if events != [] {
      StepInv(s, events[0], false);
      StepInv(s, events[0], true);
      RunInv(Step(s, events[0]), events[1..]);
      RunInv(StepWith(s, events[0], true), events[1..]);
    }
  }

  /** In every interleaving of send, responses, aborts, wakeups and
      interrupts, the load, timeout and abort paths exclude each other, the
      timeout and abort paths run at most once between them, and a
      callback only runs on its own path; this holds with the timeout test
      as written and as corrected. */
  lemma PathsAreExclusive(timeout: int, clock: int, status: Status, listeners: set<Callback>, events: seq<Event>)
    ensures var s := Run(Init(timeout, clock, status, listeners), events);
      && Exclusive(s.paths)
      && Count(s.paths, TimeoutPath) + Count(s.paths, AbortPath) <= 1
      && CallsFollowPaths(s.calls, s.paths)
    ensures var s := RunAsWritten(Init(timeout, clock, status, listeners), events);
      && Exclusive(s.paths)
      && Count(s.paths, TimeoutPath) + Count(s.paths, AbortPath) <= 1
      && CallsFollowPaths(s.calls, s.paths)
  {
    InitInv(timeout, clock, status, listeners);
    RunInv(Init(timeout, clock, status, listeners), events);
  }

  /** The script sees a timeout error from `send` exactly when the timeout
      path ran, and an abort error exactly when the abort path ran, with the
      timeout test as written and as corrected. */
  lemma EndingMatchesPath(timeout: int, clock: int, status: Status, listeners: set<Callback>, events: seq<Event>)
    ensures var s := Run(Init(timeout, clock, status, listeners), events);
      && (s.phase == Returned(Raised(TimeoutError)) <==> TimeoutPath in s.paths)
      && (s.phase == Returned(Raised(AbortError)) <==> AbortPath in s.paths)
      && (s.phase == Returned(Raised(NetworkError)) <==> ErrorPath in s.paths)
    ensures var s := RunAsWritten(Init(timeout, clock, status, listeners), events);
      && (s.phase == Returned(Raised(TimeoutError)) <==> TimeoutPath in s.paths)
      && (s.phase == Returned(Raised(AbortError)) <==> AbortPath in s.paths)
      && (s.phase == Returned(Raised(NetworkError)) <==> ErrorPath in s.paths)
  {
    InitInv(timeout, clock, status, listeners);
    RunInv(Init(timeout, clock, status, listeners), events);
  }

  // ------------------------------------------------------------ scenarios

  /** An abort before `send`: the request is never executed and `send`
      returns normally, running no callback. */
  lemma AbortBeforeSend(timeout: int, clock: int, status: Status, listeners: set<Callback>, now: int, netFail: bool)
    ensures var s := Step(Step(Init(timeout, clock, status, listeners), Abort), Send(now, netFail));
      s.phase == Returned(Normal) && !s.executed && s.calls == [] && s.paths == []
  {
  }

  /** An abort followed by a response before the caller wakes: the caller
      finds the response recorded, `send` returns normally, and neither
      `onload` nor the abort path ran. */
  lemma AbortThenResponseBeforeWake(timeout: int, clock: int, status: Status, listeners: set<Callback>,
                                    now: int, r: nat, later: int)
    ensures var s := Step(Step(Step(Step(Init(timeout, clock, status, listeners), Send(now, false)), Abort), Response(r)), Wake(later));
      s.phase == Returned(Normal) && s.calls == [] && s.paths == [] && s.status == status
  {
  }

  /** A response before any abort or timeout: `onreadystatechange` and
      `onload` run with the response stored, and the woken caller returns
      normally. */
  lemma ResponseCompletesSend(timeout: int, clock: int, status: Status, listeners: set<Callback>,
                              now: int, r: nat, later: int)
    ensures var s := Step(Step(Step(Init(timeout, clock, status, listeners), Send(now, false)), Response(r)), Wake(later));
      && s.phase == Returned(Normal) && s.paths == [LoadPath]
      && s.calls == Call(listeners, OnReady) + Call(listeners, OnLoad)
      && s.status.response == Some(r) && s.status.readyState == Done
  {
    assert Call(listeners, OnReady) + Call(listeners, OnLoad) == [] + (Call(listeners, OnReady) + Call(listeners, OnLoad));
  }

  /** Every further response (an observe notification) runs `onload` again
      while there has been no abort and no timeout. */
  lemma EveryResponseLoads(s: Sender, r: nat)
    requires s.executed && !s.aborted && !s.timeouted
    ensures Step(s, Response(r)).paths == s.paths + [LoadPath]
    ensures Step(s, Response(r)).calls == s.calls + Call(s.listeners, OnReady) + Call(s.listeners, OnLoad)
  {
  }

  /** A caller woken at or after the deadline with no response and no abort
      runs `onreadystatechange` and `ontimeout` and raises a timeout error;
      a later response runs nothing. */
  lemma DeadlineTimesOut(timeout: int, clock: int, status: Status, listeners: set<Callback>, r: nat)
    requires timeout > 0
    ensures var s := Step(Step(Init(timeout, clock, status, listeners), Send(clock, false)), Wake(clock + timeout));
      && s.phase == Returned(Raised(TimeoutError)) && s.paths == [TimeoutPath]
      && s.calls == Call(listeners, OnReady) + Call(listeners, OnTimeout)
      && Step(s, Response(r)).calls == s.calls && Step(s, Response(r)).paths == s.paths
  {
    assert Call(listeners, OnReady) + Call(listeners, OnTimeout) == [] + Call(listeners, OnReady) + Call(listeners, OnTimeout);
  }

  /** A caller woken before the deadline with nothing to report keeps
      waiting. */
  lemma EarlyWakeKeepsWaiting(timeout: int, clock: int, status: Status, listeners: set<Callback>, later: int)
    requires clock <= later < clock + timeout
    ensures Step(Step(Init(timeout, clock, status, listeners), Send(clock, false)), Wake(later)).phase == Waiting
  {
  }

  /** A network failure on execute runs `onreadystatechange` and `onerror`
      and raises a network error. */
  lemma NetworkFailure(timeout: int, clock: int, status: Status, listeners: set<Callback>, now: int)
    ensures var s := Step(Init(timeout, clock, status, listeners), Send(now, true));
      && s.phase == Returned(Raised(NetworkError)) && s.paths == [ErrorPath] && !s.executed
      && s.calls == Call(listeners, OnReady) + Call(listeners, OnError)
      && s.status.error && s.status.readyState == Done
  {
    assert Call(listeners, OnReady) + Call(listeners, OnError) == [] + (Call(listeners, OnReady) + Call(listeners, OnError));
  }

  // ---------------------------------------------------- untimed waiting

  /** As written, the untimed loop still runs `checkTimeout`, whose deadline
      with a timeout of zero is the send time: a spurious wakeup with no
      response and no abort raises a timeout error. */
  lemma SpuriousWakeTimesOutAsWritten(clock: int, status: Status, listeners: set<Callback>, later: int)
    ensures var s := StepWith(StepWith(Init(0, clock, status, listeners), Send(clock, false), true), Wake(later), true);
      s.phase == Returned(Raised(TimeoutError)) && s.paths == [TimeoutPath]
  {
  }

  /** With the deadline test applied only to a positive timeout, a send
      without a timeout never times out, in any interleaving. */
  lemma {:induction false} UntimedSendNeverTimesOut(s: Sender, events: seq<Event>)
    requires s.timeout <= 0 && TimeoutPath !in s.paths
    ensures TimeoutPath !in Run(s, events).paths
    ensures Run(s, events).phase != Returned(Raised(TimeoutError)) || s.phase == Returned(Raised(TimeoutError))
    decreases |events|
  {
    if events != [] {
      var s1 := Step(s, events[0]);
      assert s1.timeout == s.timeout && TimeoutPath !in s1.paths;
      assert s1.phase == Returned(Raised(TimeoutError)) ==> s.phase == Returned(Raised(TimeoutError));
      UntimedSendNeverTimesOut(s1, events[1..]);
    }
  }
}
