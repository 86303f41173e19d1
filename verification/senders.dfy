/** What the synchronous and the asynchronous sender share: the script
    request's visible status, the callbacks a script may register, and the
    outcome paths whose exclusivity both senders promise.

    Calling a script function is not modelled; a call is recorded in a log,
    and an absent callback records nothing. Empty acknowledgements are
    filtered before they reach a sender, so every `Response` event stands
    for a real response (the separate-response pattern, section 5.2.2 of
    RFC 7252). */
module Senders {
  import opened Wrappers

  /** The errors a send can raise to the script; `Interrupted` is the
      request error wrapping an interruption of the waiting caller. */
  datatype RequestError = NetworkError | TimeoutError | AbortError | Interrupted

  /** The script callbacks: `onreadystatechange`, `onload`, `ontimeout` and
      `onerror`. */
  datatype Callback = OnReady | OnLoad | OnTimeout | OnError

  datatype ReadyState = Unsent | Opened | Done

  /** The parts of the script's request object the senders write. */
  datatype Status = Status(error: bool, readyState: ReadyState, sending: bool, response: Option<nat>)

  /** The outcome a synchronized block runs: a response delivered to the
      script, a timeout reported, an abort reported, a network failure
      reported. */
  datatype Path = LoadPath | TimeoutPath | AbortPath | ErrorPath

  /** How a call of `send` ended, seen by the script. */
  datatype Ending = Normal | Raised(error: RequestError)

  /** Calling a callback: nothing happens when the script registered none. */
  function Call(listeners: set<Callback>, cb: Callback): (log: seq<Callback>)
    ensures |log| <= 1
    ensures cb in log <==> cb in listeners
    ensures forall c :: c in log ==> c == cb
  {
    if cb in listeners then [cb] else []
  }

  /** `handleError`: the request is marked failed and done, then
      `onreadystatechange` and the given callback run, in that order. */
  function HandleError(status: Status, listeners: set<Callback>, cb: Callback): (out: (Status, seq<Callback>))
    ensures out.0.error && out.0.readyState == Done
    ensures out.0.sending == status.sending && out.0.response == status.response
    ensures out.1 == Call(listeners, OnReady) + Call(listeners, cb)
  {
    (status.(error := true, readyState := Done), Call(listeners, OnReady) + Call(listeners, cb))
  }

  /** The abort path: the request is marked failed, done and no longer
      sending, `onreadystatechange` runs, and the request is reset to
      unsent without a further state-change event. */
  function AbortEffects(status: Status, listeners: set<Callback>): (out: (Status, seq<Callback>))
    ensures out.0.error && !out.0.sending && out.0.readyState == Unsent
    ensures out.0.response == status.response
    ensures out.1 == Call(listeners, OnReady)
  {
    (status.(error := true, readyState := Unsent, sending := false), Call(listeners, OnReady))
  }

  /** A delivered response: it is stored, the request is done, and
      `onreadystatechange` then `onload` run. */
  function LoadEffects(status: Status, listeners: set<Callback>, r: nat): (out: (Status, seq<Callback>))
    ensures out.0.response == Some(r) && out.0.readyState == Done
    ensures out.0.error == status.error && out.0.sending == status.sending
    ensures out.1 == Call(listeners, OnReady) + Call(listeners, OnLoad)
  {
    (status.(response := Some(r), readyState := Done), Call(listeners, OnReady) + Call(listeners, OnLoad))
  }

  /** The promise both senders make: of the load, timeout and abort paths,
      at most one kind ever runs for one request. */
  predicate Exclusive(paths: seq<Path>) {
    && !(LoadPath in paths && TimeoutPath in paths)
    && !(LoadPath in paths && AbortPath in paths)
    && !(TimeoutPath in paths && AbortPath in paths)
  }

  /** The callbacks of a path only run when that path ran. */
  predicate CallsFollowPaths(calls: seq<Callback>, paths: seq<Path>) {
    && (OnLoad in calls ==> LoadPath in paths)
    && (OnTimeout in calls ==> TimeoutPath in paths)
    && (OnError in calls ==> ErrorPath in paths)
  }

  /** How many times a path ran. */
  function Count(paths: seq<Path>, p: Path): (n: nat)
    ensures n == 0 <==> p !in paths
  {
    multiset(paths)[p]
  }
}
