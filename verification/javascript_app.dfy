/** The parts of `JavaScriptApp` that are plain logic: the request gate in
    front of the script's handlers, the `app` object's output functions and
    timer bookkeeping, and the import prelude put in front of every script.
    Script execution itself is opaque; a script function is named by a
    number, and a timer callback reaches the app as a runnable on its work
    queue whose number is the timer's id. */
module JavaScriptApp {
  import opened Wrappers
  import opened JavaText
  import opened ConfigStore
  import opened Coap
  import opened App
  import WorkQueue

  /** The exceptions these helpers can raise into the script. */
  datatype ScriptError = NullPointer | IllegalArgument | IndexOutOfBounds

  // ---------------------------------------------------------- request gate

  datatype Method = GET | POST | PUT | DELETE

  /** A request either reaches the script's handler for its method or is
      answered by the gate itself. */
  datatype Answer = Handled(verb: Method) | Respond(code: Code, message: string)

  const DisabledMessage: string := "Request delivery has been disabled for this app"

  /** `performGET`, `performPOST`, `performPUT`, `performDELETE`: the same
      gate for every method. */
  function Perform(cfg: Store, m: Method): (r: Answer)
    ensures r.Respond? <==> !GetBool(cfg, EnableRequestDelivery)
    ensures r.Respond? ==> r.code == Forbidden && r.message == DisabledMessage
    ensures r.Handled? ==> r.verb == m
  {
    if GetBool(cfg, EnableRequestDelivery) then Handled(m) else Respond(Forbidden, DisabledMessage)
  }

  /** The gate follows the setting last written through the store. */
  lemma GateFollowsSetting(cfg: Store, b: bool, m: Method)
    ensures Perform(SetPropertyAndNotify(cfg, [EnableRequestDelivery, BoolText(b)]).store, m).Handled? == b
  {
    SetThenGet(cfg, EnableRequestDelivery, BoolText(b));
    SetBoolThenGetBool(cfg, EnableRequestDelivery, b);
    assert SetPropertyAndNotify(cfg, [EnableRequestDelivery, BoolText(b)]).store[EnableRequestDelivery]
        == cfg[EnableRequestDelivery := BoolText(b)][EnableRequestDelivery];
  }

  /** An app whose configuration does not mention request delivery refuses
      every request. */
  lemma GateClosedByDefault(cfg: Store, m: Method)
    requires EnableRequestDelivery !in cfg
    ensures Perform(cfg, m) == Respond(Forbidden, DisabledMessage)
  {
  }

  // ---------------------------------------------------------------- output

  /** The number of newlines the text starts with. */
  function LeadingNewlines(s: string): (n: nat)
    ensures n <= |s|
    ensures forall i :: 0 <= i < n ==> s[i] == '\n'
    ensures n < |s| ==> s[n] != '\n'
  {
    if |s| > 0 && s[0] == '\n' then 1 + LeadingNewlines(s[1..]) else 0
  }

  function Newlines(n: nat): (r: string)
    ensures |r| == n && forall i :: 0 <= i < n ==> r[i] == '\n'
  {
    if n == 0 then "" else Newlines(n - 1) + "\n"
  }

  /** Continuation lines are indented: every "\n" becomes "\n\t". */
  function Indent(s: string): string {
    ReplaceChar(s, '\n', "\n\t")
  }

  /** The arguments after the first, each after a tab and indented. */
  function IndentedRest(args: seq<string>): string {
    if |args| == 0 then "" else "\t" + Indent(args[0]) + IndentedRest(args[1..])
  }

  /** The arguments after the first, each after a tab, as they were given. */
  function PlainRest(args: seq<string>): string {
    if |args| == 0 then "" else "\t" + args[0] + PlainRest(args[1..])
  }

  /** The texts of arguments none of which is null. */
  function Texts(args: seq<Option<string>>): (r: seq<string>)
    requires forall i :: 0 <= i < |args| ==> args[i].Some?
    ensures |r| == |args| && forall i :: 0 <= i < |args| ==> r[i] == args[i].value
  {
    seq(|args|, i requires 0 <= i < |args| => args[i].value)
  }

  /** Whether the first argument makes the newline-counting loop run past
      its end: it is non-empty and made of newlines only. */
  predicate NewlinesOnly(args: seq<Option<string>>) {
    |args| > 0 && args[0].Some? && args[0].value != "" && LeadingNewlines(args[0].value) == |args[0].value|
  }

  /** `convertToOutput`: the first argument's leading newlines, then
      "name:\t", the first argument without them, and every further
      argument after a tab, all continuation lines indented. A null
      argument fails with a null-pointer exception; a first argument of
      newlines only makes `charAt` fail first. Arguments are their
      `toString` texts. */
  function ConvertToOutput(name: string, args: seq<Option<string>>): (r: Result<string, ScriptError>)
    ensures |args| == 0 ==> r == Success("")
    ensures r.Success? <==> !NewlinesOnly(args) && forall i :: 0 <= i < |args| ==> args[i].Some?
    ensures r == Failure(IndexOutOfBounds) <==> NewlinesOnly(args)
    ensures r == Failure(NullPointer) <==> !NewlinesOnly(args) && exists i :: 0 <= i < |args| && args[i].None?
    ensures r.Success? && |args| > 0 ==>
      StartsWith(r.value, Newlines(LeadingNewlines(args[0].value)) + name + ":\t")
  {
    if |args| == 0 then Success("")
    else if NewlinesOnly(args) then Failure(IndexOutOfBounds)
    else if exists i :: 0 <= i < |args| && args[i].None? then Failure(NullPointer)
    else Success(Render(name, args[0].value, Texts(args[1..])))
  }

  /** The text `convertToOutput` builds from arguments none of which is null. */
  function Render(name: string, first: string, rest: seq<string>): (r: string)
    ensures StartsWith(r, Newlines(LeadingNewlines(first)) + name + ":\t")
  {
    var k := LeadingNewlines(first);
    var head := Newlines(k) + name + ":\t";
    var r := head + Indent(first[k..]) + IndentedRest(rest);
    assert r[..|head|] == head;
    r
  }

  lemma {:induction false} IndentedRestIsIndentedPlain(args: seq<string>)
    ensures IndentedRest(args) == Indent(PlainRest(args))
  {
    if |args| > 0 {
      IndentedRestIsIndentedPlain(args[1..]);
      ReplaceCharAppend("\t" + args[0], PlainRest(args[1..]), '\n', "\n\t");
      ReplaceCharAppend("\t", args[0], '\n', "\n\t");
      assert "\t" + args[0] + PlainRest(args[1..]) == ("\t" + args[0]) + PlainRest(args[1..]);
    }
  }

  /** The output is one indented block after the header, and undoing the
      indentation gives back the first argument without its leading
      newlines followed by the other arguments, each after a tab. */
  lemma ConvertToOutputDecodes(name: string, args: seq<Option<string>>)
    requires |args| > 0 && !NewlinesOnly(args)
    requires forall i :: 0 <= i < |args| ==> args[i].Some?
    ensures var first := args[0].value;
      var k := LeadingNewlines(first);
      var plain := first[k..] + PlainRest(Texts(args[1..]));
      && ConvertToOutput(name, args).value == Newlines(k) + name + ":\t" + Indent(plain)
      && DropAfter(Indent(plain), '\n', '\t') == plain
  {
    RenderDecodes(name, args[0].value, Texts(args[1..]));
  }

  lemma RenderDecodes(name: string, first: string, rest: seq<string>)
    ensures var k := LeadingNewlines(first);
      var plain := first[k..] + PlainRest(rest);
      && Render(name, first, rest) == Newlines(k) + name + ":\t" + Indent(plain)
      && DropAfter(Indent(plain), '\n', '\t') == plain
  {
    var k := LeadingNewlines(first);
    var plain := first[k..] + PlainRest(rest);
    IndentedRestIsIndentedPlain(rest);
    ReplaceCharAppend(first[k..], PlainRest(rest), '\n', "\n\t");
    DropAfterUndoesReplace(plain, '\n', '\t');
  }

  /** `dump`: the converted arguments when output is allowed, and nothing
      at all, not even a failure, when it is not. */
  function Dump(a: AppState, args: seq<Option<string>>): (r: Result<Option<string>, ScriptError>)
    ensures !a.allowOutput ==> r == Success(None)
    ensures a.allowOutput ==> (r.Success? <==> ConvertToOutput(a.name, args).Success?)
    ensures a.allowOutput && r.Success? ==> r.value == Some(ConvertToOutput(a.name, args).value)
  {
    Printed(a.allowOutput, a.name, args)
  }

  /** `error`: as `dump`, governed by the error-output flag. */
  function Error(a: AppState, args: seq<Option<string>>): (r: Result<Option<string>, ScriptError>)
    ensures !a.allowErrorOutput ==> r == Success(None)
    ensures a.allowErrorOutput ==> (r.Success? <==> ConvertToOutput(a.name, args).Success?)
    ensures a.allowErrorOutput && r.Success? ==> r.value == Some(ConvertToOutput(a.name, args).value)
  {
    Printed(a.allowErrorOutput, a.name, args)
  }

  function Printed(allowed: bool, name: string, args: seq<Option<string>>): Result<Option<string>, ScriptError> {
    if !allowed then Success(None)
    else
      match ConvertToOutput(name, args)
      case Success(text) => Success(Some(text))
      case Failure(e) => Failure(e)
  }

  /** Output follows the flags as `update` last refreshed them. */
  lemma OutputFollowsAllowOutput(a: AppState, b: bool, args: seq<Option<string>>, now: int)
    requires ConvertToOutput(a.name, args).Success?
    ensures var u := Update(a.(cfg := a.cfg[AllowOutput := BoolText(b)]), {AllowOutput}, now).app;
      Dump(u, args).Success? && Dump(u, args).value.Some? == b
  {
    var cfg := a.cfg[AllowOutput := BoolText(b)];
    SetBoolThenGetBool(a.cfg, AllowOutput, b);
    UpdateSpec(a.(cfg := cfg), {AllowOutput}, now);
  }

  // ---------------------------------------------------------------- timers

  /** A 32-bit `int` increment: `Integer.MAX_VALUE + 1` is `Integer.MIN_VALUE`. */
  function Inc32(i: int): (r: int)
    requires IntMin <= i <= IntMax
    ensures IntMin <= r <= IntMax
    ensures i < IntMax ==> r == i + 1
    ensures i == IntMax ==> r == IntMin
  {
    if i == IntMax then IntMin else i + 1
  }

  /** One timer task: the script function it calls, its delay (and period,
      for an interval), whether the timer accepted it, whether it was
      cancelled, and whether a one-shot task has run. */
  datatype Task = Task(callback: nat, millis: int, repeating: bool, scheduled: bool,
                       cancelled: bool, fired: bool)

  /** The counter `timernr` and the map `tasks` of the `app` object. */
  datatype Timers = Timers(timernr: int, tasks: map<int, Task>)

  const NoTimers: Timers := Timers(1, map[])

  predicate ValidTimers(t: Timers) {
    IntMin <= t.timernr <= IntMax
  }

  /** A call of `setTimeout` or `setInterval`: the new timers and the
      returned id or the exception. */
  datatype Scheduled = Scheduled(timers: Timers, id: Result<int, ScriptError>)

  /** The delays `java.util.Timer` accepts at clock reading `clock`:
      `schedule` refuses a negative delay, `scheduleAtFixedRate` also a
      period that is not positive, and both refuse a due time
      `clock + millis` that wraps around to a negative `long`. */
  predicate AcceptedDelay(millis: Long, repeating: bool, clock: Long) {
    millis >= 0 && (!repeating || millis > 0) && AddLong(clock, millis) >= 0
  }

  /** With the clock at zero or later, a delay that is not negative is
      refused for overflow exactly when the due time passes the largest
      `long`. */
  lemma DueTimeOverflowRefused(millis: Long, clock: Long)
    requires millis >= 0 && clock >= 0
    ensures AddLong(clock, millis) >= 0 <==> millis <= LongMax - clock
  {
  }

  /** `setTimeout` and `setInterval`: a null function is refused before
      anything changes; otherwise the counter's value becomes the task's
      id, the counter moves on and the task is recorded, and only then does
      the timer get to refuse a bad delay. `clock` is the reading of
      `System.currentTimeMillis` the timer takes. */
  function SetTimer(t: Timers, callback: Option<nat>, millis: Long, repeating: bool, clock: Long): (s: Scheduled)
    requires ValidTimers(t)
    ensures ValidTimers(s.timers)
    ensures callback.None? ==> s == Scheduled(t, Failure(NullPointer))
    ensures callback.Some? ==>
      && s.timers.timernr == Inc32(t.timernr)
      && s.timers.tasks.Keys == t.tasks.Keys + {t.timernr}
      && (forall k :: k in t.tasks && k != t.timernr ==> s.timers.tasks[k] == t.tasks[k])
      && s.timers.tasks[t.timernr] ==
           Task(callback.value, millis, repeating, AcceptedDelay(millis, repeating, clock), false, false)
    ensures s.id.Success? <==> callback.Some? && AcceptedDelay(millis, repeating, clock)
    ensures s.id.Success? ==> s.id.value == t.timernr
    ensures s.id.Failure? && callback.Some? ==> s.id.error == IllegalArgument
  {
    match callback
    case None => Scheduled(t, Failure(NullPointer))
    case Some(f) =>
      var nr := t.timernr;
      var ok := AcceptedDelay(millis, repeating, clock);
      var next := Timers(Inc32(nr), t.tasks[nr := Task(f, millis, repeating, ok, false, false)]);
      Scheduled(next, if ok then Success(nr) else Failure(IllegalArgument))
  }

  /** `setTimeout`: a one-shot task, refused for a null function, a
      negative delay or a due time past the `long` range; a zero delay is
      accepted. */
  function SetTimeout(t: Timers, callback: Option<nat>, millis: Long, clock: Long): (s: Scheduled)
    requires ValidTimers(t)
    ensures ValidTimers(s.timers)
    ensures callback.None? ==> s == Scheduled(t, Failure(NullPointer))
    ensures s.id.Success? <==> callback.Some? && millis >= 0 && AddLong(clock, millis) >= 0
    ensures callback.Some? && clock >= 0 ==> (s.id.Success? <==> 0 <= millis <= LongMax - clock)
    ensures s.id.Success? ==> s.id.value == t.timernr
    ensures callback.Some? ==> (t.timernr in s.timers.tasks && !s.timers.tasks[t.timernr].repeating
      && s.timers.tasks[t.timernr].callback == callback.value && s.timers.tasks[t.timernr].millis == millis)
  {
    SetTimer(t, callback, millis, false, clock)
  }

  /** `setInterval`: a repeating task with the delay as its period,
      refused for a null function, a period that is not positive or a
      first due time past the `long` range. */
  function SetInterval(t: Timers, callback: Option<nat>, millis: Long, clock: Long): (s: Scheduled)
    requires ValidTimers(t)
    ensures ValidTimers(s.timers)
    ensures callback.None? ==> s == Scheduled(t, Failure(NullPointer))
    ensures s.id.Success? <==> callback.Some? && millis > 0 && AddLong(clock, millis) >= 0
    ensures callback.Some? && clock >= 0 ==> (s.id.Success? <==> 0 < millis <= LongMax - clock)
    ensures s.id.Success? ==> s.id.value == t.timernr
    ensures callback.Some? ==> (t.timernr in s.timers.tasks && s.timers.tasks[t.timernr].repeating
      && s.timers.tasks[t.timernr].callback == callback.value && s.timers.tasks[t.timernr].millis == millis)
  {
    SetTimer(t, callback, millis, true, clock)
  }

  /** `clearTimeout`: cancels the task with that id; an unknown id is
      ignored. Nothing else changes. */
  function ClearTimeout(t: Timers, id: int): (r: Timers)
    ensures id !in t.tasks ==> r == t
    ensures r.timernr == t.timernr && r.tasks.Keys == t.tasks.Keys
    ensures forall k :: k in t.tasks ==>
      r.tasks[k] == if k == id then t.tasks[k].(cancelled := true) else t.tasks[k]
  {
    if id in t.tasks then t.(tasks := t.tasks[id := t.tasks[id].(cancelled := true)]) else t
  }

  /** `clearInterval` delegates to `clearTimeout`: the task with that id,
      one-shot or repeating, is cancelled and is never due again. */
  function ClearInterval(t: Timers, id: int): (r: Timers)
    ensures id !in t.tasks ==> r == t
    ensures r.timernr == t.timernr && r.tasks.Keys == t.tasks.Keys
    ensures id in t.tasks ==> r.tasks[id] == t.tasks[id].(cancelled := true) && !Due(r, id)
    ensures forall k :: k in t.tasks && k != id ==> r.tasks[k] == t.tasks[k]
  {
    ClearTimeout(t, id)
  }

  /** Whether the timer thread will run the task: it was accepted, has not
      been cancelled and, for a one-shot task, has not run yet. */
  predicate Due(t: Timers, id: int) {
    id in t.tasks && t.tasks[id].scheduled && !t.tasks[id].cancelled
    && (t.tasks[id].repeating || !t.tasks[id].fired)
  }

  /** The timer thread runs a task: a due task hands a `FunctionExecuter`
      to the app's work queue, a runnable that catches every `Exception` the
      script function throws; the function runs later on the app's own
      thread. */
  function Fire(a: AppState, t: Timers, id: int): (r: (AppState, Timers))
    ensures Due(t, id) ==> (r.0.worker.queue == a.worker.queue + [WorkQueue.Runnable(id, true)]
      && r.0 == a.(worker := r.0.worker) && r.0.worker.ran == a.worker.ran && r.0.worker.loops == a.worker.loops
      && r.1.tasks == t.tasks[id := t.tasks[id].(fired := true)])
    ensures !Due(t, id) ==> r == (a, t)
    ensures r.1.timernr == t.timernr
  {
    if Due(t, id) then (DeliverRunnable(a, id, true), t.(tasks := t.tasks[id := t.tasks[id].(fired := true)]))
    else (a, t)
  }

  /** A script function called from a timer that throws an `Exception`
      leaves the loop that ran it running; only an `Error` ends that loop. */
  lemma ThrowingTimerCallbackKeepsWorker(a: AppState, t: Timers, id: int)
    requires Due(t, id) && a.worker.loops > 0 && a.worker.queue == []
    ensures var w := Fire(a, t, id).0.worker;
      && WorkQueue.WorkStep(w, WorkQueue.RaisesException).loops == a.worker.loops
      && WorkQueue.WorkStep(w, WorkQueue.RaisesError).loops == a.worker.loops - 1
  {
  }

  /** A cleared task never reaches the queue. */
  lemma ClearedTaskNeverRuns(a: AppState, t: Timers, id: int)
    ensures Fire(a, ClearTimeout(t, id), id).0 == a
  {
  }

  /** A timeout runs at most once; an interval runs on every tick until it
      is cleared. */
  lemma TimeoutRunsOnce(a: AppState, t: Timers, id: int)
    requires id in t.tasks && !t.tasks[id].repeating
    ensures var (b, u) := Fire(a, t, id); Fire(b, u, id) == (b, u)
  {
  }

  lemma IntervalRunsAgain(a: AppState, t: Timers, id: int)
    requires Due(t, id) && t.tasks[id].repeating
    ensures var (b, u) := Fire(a, t, id);
      Due(u, id) && Fire(b, u, id).0.worker.queue == a.worker.queue + [WorkQueue.Runnable(id, true), WorkQueue.Runnable(id, true)]
  {
  }

  /** A script's timer calls, in order. */
  datatype TimerCall = SetCall(callback: Option<nat>, millis: Long, repeating: bool, clock: Long) | ClearCall(id: int)

  /** The timers after a sequence of calls from a fresh `app` object, and
      the ids the calls returned, in order. */
  function RunCalls(calls: seq<TimerCall>): (r: (Timers, seq<int>))
    ensures ValidTimers(r.0)
    decreases |calls|
  {
    if |calls| == 0 then (NoTimers, [])
    else
      var (t, ids) := RunCalls(calls[..|calls| - 1]);
      match calls[|calls| - 1]
      case SetCall(cb, millis, repeating, clock) =>
        var s := SetTimer(t, cb, millis, repeating, clock);
        (s.timers, if s.id.Success? then ids + [s.id.value] else ids)
      case ClearCall(id) => (ClearTimeout(t, id), ids)
  }

  /** How many calls consumed an id: every set call with a function. */
  function Allocations(calls: seq<TimerCall>): nat
    decreases |calls|
  {
    if |calls| == 0 then 0
    else
      var last := calls[|calls| - 1];
      Allocations(calls[..|calls| - 1]) + (if last.SetCall? && last.callback.Some? then 1 else 0)
  }

  /** Until the counter wraps, ids are handed out as 1, 2, 3, ...: the
      counter is one past the number of allocations, exactly those ids have
      tasks, and the ids returned are strictly increasing, so no two are
      equal. */
  lemma {:induction false} IdsAreSequential(calls: seq<TimerCall>)
    requires Allocations(calls) < IntMax
    ensures var (t, ids) := RunCalls(calls); var n := Allocations(calls);
      && t.timernr == n + 1
      && (forall k :: k in t.tasks <==> 1 <= k <= n)
      && (forall i :: 0 <= i < |ids| ==> 1 <= ids[i] <= n)
      && (forall i, j :: 0 <= i < j < |ids| ==> ids[i] < ids[j])
    decreases |calls|
  {
    if |calls| > 0 {
      var prefix := calls[..|calls| - 1];
      IdsAreSequential(prefix);
    }
  }

  // --------------------------------------------------------- import prelude

  /** The Java packages every script may use without importing them. */
  const DefaultPackages: seq<string> := [
    "java.lang", "java.util", "java.io", "java.net", "java.text",
    "ch.ethz.inf.vs.californium.coap",
    "ch.ethz.inf.vs.actinium.jscoap",
    "ch.ethz.inf.vs.actinium.jscoap.jserror"
  ]

  /** The Rhino statement that imports one package. */
  function ImportStatement(package: string): string {
    "importPackage(Packages." + package + ");"
  }

  function ImportStatements(packages: seq<string>): string {
    if |packages| == 0 then ""
    else ImportStatement(packages[0]) + ImportStatements(packages[1..])
  }

  function ImportPrelude(): string {
    ImportStatements(DefaultPackages)
  }

  /** `prependDefaultImporterCode`: the code, unchanged, after an import
      statement for each default package. */
  function PrependDefaultImporterCode(code: string): (r: string)
    ensures EndsWith(r, code)
    ensures r[..|r| - |code|] == ImportPrelude()
  {
    var r := ImportPrelude() + code;
    assert r[|r| - |code|..] == code;
    assert r[..|r| - |code|] == ImportPrelude();
    r
  }

  /** Removes the prelude again, if the text starts with it. */
  function StripPrelude(s: string): Option<string> {
    if StartsWith(s, ImportPrelude()) then Some(s[|ImportPrelude()|..]) else None
  }

  /** The prelude does not depend on the code and can be taken off again. */
  lemma PreludeRoundTrip(code: string)
    ensures StripPrelude(PrependDefaultImporterCode(code)) == Some(code)
  {
    var r := PrependDefaultImporterCode(code);
    assert r[..|ImportPrelude()|] == ImportPrelude();
  }

  /** The statements for a list of packages are those of any prefix
      followed by those of the rest. */
  lemma {:induction false} ImportStatementsSplit(packages: seq<string>, i: nat)
    requires i <= |packages|
    ensures ImportStatements(packages) == ImportStatements(packages[..i]) + ImportStatements(packages[i..])
    decreases i
  {
    if i > 0 {
      ImportStatementsSplit(packages[1..], i - 1);
      assert packages[1..][..i - 1] == packages[..i][1..];
      assert packages[1..][i - 1..] == packages[i..];
    }
  }

  /** The statements for a list of packages import each package at its
      place in the list. */
  lemma ImportStatementsAt(packages: seq<string>, i: nat)
    requires i < |packages|
    ensures ImportStatements(packages) == ImportStatements(packages[..i]) + ImportStatement(packages[i])
                                          + ImportStatements(packages[i + 1..])
  {
    ImportStatementsSplit(packages, i);
    assert packages[i..][1..] == packages[i + 1..];
  }

  /** Each default package is imported, in order: the prelude is the
      statements for the packages before it, then the statement importing
      it, then the statements for the packages after it. */
  lemma PreludeImportsEachDefaultPackage(i: nat)
    requires i < |DefaultPackages|
    ensures ImportPrelude() == ImportStatements(DefaultPackages[..i]) + ImportStatement(DefaultPackages[i])
                               + ImportStatements(DefaultPackages[i + 1..])
  {
    ImportStatementsAt(DefaultPackages, i);
  }
}
