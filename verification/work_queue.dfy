/** `WorkQueue`: an unbounded FIFO of runnables and the consumer loops that
    drain it. The constructor starts no thread of its own; a loop runs on
    whichever thread calls `execute()`, which an app's script thread does
    once the script's code has run. Every start of the app creates such a
    thread, and an interrupt never ends a loop, so several loops can share
    one queue. Each `synchronized (queue)` block is one atomic step: a
    delivery appends; a loop's step removes the head and runs it to
    completion while still holding the lock. A loop has no handler of its
    own, so whatever an item lets escape ends that loop. A request delivery
    catches every `Exception` its dispatch throws, but not an `Error`; so
    does the runnable a script timer queues. */
module WorkQueue {

  /** What a runnable on the queue is: a request handed to a resource of the
      app (`RequestDelivery`), or any other runnable. A `guarded` runnable
      wraps its work in `catch (Exception)`, as the function call a script
      timer queues does. Requests and runnables are identified by opaque
      numbers. */
  datatype Item = RequestDelivery(request: nat, resource: string) | Runnable(id: int, guarded: bool)

  /** Whether the item's own `run` catches every `Exception`. */
  predicate CatchesExceptions(item: Item) {
    match item
    case RequestDelivery(_, _) => true
    case Runnable(_, guarded) => guarded
  }

  /** The queue, the items the loops have removed and run, in order, and
      how many consumer loops are running on the queue. */
  datatype Worker = Worker(queue: seq<Item>, ran: seq<Item>, loops: nat)

  /** How running one item ends: normally, by an `Exception`, or by an
      `Error` (a `StackOverflowError`, say), which `catch (Exception)` does
      not catch. */
  datatype Outcome = Completes | RaisesException | RaisesError

  /** One atomic step. `Offer` is a call of `deliver`; `Execute` is a
      thread calling `execute()` and entering the loop; `Take(outcome)` is a
      loop taking the lock and running the head, ending as `outcome` says.
      `Interrupt` is `stop()` or `thread.interrupt()` interrupting a loop. */
  datatype Event = Offer(item: Item) | Execute | Take(outcome: Outcome) | Interrupt

  /** Whether the loop that runs `item` survives it: only the item's own
      handler catches, and only exceptions. */
  predicate Survives(item: Item, outcome: Outcome) {
    outcome == Completes || (outcome == RaisesException && CatchesExceptions(item))
  }

  /** A new queue: empty, and with no loop yet, since the constructor does
      not start its thread. */
  const Fresh: Worker := Worker([], [], 0)

  /** Both `deliver` overloads: append one item at the tail. */
  function Deliver(w: Worker, item: Item): (w': Worker)
    ensures w'.queue == w.queue + [item]
    ensures w'.ran == w.ran && w'.loops == w.loops
  {
    w.(queue := w.queue + [item])
  }

  /** `execute()`: the calling thread enters the loop, one more consumer of
      the same queue. */
  function Enter(w: Worker): (w': Worker)
    ensures w'.loops == w.loops + 1
    ensures w'.queue == w.queue && w'.ran == w.ran
  {
    w.(loops := w.loops + 1)
  }

  /** One pass of a loop. With no loop running or an empty queue nothing
      happens (a loop waits); otherwise a loop removes the head and runs
      it, and ends if the item lets a throw escape. */
  function WorkStep(w: Worker, outcome: Outcome): (w': Worker)
    ensures w.loops == 0 || |w.queue| == 0 ==> w' == w
    ensures w.loops > 0 && |w.queue| > 0 ==>
      w'.queue == w.queue[1..] && w'.ran == w.ran + [w.queue[0]] &&
      w'.loops == (if outcome == Completes
                     || (outcome == RaisesException && (w.queue[0].RequestDelivery? || w.queue[0].guarded))
                   then w.loops else w.loops - 1)
  {
    if w.loops == 0 || |w.queue| == 0 then w
    else
      var head := w.queue[0];
      Worker(w.queue[1..], w.ran + [head], if Survives(head, outcome) then w.loops else w.loops - 1)
  }

  function Step(w: Worker, e: Event): Worker {
    match e
    case Offer(item) => Deliver(w, item)
    case Execute => Enter(w)
    case Take(outcome) => WorkStep(w, outcome)
    // the interrupt is swallowed by the wait loop: the loop keeps waiting
    case Interrupt => w
  }

  /** The queue after a trace of atomic steps, applied left to right. */
  function Run(w: Worker, t: seq<Event>): Worker
    decreases |t|
  {
    if |t| == 0 then w else Step(Run(w, t[..|t| - 1]), t[|t| - 1])
  }

  lemma {:induction false} RunAppend(w: Worker, a: seq<Event>, b: seq<Event>)
    ensures Run(w, a + b) == Run(Run(w, a), b)
    decreases |b|
  {
    if |b| == 0 {
      assert a + b == a;
    } else {
      RunAppend(w, a, b[..|b| - 1]);
      assert (a + b)[..|a + b| - 1] == a + b[..|b| - 1];
      assert (a + b)[|a + b| - 1] == b[|b| - 1];
    }
  }

  /** The items a trace delivers, in delivery order. */
  function Delivered(t: seq<Event>): seq<Item>
    decreases |t|
  {
    if |t| == 0 then []
    else Delivered(t[..|t| - 1]) + (if t[|t| - 1].Offer? then [t[|t| - 1].item] else [])
  }

  /** How many times a trace has a thread enter the loop. */
  function Executions(t: seq<Event>): nat
    decreases |t|
  {
    if |t| == 0 then 0 else Executions(t[..|t| - 1]) + (if t[|t| - 1] == Execute then 1 else 0)
  }

  /** Nothing is lost or reordered: what has run followed by what is queued
      is exactly what was delivered, in order. */
  lemma {:induction false} RunThenQueueIsDelivered(t: seq<Event>)
    ensures Run(Fresh, t).ran + Run(Fresh, t).queue == Delivered(t)
    decreases |t|
  {
    if |t| > 0 {
      var prefix := t[..|t| - 1];
      RunThenQueueIsDelivered(prefix);
      var w := Run(Fresh, prefix);
      match t[|t| - 1]
      case Offer(item) =>
        assert w.ran + (w.queue + [item]) == (w.ran + w.queue) + [item];
      case Execute =>
      case Take(outcome) =>
        if w.loops > 0 && |w.queue| > 0 {
          assert (w.ran + [w.queue[0]]) + w.queue[1..] == w.ran + w.queue;
        }
      case Interrupt =>
    }
  }

  /** Items run in exactly the order they were delivered. */
  lemma RanInDeliveryOrder(t: seq<Event>)
    ensures var r := Run(Fresh, t).ran;
      |r| <= |Delivered(t)| && r == Delivered(t)[..|r|]
  {
    RunThenQueueIsDelivered(t);
    var w := Run(Fresh, t);
    assert (w.ran + w.queue)[..|w.ran|] == w.ran;
  }

  /** With no loop running nothing runs, whatever is delivered, until some
      thread enters `execute()`. */
  lemma {:induction false} NoLoopRunsNothing(w: Worker, t: seq<Event>)
    requires w.loops == 0
    requires forall i :: 0 <= i < |t| ==> t[i] != Execute
    ensures Run(w, t).loops == 0 && Run(w, t).ran == w.ran
    decreases |t|
  {
    if |t| > 0 {
      NoLoopRunsNothing(w, t[..|t| - 1]);
    }
  }

  /** Step `k` of the trace ends a loop: a loop takes the head, and the
      head lets an `Error` or an uncaught `Exception` escape. */
  predicate DiesAt(t: seq<Event>, k: nat)
    requires k < |t|
  {
    var w := Run(Fresh, t[..k]);
    && w.loops > 0 && |w.queue| > 0 && t[k].Take?
    && (t[k].outcome == RaisesError || (t[k].outcome == RaisesException && !CatchesExceptions(w.queue[0])))
  }

  /** How many steps of a trace end a loop. */
  function Deaths(t: seq<Event>): nat
    decreases |t|
  {
    if |t| == 0 then 0 else Deaths(t[..|t| - 1]) + (if DiesAt(t, |t| - 1) then 1 else 0)
  }

  /** Every loop a thread entered is still running unless an uncaught throw
      ended it: the running loops are the entries less the ending steps. */
  lemma {:induction false} LoopsAreEntriesLessDeaths(t: seq<Event>)
    ensures Run(Fresh, t).loops + Deaths(t) == Executions(t)
    decreases |t|
  {
    if |t| > 0 {
      var prefix := t[..|t| - 1];
      LoopsAreEntriesLessDeaths(prefix);
    }
  }

  /** A loop ends only from an item that let a throw escape: when fewer
      loops run than threads entered, there is a step at which a loop took
      the head of a non-empty queue and the head raised an `Error`, or an
      `Exception` it does not catch. */
  lemma {:induction false} DeathFollowsAnUncaughtThrow(t: seq<Event>)
    ensures Run(Fresh, t).loops < Executions(t) ==> exists k :: 0 <= k < |t| && DiesAt(t, k)
  {
    LoopsAreEntriesLessDeaths(t);
    if Deaths(t) > 0 {
      DeathsHaveAStep(t);
    }
  }

  lemma {:induction false} DeathsHaveAStep(t: seq<Event>)
    requires Deaths(t) > 0
    ensures exists k :: 0 <= k < |t| && DiesAt(t, k)
    decreases |t|
  {
    var prefix := t[..|t| - 1];
    if !DiesAt(t, |t| - 1) {
      DeathsHaveAStep(prefix);
      var k :| 0 <= k < |prefix| && DiesAt(prefix, k);
      assert prefix[..k] == t[..k] && prefix[k] == t[k];
      assert DiesAt(t, k);
    }
  }

  /** When the step that ended a loop ended the only one, no item runs from
      then on until some thread enters `execute()` again. */
  lemma DeadAfterDiesAt(t: seq<Event>, k: nat, j: nat)
    requires k < j <= |t| && DiesAt(t, k) && Run(Fresh, t[..k]).loops == 1
    requires forall i :: k < i < j ==> t[i] != Execute
    ensures Run(Fresh, t[..j]).loops == 0
    ensures Run(Fresh, t[..j]).ran == Run(Fresh, t[..k]).ran + [Run(Fresh, t[..k]).queue[0]]
  {
    var w := Run(Fresh, t[..k + 1]);
    assert t[..k + 1][..k] == t[..k];
    var rest := t[k + 1..j];
    forall i | 0 <= i < |rest| ensures rest[i] != Execute {
      assert rest[i] == t[k + 1 + i];
    }
    NoLoopRunsNothing(w, rest);
    RunAppend(Fresh, t[..k + 1], rest);
    assert t[..k + 1] + rest == t[..j];
  }

  /** A queue fed only items that catch exceptions (request deliveries and
      script timer calls), none of which raises an `Error`, never loses a
      loop: every thread that entered `execute()` is still draining it. */
  lemma {:induction false} CaughtFailuresAreIsolated(t: seq<Event>)
    requires forall i :: 0 <= i < |t| && t[i].Offer? ==> CatchesExceptions(t[i].item)
    requires forall i :: 0 <= i < |t| ==> t[i] != Take(RaisesError)
    ensures Run(Fresh, t).loops == Executions(t)
    decreases |t|
  {
    if |t| > 0 {
      var prefix := t[..|t| - 1];
      CaughtFailuresAreIsolated(prefix);
      RunThenQueueIsDelivered(prefix);
      var w := Run(Fresh, prefix);
      if w.loops > 0 && |w.queue| > 0 && t[|t| - 1].Take? {
        OnlyCatchingItemsDelivered(prefix);
        assert w.queue[0] == Delivered(prefix)[|w.ran|];
      }
    }
  }

  /** An `Error` ends the loop that ran the item, whatever the item: a
      request delivery does not catch it. */
  lemma ErrorEndsItsLoop(w: Worker, t: seq<Event>)
    requires Run(w, t).loops > 0 && |Run(w, t).queue| > 0
    ensures Run(w, t + [Take(RaisesError)]).loops == Run(w, t).loops - 1
    ensures Run(w, t + [Take(RaisesError)]).ran == Run(w, t).ran + [Run(w, t).queue[0]]
  {
    assert (t + [Take(RaisesError)])[..|t|] == t;
  }

  /** A thread entering `execute()` brings a queue whose loops have all
      ended back to life: the backlog's head runs next. */
  lemma ExecuteRevivesQueue(w: Worker, t: seq<Event>)
    requires Run(w, t).loops == 0 && |Run(w, t).queue| > 0
    ensures var v := Run(w, t); var u := Run(w, t + [Execute, Take(Completes)]);
      u.loops == 1 && u.ran == v.ran + [v.queue[0]] && u.queue == v.queue[1..]
  {
    RunAppend(w, t, [Execute, Take(Completes)]);
    assert [Execute, Take(Completes)][..1] == [Execute];
    assert [Execute][..0] == [];
  }

  /** Only offered kinds of item are delivered. */
  lemma {:induction false} OnlyCatchingItemsDelivered(t: seq<Event>)
    requires forall i :: 0 <= i < |t| && t[i].Offer? ==> CatchesExceptions(t[i].item)
    ensures forall i :: 0 <= i < |Delivered(t)| ==> CatchesExceptions(Delivered(t)[i])
    decreases |t|
  {
    if |t| > 0 {
      OnlyCatchingItemsDelivered(t[..|t| - 1]);
    }
  }

  /** Interrupting a loop, idle or not, changes nothing: `stop()` and a
      restart's `thread.interrupt()` do not end it. */
  lemma InterruptIsSwallowed(w: Worker, t: seq<Event>)
    ensures Run(w, t + [Interrupt]) == Run(w, t)
  {
    assert (t + [Interrupt])[..|t|] == t;
  }
}
