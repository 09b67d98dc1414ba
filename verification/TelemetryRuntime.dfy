/** The runtime that owns the providers and closes both admission boundaries around their shutdown. */
module TelemetryRuntime {
  import opened Text
  import opened ShutdownTasks
  import AdmissionProtocol
  import opened Admission

  type Cells = AdmissionProtocol.Cells

  /** What happens at one queue while the providers shut down: the worker begins an export of so many
      records, or a producer offers one more. */
  datatype Activity = Export(count: nat) | Offer

  function AfterActivity(c: Cells, a: Activity): Cells {
    match a
    case Export(count) => if c.finalized then c else AfterRelease(c, count)
    case Offer => AfterAdmit(c, false)
  }

  function AfterActivities(c: Cells, acts: seq<Activity>): Cells {
    if acts == [] then c else AfterActivity(AfterActivities(c, acts[..|acts| - 1]), acts[|acts| - 1])
  }

  /** One queue across a shutdown: closed first, then whatever still happens there, and what is left at
      the end is finalized and charged. */
  function AfterShutdown(c: Cells, acts: seq<Activity>): Cells {
    AfterDropPending(AfterActivities(c.(closed := true), acts))
  }

  function Exported(acts: seq<Activity>): nat {
    if acts == [] then 0
    else Exported(acts[..|acts| - 1]) + (if acts[|acts| - 1].Export? then acts[|acts| - 1].count else 0)
  }

  function Offered(acts: seq<Activity>): nat {
    if acts == [] then 0 else Offered(acts[..|acts| - 1]) + (if acts[|acts| - 1].Offer? then 1 else 0)
  }

  lemma {:induction false} ClosedActivities(c: Cells, acts: seq<Activity>)
    requires c.closed && !c.finalized && Exported(acts) <= c.pending
    ensures AfterActivities(c, acts) == c.(pending := c.pending - Exported(acts), charges := c.charges + Offered(acts))
    decreases |acts|
  {
    if acts == [] {
    } else {
      ClosedActivities(c, acts[..|acts| - 1]);
    }
  }

  lemma {:induction false} StaysClosed(c: Cells, acts: seq<Activity>)
    requires c.closed
    ensures AfterActivities(c, acts).closed
    decreases |acts|
  {
    if acts == [] {
    } else {
      StaysClosed(c, acts[..|acts| - 1]);
    }
  }

  /** A shutdown leaves no slot in use and an open gate for nobody; and whatever exports and offers fall
      into it, it charges exactly what was pending and not exported, and each late offer once. */
  lemma ShutdownCharges(c: Cells, acts: seq<Activity>)
    ensures var f := AfterShutdown(c, acts);
      && f.closed && f.finalized && f.pending == 0 && OutcomeOf(f, false).RejectClosed?
      && (!c.finalized && Exported(acts) <= c.pending ==>
         f.charges - c.charges == c.pending - Exported(acts) + Offered(acts))
  {
    StaysClosed(c.(closed := true), acts);
    if !c.finalized && Exported(acts) <= c.pending { ClosedActivities(c.(closed := true), acts); }
  }

  function PresentTasks(trace: bool, log: bool, sentry: bool): (tasks: seq<Kind>)
    ensures Distinct(tasks)
    ensures (Trace in tasks <==> trace) && (Log in tasks <==> log) && (Sentry in tasks <==> sentry)
  {
    (if trace then [Trace] else []) + (if log then [Log] else []) + (if sentry then [Sentry] else [])
  }

  class TelemetryRuntime {
    const traceQueue: AdmissionBoundary?
    const logQueue: AdmissionBoundary?
    var tracerProvider: bool
    var loggerProvider: bool
    var sentryClient: bool
    var shutdownOutcome: Option<Outcome>
    var issues: seq<Issue>

    function Queues(): set<AdmissionBoundary> {
      (if traceQueue != null then {traceQueue} else {}) + (if logQueue != null then {logQueue} else {})
    }

    ghost predicate Valid()
      reads this, Queues()
    {
      (traceQueue != null ==> traceQueue != logQueue) && forall q :: q in Queues() ==> q.Valid()
    }

    function Tasks(): seq<Kind> reads this { PresentTasks(tracerProvider, loggerProvider, sentryClient) }

    method CloseQueue(queue: AdmissionBoundary?)
      requires queue != null ==> queue.Valid()
      modifies queue
      ensures queue != null ==> queue.Valid() && queue.View() == old(queue.View()).(closed := true)
    {
      if queue != null { queue.Close(); }
    }

    /** What still happens at a closed queue while the providers shut down, then the final sweep. */
    method FinishQueue(queue: AdmissionBoundary?, acts: seq<Activity>)
      requires queue != null ==> queue.Valid() && queue.closed
      modifies queue
      ensures queue != null ==> queue.Valid() && queue.View() == AfterShutdown(old(queue.View()), acts)
    {
      if queue != null {
        for i := 0 to |acts|
          invariant queue.Valid() && queue.View() == AfterActivities(old(queue.View()), acts[..i])
        {
          assert acts[..i + 1][..i] == acts[..i];
          match acts[i]
          case Export(count) => var _ := queue.BeginExport(count, 0);
          case Offer => var _ := queue.TryAdmit(0, false);
        }
        assert acts[..|acts|] == acts;
        queue.DropPending();
      }
    }

    /** `spawns` and `messages` are what the operating system and the providers do; a second call
        has no effect and repeats the first outcome. */
    method Shutdown(spawns: seq<bool>, messages: seq<Message>, traceActs: seq<Activity>, logActs: seq<Activity>)
      returns (outcome: Outcome)
      requires Valid()
      requires shutdownOutcome.None? ==> |spawns| == |Tasks()| && Delivered(messages, Spawned(Tasks(), spawns))
      modifies this, Queues()
      ensures Valid() && shutdownOutcome == Some(outcome)
      ensures old(shutdownOutcome).Some? ==>
          Some(outcome) == old(shutdownOutcome) && unchanged(this) && unchanged(Queues())
      ensures old(shutdownOutcome).None? ==>
        && Tasks() == []
        && (traceQueue != null ==> traceQueue.View() == AfterShutdown(old(traceQueue.View()), traceActs))
        && (logQueue != null ==> logQueue.View() == AfterShutdown(old(logQueue.View()), logActs))
        && (outcome.TimedOut? <==> Waiting(Spawned(old(Tasks()), spawns), messages) != {})
        && (outcome.Completed? <==> forall k :: k in old(Tasks()) ==> Succeeded(messages, k))
        && (forall k :: About(issues, k) == Deserved(old(Tasks()), Spawned(old(Tasks()), spawns), messages, k))
    {
      if shutdownOutcome.Some? { return shutdownOutcome.value; }
      CloseQueue(traceQueue);
      CloseQueue(logQueue);
      var tasks := Tasks();
      tracerProvider, loggerProvider, sentryClient := false, false, false;
      var written;
      outcome, written := RunShutdownTasks(tasks, spawns, messages);
      issues := written;
      FinishQueue(traceQueue, traceActs);
      FinishQueue(logQueue, logActs);
      shutdownOutcome := Some(outcome);
    }
  }
}
