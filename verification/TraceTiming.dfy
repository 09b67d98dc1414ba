/** Historical time: converting date-times, choosing job and step intervals, and summing up a run. */
module TraceTiming {
  import opened Text

  const NANOS: int := 1_000_000_000
  const I64_MIN: int := -0x8000_0000_0000_0000
  const I64_MAX: int := 0x7fff_ffff_ffff_ffff

  /** A date-time as seconds since the epoch, rounded down, and the nanoseconds beyond them. */
  datatype DateTime = DateTime(seconds: int, nanosecond: int)

  predicate Valid(t: DateTime) { I64_MIN <= t.seconds <= I64_MAX && 0 <= t.nanosecond < NANOS }

  /** Nanoseconds since the epoch; the platform keeps whole seconds in 64 signed bits. */
  type SystemTime = int

  predicate Representable(t: SystemTime) { I64_MIN * NANOS <= t < (I64_MAX + 1) * NANOS }

  datatype Duration = Duration(seconds: int, nanos: int)

  function CheckedAdd(t: SystemTime, d: Duration): Option<SystemTime> {
    var sum := t + d.seconds * NANOS + d.nanos;
    if Representable(sum) then Some(sum) else None
  }

  function CheckedSub(t: SystemTime, d: Duration): Option<SystemTime> {
    var difference := t - d.seconds * NANOS - d.nanos;
    if Representable(difference) then Some(difference) else None
  }

  /** Forward from the epoch, or back from it with the fraction turned round. */
  function ToSystemTime(t: DateTime): Option<SystemTime> {
    if t.seconds >= 0 then CheckedAdd(0, Duration(t.seconds, t.nanosecond))
    else if t.nanosecond == 0 then CheckedSub(0, Duration(-t.seconds, 0))
    else CheckedSub(0, Duration(-t.seconds - 1, NANOS - t.nanosecond))
  }

  /** Every date-time converts, exactly, before the epoch as after it; order is kept strictly. */
  lemma ConversionIsExact(t: DateTime, u: DateTime)
    requires Valid(t) && Valid(u)
    ensures ToSystemTime(t) == Some(t.seconds * NANOS + t.nanosecond)
    ensures ToSystemTime(u) == Some(u.seconds * NANOS + u.nanosecond)
    ensures ToSystemTime(t).value < ToSystemTime(u).value
         <==> t.seconds < u.seconds || (t.seconds == u.seconds && t.nanosecond < u.nanosecond)
  {
  }

  // ---- intervals ----

  datatype Source = Reported | Fallback

  datatype Timing = Timing(start: SystemTime, end: SystemTime, source: Source)

  predicate Ordered(t: Timing) { t.start <= t.end }

  predicate Within(inner: Timing, outer: Timing) { outer.start <= inner.start && inner.end <= outer.end }

  function MakeDerived(start: SystemTime, end: SystemTime, source: Source): Option<Timing> {
    if start <= end then Some(Timing(start, end, source)) else None
  }

  function MakeReported(start: SystemTime, end: SystemTime): Option<Timing> { MakeDerived(start, end, Reported) }

  function MakeFallback(instant: SystemTime): Timing { Timing(instant, instant, Fallback) }

  function MakeWithinParent(start: SystemTime, end: SystemTime, parent: Timing): Option<Timing> {
    if start <= end && start >= parent.start && end <= parent.end then Some(Timing(start, end, Reported)) else None
  }

  function OrFallback(t: Option<Timing>, instant: SystemTime): Timing {
    if t.Some? then t.value else MakeFallback(instant)
  }

  function SelectJob(start: Option<SystemTime>, end: Option<SystemTime>, receivedAt: SystemTime): Timing {
    if start.Some? && end.Some? then OrFallback(MakeReported(start.value, end.value), end.value)
    else if end.Some? then MakeFallback(end.value)
    else MakeFallback(receivedAt)
  }

  function SelectStep(start: Option<SystemTime>, end: Option<SystemTime>, parent: Timing): Timing {
    if start.Some? && end.Some? then OrFallback(MakeWithinParent(start.value, end.value, parent), parent.end)
    else MakeFallback(parent.end)
  }

  /** A job's interval is ordered, ends where it was reported to end, and is reported exactly when both
      ends were and agree; whatever a step reports, its interval is ordered and lies within its job. */
  lemma SelectionIsNested(start: Option<SystemTime>, end: Option<SystemTime>, receivedAt: SystemTime,
      stepStart: Option<SystemTime>, stepEnd: Option<SystemTime>)
    ensures var job := SelectJob(start, end, receivedAt);
      var step := SelectStep(stepStart, stepEnd, job);
      && Ordered(job) && Ordered(step) && Within(step, job)
      && job.end == (if end.Some? then end.value else receivedAt)
      && (job.source.Reported? <==> start.Some? && end.Some? && start.value <= end.value)
      && (job.source.Reported? ==> job.start == start.value)
      && (step.source.Reported? <==>
            stepStart.Some? && stepEnd.Some? && job.start <= stepStart.value <= stepEnd.value <= job.end)
      && (step.source.Reported? ==> step.start == stepStart.value && step.end == stepEnd.value)
      && (step.source.Fallback? ==> step.start == job.end)
  {
  }

  datatype StepReport = StepReport(number: int, start: Option<DateTime>, end: Option<DateTime>)

  datatype StepTrace = StepTrace(number: int, timing: Timing)

  function TimeOf(t: Option<DateTime>): Option<SystemTime> { if t.None? then None else ToSystemTime(t.value) }

  /** The steps of a job, in order; one bad number rejects the job. */
  method ProjectSteps(steps: seq<StepReport>, job: Timing) returns (traces: Option<seq<StepTrace>>)
    requires Ordered(job)
    ensures traces.Some? <==> forall i :: 0 <= i < |steps| ==> steps[i].number > 0
    ensures traces.Some? ==> |traces.value| == |steps|
    ensures traces.Some? ==> forall i :: 0 <= i < |steps| ==>
              && traces.value[i]
                 == StepTrace(steps[i].number, SelectStep(TimeOf(steps[i].start), TimeOf(steps[i].end), job))
              && Ordered(traces.value[i].timing) && Within(traces.value[i].timing, job)
  {
    var projected := [];
    var i := 0;
    while i < |steps|
      invariant 0 <= i <= |steps| && |projected| == i
      invariant forall j :: 0 <= j < i ==>
                  && steps[j].number > 0
                  && projected[j]
                     == StepTrace(steps[j].number, SelectStep(TimeOf(steps[j].start), TimeOf(steps[j].end), job))
                  && Ordered(projected[j].timing) && Within(projected[j].timing, job)
    {
      var timing := SelectStep(TimeOf(steps[i].start), TimeOf(steps[i].end), job);
      if steps[i].number <= 0 { return None; }
      projected := projected + [StepTrace(steps[i].number, timing)];
      i := i + 1;
    }
    return Some(projected);
  }

  // ---- conclusions ----

  datatype Conclusion = Success | Failure | Cancelled | Skipped | TimedOut | Neutral | Other

  function Normalize(value: Option<string>): Conclusion {
    if value == Some("success") then Success
    else if value == Some("failure") then Failure
    else if value == Some("cancelled") then Cancelled
    else if value == Some("skipped") then Skipped
    else if value == Some("timed_out") then TimedOut
    else if value == Some("neutral") then Neutral
    else Other
  }

  function ConclusionText(c: Conclusion): string {
    match c
    case Success => "success"
    case Failure => "failure"
    case Cancelled => "cancelled"
    case Skipped => "skipped"
    case TimedOut => "timed_out"
    case Neutral => "neutral"
    case Other => "other"
  }

  function Severity(c: Conclusion): nat {
    match c
    case Skipped => 0
    case Success => 1
    case Neutral => 2
    case Other => 3
    case Cancelled => 4
    case TimedOut => 5
    case Failure => 6
  }

  // ---- a run summed up from its jobs ----

  datatype Summary = Summary(job: nat, name: Option<string>, conclusion: Conclusion, timing: Timing, trace: nat,
      span: nat)

  function MinStart(jobs: seq<Summary>): SystemTime
    requires jobs != []
  {
    if |jobs| == 1 then jobs[0].timing.start
    else
      var m := MinStart(jobs[1..]);
      if jobs[0].timing.start < m then jobs[0].timing.start else m
  }

  function MaxEnd(jobs: seq<Summary>): SystemTime
    requires jobs != []
  {
    if |jobs| == 1 then jobs[0].timing.end
    else
      var m := MaxEnd(jobs[1..]);
      if jobs[0].timing.end > m then jobs[0].timing.end else m
  }

  function AggregateTiming(jobs: seq<Summary>): Option<Timing> {
    if jobs == [] then None
    else
      var source := if forall i :: 0 <= i < |jobs| ==> jobs[i].timing.source.Reported? then Reported else Fallback;
      Some(OrFallback(MakeDerived(MinStart(jobs), MaxEnd(jobs), source), MaxEnd(jobs)))
  }

  function Worst(jobs: seq<Summary>): Conclusion
    requires jobs != []
  {
    if |jobs| == 1 then jobs[0].conclusion
    else
      var rest := Worst(jobs[1..]);
      if Severity(jobs[0].conclusion) > Severity(rest) then jobs[0].conclusion else rest
  }

  function AggregateConclusion(jobs: seq<Summary>): Conclusion { if jobs == [] then Other else Worst(jobs) }

  lemma {:induction false} EndsOfRun(jobs: seq<Summary>)
    requires jobs != []
    ensures forall i :: 0 <= i < |jobs| ==> MinStart(jobs) <= jobs[i].timing.start && jobs[i].timing.end <= MaxEnd(jobs)
    ensures exists i :: 0 <= i < |jobs| && jobs[i].timing.start == MinStart(jobs)
    ensures exists i :: 0 <= i < |jobs| && jobs[i].timing.end == MaxEnd(jobs)
    decreases |jobs|
  {
    if |jobs| <= 1 {
    } else {
      var rest := jobs[1..];
      EndsOfRun(rest);
      var i :| 0 <= i < |rest| && rest[i].timing.start == MinStart(rest);
      var j :| 0 <= j < |rest| && rest[j].timing.end == MaxEnd(rest);
      assert jobs[i + 1] == rest[i] && jobs[j + 1] == rest[j];
      forall k | 0 <= k < |jobs|
        ensures MinStart(jobs) <= jobs[k].timing.start && jobs[k].timing.end <= MaxEnd(jobs)
      {
        if k > 0 { assert jobs[k] == rest[k - 1]; }
      }
    }
  }

  /** The run's interval is the least one around all its jobs, and reported exactly when all of them are. */
  lemma RunIntervalIsLeast(jobs: seq<Summary>, other: Timing)
    requires jobs != [] && forall i :: 0 <= i < |jobs| ==> Ordered(jobs[i].timing)
    ensures AggregateTiming(jobs).Some?
    ensures var run := AggregateTiming(jobs).value;
      && Ordered(run) && (forall i :: 0 <= i < |jobs| ==> Within(jobs[i].timing, run))
      && ((forall i :: 0 <= i < |jobs| ==> Within(jobs[i].timing, other)) ==> Within(run, other))
      && (run.source.Reported? <==> forall i :: 0 <= i < |jobs| ==> jobs[i].timing.source.Reported?)
  {
    EndsOfRun(jobs);
    assert Ordered(jobs[0].timing);
    var i :| 0 <= i < |jobs| && jobs[i].timing.start == MinStart(jobs);
    var j :| 0 <= j < |jobs| && jobs[j].timing.end == MaxEnd(jobs);
    if forall k :: 0 <= k < |jobs| ==> Within(jobs[k].timing, other) {
      assert Within(jobs[i].timing, other) && Within(jobs[j].timing, other);
    }
  }

  lemma {:induction false} WorstIsWorst(jobs: seq<Summary>)
    requires jobs != []
    ensures exists i :: 0 <= i < |jobs| && jobs[i].conclusion == Worst(jobs)
    ensures forall i :: 0 <= i < |jobs| ==> Severity(jobs[i].conclusion) <= Severity(Worst(jobs))
    decreases |jobs|
  {
    if |jobs| > 1 {
      var rest := jobs[1..];
      WorstIsWorst(rest);
      var i :| 0 <= i < |rest| && rest[i].conclusion == Worst(rest);
      assert jobs[i + 1] == rest[i];
      assert jobs[0].conclusion == Worst(jobs) || jobs[i + 1].conclusion == Worst(jobs);
      forall k | 0 <= k < |jobs|
        ensures Severity(jobs[k].conclusion) <= Severity(Worst(jobs))
      {
        if k > 0 { assert jobs[k] == rest[k - 1]; }
      }
    } else {
      assert jobs[0].conclusion == Worst(jobs);
    }
  }

  predicate Has(jobs: seq<Summary>, c: Conclusion) { exists i :: 0 <= i < |jobs| && jobs[i].conclusion == c }

  /** Conclusions from the gravest to the mildest. */
  const GRAVITY: seq<Conclusion> := [Failure, TimedOut, Cancelled, Other, Neutral, Success, Skipped]

  /** `c` is the gravest conclusion any of the jobs has. */
  ghost predicate Gravest(c: Conclusion, jobs: seq<Summary>) {
    exists k :: 0 <= k < |GRAVITY| && c == GRAVITY[k] && Has(jobs, c)
             && forall m :: 0 <= m < k ==> !Has(jobs, GRAVITY[m])
  }

  lemma GravityOf(c: Conclusion)
    ensures Severity(c) <= 6 && GRAVITY[6 - Severity(c)] == c
  {
  }

  lemma RunIsGravest(jobs: seq<Summary>)
    requires jobs != []
    ensures Gravest(AggregateConclusion(jobs), jobs)
  {
    WorstIsWorst(jobs);
    var c := Worst(jobs);
    GravityOf(c);
    forall m | 0 <= m < 6 - Severity(c)
      ensures !Has(jobs, GRAVITY[m])
    {
      assert Severity(GRAVITY[m]) > Severity(c);
    }
    assert Has(jobs, GRAVITY[6 - Severity(c)]);
  }

  lemma SeverityDecides(c: Conclusion, d: Conclusion)
    requires Severity(c) == Severity(d)
    ensures c == d
  {
  }

  /** A run has failed or timed out exactly when one of its jobs has, failed before timed out; it was
      cancelled exactly when a job was and none did worse; it succeeded exactly when some job did and
      all others did too or were skipped; and it was skipped exactly when every job was. */
  lemma RunFailsIffAJobDoes(jobs: seq<Summary>)
    requires jobs != []
    ensures Gravest(AggregateConclusion(jobs), jobs)
    ensures var run := AggregateConclusion(jobs);
      && (run == Failure <==> exists i :: 0 <= i < |jobs| && jobs[i].conclusion == Failure)
      && (run == Failure || run == TimedOut
          <==> exists i :: 0 <= i < |jobs| && (jobs[i].conclusion == Failure || jobs[i].conclusion == TimedOut))
      && (run == Skipped <==> forall i :: 0 <= i < |jobs| ==> jobs[i].conclusion == Skipped)
      && (run == Cancelled <==>
            && (exists i :: 0 <= i < |jobs| && jobs[i].conclusion == Cancelled)
            && forall i :: 0 <= i < |jobs| ==> jobs[i].conclusion != Failure && jobs[i].conclusion != TimedOut)
      && (run == Success <==>
            && (exists i :: 0 <= i < |jobs| && jobs[i].conclusion == Success)
            && forall i :: 0 <= i < |jobs| ==> jobs[i].conclusion == Success || jobs[i].conclusion == Skipped)
  {
    WorstIsWorst(jobs);
    RunIsGravest(jobs);
  }

  /** The order in which jobs are listed decides neither conclusion nor interval. */
  lemma AggregatesArePermutationInvariant(a: seq<Summary>, b: seq<Summary>)
    requires multiset(a) == multiset(b) && forall i :: 0 <= i < |a| ==> Ordered(a[i].timing)
    ensures AggregateConclusion(a) == AggregateConclusion(b) && AggregateTiming(a) == AggregateTiming(b)
  {
    assert |multiset(a)| == |a| && |multiset(b)| == |b|;
    if a != [] {
      forall x
        ensures x in a <==> x in b
      {
        assert x in a <==> x in multiset(a);
        assert x in b <==> x in multiset(b);
      }
      CoversMore(a, b);
      CoversMore(b, a);
      SeverityDecides(Worst(a), Worst(b));
    }
  }

  /** More jobs can only widen the interval, worsen the conclusion and spoil its being reported. */
  lemma CoversMore(a: seq<Summary>, b: seq<Summary>)
    requires a != [] && b != [] && forall x :: x in b ==> x in a
    ensures MinStart(a) <= MinStart(b) && MaxEnd(b) <= MaxEnd(a) && Severity(Worst(b)) <= Severity(Worst(a))
    ensures (forall i :: 0 <= i < |a| ==> a[i].timing.source.Reported?)
        ==> forall i :: 0 <= i < |b| ==> b[i].timing.source.Reported?
  {
    EndsOfRun(a);
    EndsOfRun(b);
    WorstIsWorst(a);
    WorstIsWorst(b);
    forall i | 0 <= i < |b|
      ensures exists j :: 0 <= j < |a| && a[j] == b[i]
    {
      assert b[i] in a;
    }
  }
}
