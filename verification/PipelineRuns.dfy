/** Stored links to emitted job traces, and the one summary trace a finished run gets from them. */
module PipelineRuns {
  import opened Sets
  import opened Text
  import opened TraceTiming
  import C = RequiredChecks

  const MAX_JOBS: nat := 256

  datatype Identity = Identity(trace: nat, span: nat)

  datatype Job = Job(job: nat, name: Option<string>, conclusion: Conclusion, timing: Timing)

  /** One stored row; texts are kept as written, so that what an outsider left there can be read. */
  datatype Link = Link(name: Option<string>, conclusion: string, identity: Identity, start: int, end: int,
      source: string)

  /** The rows of one run attempt, by job. */
  type Links = map<nat, Link>

  predicate ValidIdentity(id: Identity) { id.trace != 0 && id.span != 0 }

  predicate ValidJob(t: Job) { t.job > 0 && Ordered(t.timing) && (t.name.Some? ==> C.IsName(t.name.value)) }

  function SystemTimeToNanos(t: SystemTime): Option<int> { if 0 <= t <= I64_MAX then Some(t) else None }

  function NanosToSystemTime(n: int): Option<SystemTime> { if n >= 0 then Some(n) else None }

  function SourceText(s: Source): string { if s.Reported? then "reported" else "fallback" }

  function ParseSource(s: string): Option<Source> {
    if s == "reported" then Some(Reported) else if s == "fallback" then Some(Fallback) else None
  }

  /** Rechecks a stored row; anything outside the bounded vocabulary drops it. */
  function IntoSummary(job: nat, l: Link): Option<Summary> {
    var conclusion := Normalize(Some(l.conclusion));
    var start, end, source := NanosToSystemTime(l.start), NanosToSystemTime(l.end), ParseSource(l.source);
    if job <= 0 || ConclusionText(conclusion) != l.conclusion || !ValidIdentity(l.identity) then None
    else if start.None? || end.None? || source.None? then None
    else match MakeDerived(start.value, end.value, source.value)
      case None => None
      case Some(timing) =>
        var name := if l.name.None? then None else C.Sanitize(l.name.value);
        Some(Summary(job, name, conclusion, timing, l.identity.trace, l.identity.span))
  }

  function LinkOf(t: Job, id: Identity): Link {
    Link(t.name, ConclusionText(t.conclusion), id, t.timing.start, t.timing.end, SourceText(t.timing.source))
  }

  predicate Recordable(t: Job, id: Identity) { ValidIdentity(id) && 0 <= t.timing.start && t.timing.end <= I64_MAX }

  function SummaryOf(t: Job, id: Identity): Summary {
    Summary(t.job, t.name, t.conclusion, t.timing, id.trace, id.span)
  }

  lemma NormalizeText(c: Conclusion)
    ensures Normalize(Some(ConclusionText(c))) == c
  {
  }

  /** Recording a job and reading its row back is the identity, wherever recording succeeds. */
  lemma RecordedReadsBack(t: Job, id: Identity)
    requires ValidJob(t) && Recordable(t, id)
    ensures IntoSummary(t.job, LinkOf(t, id)) == Some(SummaryOf(t, id))
  {
    NormalizeText(t.conclusion);
    if t.name.Some? { C.SanitizeMakesNames(t.name.value); }
  }

  /** Whatever a row holds, the summary made of it is within bounds. */
  lemma SummaryIsBounded(job: nat, l: Link)
    requires IntoSummary(job, l).Some?
    ensures var s := IntoSummary(job, l).value;
      s.job == job > 0 && Ordered(s.timing) && 0 <= s.timing.start && ValidIdentity(Identity(s.trace, s.span))
      && (s.name.Some? ==> C.IsName(s.name.value))
  {
    if l.name.Some? { C.SanitizeMakesNames(l.name.value); }
  }

  /** The vocabulary a row has to keep to. */
  predicate Bounded(job: nat, l: Link) {
    && job > 0 && l.identity.trace != 0 && l.identity.span != 0 && 0 <= l.start <= l.end
    && l.source in ["reported", "fallback"]
    && l.conclusion in ["success", "failure", "cancelled", "skipped", "timed_out", "neutral", "other"]
  }

  /** Exactly the rows within the vocabulary are read, and as what they say. */
  lemma ReadExactly(job: nat, l: Link)
    ensures IntoSummary(job, l).Some? <==> Bounded(job, l)
    ensures Bounded(job, l) ==>
      var s := IntoSummary(job, l).value;
      && s.job == job && s.timing.start == l.start && s.timing.end == l.end
      && (s.timing.source.Reported? <==> l.source == "reported") && ConclusionText(s.conclusion) == l.conclusion
      && s.trace == l.identity.trace && s.span == l.identity.span
      && s.name == (if l.name.None? then None else C.Sanitize(l.name.value))
  {
    if l.conclusion in ["success", "failure", "cancelled", "skipped", "timed_out", "neutral", "other"] {
      assert ConclusionText(Normalize(Some(l.conclusion))) == l.conclusion;
    } else {
      assert ConclusionText(Normalize(Some(l.conclusion))) == "other";
    }
  }

  // ---- listing ----

  predicate Sooner(links: Links, j: nat, k: nat) {
    j in links && k in links && (links[j].start < links[k].start || (links[j].start == links[k].start && j < k))
  }

  function Least(a: nat, b: nat): nat { if a < b then a else b }

  /** The first rows of a run in the order of their start, ties by job id. */
  predicate FirstRows(links: Links, listed: seq<nat>, limit: nat) {
    && |listed| == Least(limit, |links|)
    && (forall i :: 0 <= i < |listed| ==> listed[i] in links)
    && (forall i, j :: 0 <= i < j < |listed| ==> Sooner(links, listed[i], listed[j]))
    && (forall i, k :: 0 <= i < |listed| && k in links && k !in listed ==> Sooner(links, listed[i], k))
  }

  /** The rows listed are in the order of their start, then of their job; none left out comes before one. */
  lemma ListedInOrder(links: Links, listed: seq<nat>, limit: nat)
    requires FirstRows(links, listed, limit)
    ensures |listed| == if limit < |links| then limit else |links|
    ensures forall i, j | 0 <= i < j < |listed| ::
      var x, y := listed[i], listed[j];
      x in links && y in links && links[x].start <= links[y].start && (links[x].start == links[y].start ==> x < y)
    ensures forall i, k | 0 <= i < |listed| && k in links && k !in listed ::
      links[listed[i]].start <= links[k].start && (links[listed[i]].start == links[k].start ==> listed[i] < k)
  {
    forall i, j | 0 <= i < j < |listed|
      ensures Sooner(links, listed[i], listed[j])
    {
    }
    forall i, k | 0 <= i < |listed| && k in links && k !in listed
      ensures Sooner(links, listed[i], k)
    {
    }
  }

  predicate Readable(links: Links, k: nat) { k in links && IntoSummary(k, links[k]).Some? }

  function Summaries(links: Links, listed: seq<nat>): seq<Summary>
    requires forall i :: 0 <= i < |listed| ==> listed[i] in links
  {
    if listed == [] then []
    else
      (match IntoSummary(listed[0], links[listed[0]]) case None => [] case Some(s) => [s])
          + Summaries(links, listed[1..])
  }

  predicate IsSoonest(links: Links, s: set<nat>, m: nat) {
    m in s && forall k :: k in s && k != m ==> Sooner(links, m, k)
  }

  lemma {:induction false} Soonest(links: Links, s: set<nat>) returns (m: nat)
    requires s != {} && forall k :: k in s ==> k in links
    ensures IsSoonest(links, s, m)
    decreases s
  {
    var x :| x in s;
    m := x;
    var rest := s - {x};
    if rest == {} {
      assert s == {x};
    } else {
      var r := Soonest(links, rest);
      if Sooner(links, r, x) { m := r; }
      forall k | k in s && k != m
        ensures Sooner(links, m, k)
      {
        if k != x && k != r { assert Sooner(links, r, k); }
      }
    }
  }

  /** Part of the way through: `listed` are the first rows, `rest` all others. */
  predicate Picked(links: Links, listed: seq<nat>, rest: set<nat>) {
    && rest <= links.Keys && |rest| + |listed| == |links|
    && (forall i :: 0 <= i < |listed| ==> listed[i] in links && listed[i] !in rest)
    && (forall k :: k in links ==> k in rest || k in listed)
    && (forall i, j :: 0 <= i < j < |listed| ==> Sooner(links, listed[i], listed[j]))
    && (forall i, k :: 0 <= i < |listed| && k in rest ==> Sooner(links, listed[i], k))
  }

  lemma PickNext(links: Links, listed: seq<nat>, rest: set<nat>, m: nat)
    requires Picked(links, listed, rest) && IsSoonest(links, rest, m)
    ensures Picked(links, listed + [m], rest - {m}) && |rest - {m}| < |rest|
  {
    var all := listed + [m];
    assert all[|listed|] == m;
    forall k | k in links
      ensures k in rest - {m} || k in all
    {
      if k in listed { assert k in all; }
    }
  }

  lemma PickedAreFirst(links: Links, listed: seq<nat>, rest: set<nat>, limit: nat)
    requires Picked(links, listed, rest) && |listed| <= limit && (rest == {} || |listed| == limit)
    ensures FirstRows(links, listed, limit)
  {
    forall i, k | 0 <= i < |listed| && k in links && k !in listed
      ensures Sooner(links, listed[i], k)
    {
      assert k in rest;
    }
  }

  class WorkflowJobLinkStore {
    var links: Links

    constructor ()
      ensures links == map[]
    {
      links := map[];
    }

    /** Inserts or replaces the row of a job; times the column cannot hold are refused. */
    method Record(t: Job, id: Identity, fails: bool) returns (ok: bool)
      requires ValidJob(t)
      modifies this
      ensures ok <==> !fails && id.trace != 0 && id.span != 0 && 0 <= t.timing.start && t.timing.end <= I64_MAX
      ensures links == if ok then old(links)[t.job := LinkOf(t, id)] else old(links)
      ensures ok ==> Readable(links, t.job) && IntoSummary(t.job, links[t.job]).value == SummaryOf(t, id)
    {
      if id.trace == 0 || id.span == 0 { return false; }
      var start, end := SystemTimeToNanos(t.timing.start), SystemTimeToNanos(t.timing.end);
      if start.None? || end.None? || fails { return false; }
      RecordedReadsBack(t, id);
      links := links[t.job :=
          Link(t.name, ConclusionText(t.conclusion), id, start.value, end.value, SourceText(t.timing.source))];
      return true;
    }

    method List(limit: nat) returns (jobs: seq<Summary>, ghost listed: seq<nat>)
      ensures FirstRows(links, listed, limit) && jobs == Summaries(links, listed)
      ensures |jobs| <= Least(limit, |links|)
    {
      jobs, listed := [], [];
      var rest := links.Keys;
      var n := 0;
      while rest != {} && n < limit
        invariant |jobs| <= n == |listed| <= limit && Picked(links, listed, rest) && jobs == Summaries(links, listed)
        decreases |rest|
      {
        ghost var first := Soonest(links, rest);
        var m :| IsSoonest(links, rest, m);
        PickNext(links, listed, rest, m);
        SummariesAppend(links, listed, m);
        var summary := IntoSummary(m, links[m]);
        if summary.Some? { jobs := jobs + [summary.value]; }
        listed, rest, n := listed + [m], rest - {m}, n + 1;
      }
      PickedAreFirst(links, listed, rest, limit);
    }
  }

  lemma {:induction false} SummariesAppend(links: Links, listed: seq<nat>, k: nat)
    requires (forall i :: 0 <= i < |listed| ==> listed[i] in links) && k in links
    ensures forall i :: 0 <= i < |listed + [k]| ==> (listed + [k])[i] in links
    ensures Summaries(links, listed + [k])
         == Summaries(links, listed) + (match IntoSummary(k, links[k]) case None => [] case Some(s) => [s])
    decreases |listed|
  {
    if listed == [] {
      assert [] + [k] == [k] && [k][1..] == [];
    } else {
      SummariesAppend(links, listed[1..], k);
      assert (listed + [k])[1..] == listed[1..] + [k];
    }
  }

  // ---- the summary trace ----

  datatype Emission = Silent | LinkFailure | TooManyJobs(count: nat)
      | Trace(jobs: seq<Summary>, timing: Timing, conclusion: Conclusion)

  function NewRunTrace(jobs: seq<Summary>): Option<Emission> {
    if jobs == [] || |jobs| > MAX_JOBS then None
    else match AggregateTiming(jobs)
      case None => None
      case Some(timing) => Some(Trace(jobs, timing, AggregateConclusion(jobs)))
  }

  /** What a finished run's delivery leads to; `listed` is what the store answered, if it did, and
      `projected` whether the payload names a run. */
  function Emit(enabled: bool, listed: Option<seq<Summary>>, projected: bool): Emission {
    if !enabled then Silent
    else if listed.None? then LinkFailure
    else if listed.value == [] then Silent
    else if |listed.value| > MAX_JOBS then TooManyJobs(|listed.value|)
    else if !projected then Silent
    else match NewRunTrace(listed.value)
      case None => Silent
      case Some(t) => t
  }

  /** What is emitted: a trace exactly for 1 to 256 summaries of a run the payload names; and why not,
      otherwise. */
  lemma EmissionExactly(enabled: bool, listed: Option<seq<Summary>>, projected: bool)
    requires listed.Some? ==> forall i :: 0 <= i < |listed.value| ==> Ordered(listed.value[i].timing)
    ensures listed.Some? ==> (NewRunTrace(listed.value).Some? <==> 1 <= |listed.value| <= MAX_JOBS)
    ensures var e := Emit(enabled, listed, projected); var answered := enabled && listed.Some?;
      && (e.Trace? <==> answered && projected && 1 <= |listed.value| <= MAX_JOBS)
      && (e.LinkFailure? <==> enabled && listed.None?)
      && (e.TooManyJobs? <==> answered && |listed.value| > MAX_JOBS)
      && (e.TooManyJobs? ==> e.count == |listed.value|)
  {
    if listed.Some? && listed.value != [] { RunIntervalIsLeast(listed.value, listed.value[0].timing); }
  }

  /** What a trace says of its run: it lists the jobs as given, has the gravest of their conclusions, and
      the least interval around them, which is reported exactly when all of theirs are. */
  ghost predicate SumsUp(jobs: seq<Summary>, e: Emission)
    requires e.Trace?
  {
    && e.jobs == jobs && Gravest(e.conclusion, jobs) && (e.conclusion == Failure <==> Has(jobs, Failure))
    && Ordered(e.timing) && (forall i :: 0 <= i < |jobs| ==> Within(jobs[i].timing, e.timing))
    && (forall other: Timing :: (forall i :: 0 <= i < |jobs| ==> Within(jobs[i].timing, other)) ==>
         Within(e.timing, other))
    && (e.timing.source.Reported? <==> forall i :: 0 <= i < |jobs| ==> jobs[i].timing.source.Reported?)
  }

  lemma TraceSumsUp(jobs: seq<Summary>)
    requires Emit(true, Some(jobs), true).Trace? && forall i :: 0 <= i < |jobs| ==> Ordered(jobs[i].timing)
    ensures SumsUp(jobs, Emit(true, Some(jobs), true))
  {
    RunFailsIffAJobDoes(jobs);
    forall other: Timing | forall i :: 0 <= i < |jobs| ==> Within(jobs[i].timing, other)
      ensures Within(Emit(true, Some(jobs), true).timing, other)
    {
      RunIntervalIsLeast(jobs, other);
    }
    RunIntervalIsLeast(jobs, jobs[0].timing);
  }

  method EmitPipelineTrace(store: WorkflowJobLinkStore, enabled: bool, fails: bool, projected: bool)
    returns (emission: Emission, ghost listed: seq<nat>)
    ensures enabled && !fails ==>
              FirstRows(store.links, listed, MAX_JOBS + 1)
                  && emission == Emit(true, Some(Summaries(store.links, listed)), projected)
    ensures !enabled || fails ==> emission == Emit(enabled, None, projected)
    ensures emission.Trace? ==> projected && SumsUp(Summaries(store.links, listed), emission)
  {
    listed := [];
    if !enabled { return Silent, listed; }
    if fails { return LinkFailure, listed; }
    var jobs;
    jobs, listed := store.List(MAX_JOBS + 1);
    if jobs == [] { return Silent, listed; }
    if |jobs| > MAX_JOBS { return TooManyJobs(|jobs|), listed; }
    if !projected { return Silent, listed; }
    match NewRunTrace(jobs)
    case None => return Silent, listed;
    case Some(t) =>
      SummariesOrdered(store.links, listed);
      TraceSumsUp(jobs);
      return t, listed;
  }

  function ReadableIn(links: Links, listed: seq<nat>): set<nat> {
    set i | 0 <= i < |listed| && Readable(links, listed[i]) :: listed[i]
  }

  predicate Distinct(listed: seq<nat>) { forall i, j :: 0 <= i < j < |listed| ==> listed[i] != listed[j] }

  /** The summaries are those of the readable rows listed, one each. */
  lemma {:induction false} SummariesAre(links: Links, listed: seq<nat>)
    requires (forall i :: 0 <= i < |listed| ==> listed[i] in links) && Distinct(listed)
    ensures |Summaries(links, listed)| == |ReadableIn(links, listed)| <= |listed|
    ensures forall k :: k in ReadableIn(links, listed) ==> IntoSummary(k, links[k]).value in Summaries(links, listed)
    ensures forall s :: s in Summaries(links, listed) ==>
        s.job in ReadableIn(links, listed) && s == IntoSummary(s.job, links[s.job]).value
    decreases |listed|
  {
    if listed == [] {
    } else {
      var k, rest := listed[0], listed[1..];
      SummariesAre(links, rest);
      assert k !in ReadableIn(links, rest);
      assert listed == [k] + rest;
      if Readable(links, k) {
        SummaryIsBounded(k, links[k]);
        ReadableCons(links, k, rest);
      } else {
        ReadableCons(links, k, rest);
      }
    }
  }

  lemma ReadableCons(links: Links, k: nat, rest: seq<nat>)
    ensures ReadableIn(links, [k] + rest) == (if Readable(links, k) then {k} else {}) + ReadableIn(links, rest)
  {
    var all := [k] + rest;
    forall x
      ensures x in ReadableIn(links, all) <==> x in (if Readable(links, k) then {k} else {}) + ReadableIn(links, rest)
    {
      if x in ReadableIn(links, rest) {
        var i :| 0 <= i < |rest| && rest[i] == x && Readable(links, rest[i]);
        assert all[i + 1] == x;
      }
      if x == k && Readable(links, k) { assert all[0] == x; }
    }
  }

  lemma FirstAreDistinct(links: Links, listed: seq<nat>, limit: nat)
    requires FirstRows(links, listed, limit)
    ensures Distinct(listed)
  {
    forall i, j | 0 <= i < j < |listed|
      ensures listed[i] != listed[j]
    {
      assert Sooner(links, listed[i], listed[j]);
    }
  }

  function Ids(listed: seq<nat>): set<nat> { set i | 0 <= i < |listed| :: listed[i] }

  lemma {:induction false} IdsCount(listed: seq<nat>)
    requires Distinct(listed)
    ensures |Ids(listed)| == |listed|
    decreases |listed|
  {
    if listed == [] {
    } else {
      var rest := listed[1..];
      IdsCount(rest);
      assert listed[0] !in Ids(rest);
      assert Ids(listed) == Ids(rest) + {listed[0]} by {
        forall x
          ensures x in Ids(listed) <==> x in Ids(rest) + {listed[0]}
        {
          if x in Ids(rest) {
            var i :| 0 <= i < |rest| && rest[i] == x;
            assert listed[i + 1] == x;
          }
        }
      }
    }
  }

  predicate Shown(links: Links, jobs: seq<Summary>, k: nat) {
    Readable(links, k) && IntoSummary(k, links[k]).value in jobs
  }

  /** What the summaries show are the readable rows among those listed. */
  lemma ShownAreListed(links: Links, listed: seq<nat>)
    requires FirstRows(links, listed, MAX_JOBS + 1)
    ensures forall k :: Shown(links, Summaries(links, listed), k) <==> k in listed && Readable(links, k)
    ensures |Summaries(links, listed)| == |ReadableIn(links, listed)| <= |Ids(listed)| == |listed|
    ensures (forall i :: 0 <= i < |listed| ==> Readable(links, listed[i])) <==> |Summaries(links, listed)| == |listed|
    ensures (forall k :: k in links ==> k in listed) <==> |links| == |listed|
  {
    FirstAreDistinct(links, listed, MAX_JOBS + 1);
    SummariesAre(links, listed);
    IdsCount(listed);
    forall k | Readable(links, k)
      ensures IntoSummary(k, links[k]).value in Summaries(links, listed) <==> k in listed
    {
      SummaryIsBounded(k, links[k]);
    }
    PartIsSmaller(ReadableIn(links, listed), Ids(listed));
    AllReadable(links, listed);
    PartIsSmaller(Ids(listed), links.Keys);
    AllListed(links, listed);
  }

  lemma AllReadable(links: Links, listed: seq<nat>)
    ensures (forall i :: 0 <= i < |listed| ==> Readable(links, listed[i])) <==> ReadableIn(links, listed) == Ids(listed)
  {
    if ReadableIn(links, listed) == Ids(listed) {
      forall i | 0 <= i < |listed|
        ensures Readable(links, listed[i])
      {
        assert listed[i] in Ids(listed);
      }
    }
  }

  lemma AllListed(links: Links, listed: seq<nat>)
    requires forall i :: 0 <= i < |listed| ==> listed[i] in links
    ensures Ids(listed) <= links.Keys && (Ids(listed) == links.Keys <==> forall k :: k in links ==> k in listed)
  {
    forall k
      ensures k in Ids(listed) <==> k in listed
    {
    }
    if Ids(listed) == links.Keys {
      forall k | k in links
        ensures k in listed
      {
        assert k in links.Keys;
      }
    }
  }

  /** A run of readable rows is traced whole or, from 257 jobs on, not at all. */
  lemma WholeOrNothing(links: Links, listed: seq<nat>)
    requires FirstRows(links, listed, MAX_JOBS + 1) && forall k :: k in links ==> Readable(links, k)
    ensures var jobs := Summaries(links, listed);
      var emission := Emit(true, Some(jobs), true);
      && (emission.Trace? <==> 1 <= |links| <= MAX_JOBS)
      && (emission.TooManyJobs? <==> |links| > MAX_JOBS)
      && (emission.Trace? ==> emission.jobs == jobs && |jobs| == |links|
                              && forall k :: k in links ==> Shown(links, jobs, k))
  {
    ShownAreListed(links, listed);
  }

  /** Some of the rows a query returned can be read and some cannot. */
  ghost predicate Mixed(links: Links, listed: seq<nat>) {
    && (exists i :: 0 <= i < |listed| && Readable(links, listed[i]))
    && (exists i :: 0 <= i < |listed| && !Readable(links, listed[i]))
  }

  lemma NoneShown(links: Links, listed: seq<nat>)
    requires FirstRows(links, listed, MAX_JOBS + 1)
    ensures Summaries(links, listed) != [] <==> exists i :: 0 <= i < |listed| && Readable(links, listed[i])
  {
    ShownAreListed(links, listed);
    var jobs := Summaries(links, listed);
    if i :| 0 <= i < |listed| && Readable(links, listed[i]) { assert Shown(links, jobs, listed[i]); }
    if jobs != [] {
      FirstAreDistinct(links, listed, MAX_JOBS + 1);
      SummariesAre(links, listed);
      assert jobs[0] in jobs;
      assert jobs[0].job in ReadableIn(links, listed);
    }
  }

  /** A trace leaves out a row of its run exactly when the query met both readable and unreadable rows. */
  lemma TraceIsPartialExactly(links: Links, listed: seq<nat>)
    requires FirstRows(links, listed, MAX_JOBS + 1)
    ensures var jobs := Summaries(links, listed);
      (Emit(true, Some(jobs), true).Trace? && exists k :: k in links && !Shown(links, jobs, k))
          <==> Mixed(links, listed)
  {
    var jobs := Summaries(links, listed);
    ShownAreListed(links, listed);
    NoneShown(links, listed);
    if i :| 0 <= i < |listed| && !Readable(links, listed[i]) {
      assert listed[i] in links && !Shown(links, jobs, listed[i]);
    }
  }

  /** And exactly then is a run of too many jobs traced after all, in part, instead of rejected. */
  lemma OverLimitIsTracedExactly(links: Links, listed: seq<nat>)
    requires FirstRows(links, listed, MAX_JOBS + 1) && |links| > MAX_JOBS
    ensures Emit(true, Some(Summaries(links, listed)), true).Trace? <==> Mixed(links, listed)
    ensures Emit(true, Some(Summaries(links, listed)), true).TooManyJobs?
        <==> forall i :: 0 <= i < |listed| ==> Readable(links, listed[i])
  {
    ShownAreListed(links, listed);
    NoneShown(links, listed);
  }

  // ---- a run of 257 jobs, one of them unreadable ----

  function SampleLink(k: nat): Link {
    Link(None, "success", if k == 1 then Identity(0, 0) else Identity(1, 1), k, k, "reported")
  }

  function SampleRun(count: nat): Links { map k | 1 <= k <= count :: SampleLink(k) }

  function SampleOrder(count: nat): (ids: seq<nat>)
    ensures |ids| == count && forall i :: 0 <= i < count ==> ids[i] == i + 1
  {
    seq(count, i => i + 1)
  }

  lemma SampleCount(count: nat)
    ensures |SampleRun(count)| == count
    ensures forall k :: k in SampleRun(count) ==> k in SampleOrder(count)
  {
    var links, listed := SampleRun(count), SampleOrder(count);
    IdsCount(listed);
    forall k
      ensures k in Ids(listed) <==> k in links.Keys
    {
      if k in links { assert listed[k - 1] == k; }
    }
    assert Ids(listed) == links.Keys;
    forall k | k in links
      ensures k in listed
    {
      assert listed[k - 1] == k;
    }
  }

  lemma SampleIsListed(count: nat)
    requires count <= MAX_JOBS + 1
    ensures |SampleRun(count)| == count && FirstRows(SampleRun(count), SampleOrder(count), MAX_JOBS + 1)
  {
    SampleCount(count);
  }

  lemma SampleReads(count: nat, k: nat)
    requires 1 <= k <= count
    ensures Readable(SampleRun(count), k) <==> k > 1
  {
    NormalizeText(Success);
  }

  /** Both failures happen: from two jobs on, with the first row unreadable, the trace is partial, and
      at 257 jobs it should not have been there at all. */
  lemma PartialTraceHappens(count: nat)
    requires 2 <= count <= MAX_JOBS + 1
    ensures var links, jobs := SampleRun(count), Summaries(SampleRun(count), SampleOrder(count));
      && |links| == count && FirstRows(links, SampleOrder(count), MAX_JOBS + 1)
      && Emit(true, Some(jobs), true).Trace? && !Shown(links, jobs, 1) && 1 in links
  {
    var links, listed := SampleRun(count), SampleOrder(count);
    SampleIsListed(count);
    SampleReads(count, 1);
    SampleReads(count, 2);
    assert listed[0] == 1 && listed[1] == 2;
    ShownAreListed(links, listed);
    TraceIsPartialExactly(links, listed);
  }

  /** From step to run: the run's interval contains that of every job it sums up, as that job was
      recorded, and with it every step of the job. */
  lemma RunContainsSteps(links: Links, listed: seq<nat>, t: Job, id: Identity, stepStart: Option<SystemTime>,
      stepEnd: Option<SystemTime>)
    requires FirstRows(links, listed, MAX_JOBS + 1) && Emit(true, Some(Summaries(links, listed)), true).Trace?
    requires ValidJob(t) && Recordable(t, id) && t.job in listed && links[t.job] == LinkOf(t, id)
    ensures var run, step :=
        Emit(true, Some(Summaries(links, listed)), true).timing, SelectStep(stepStart, stepEnd, t.timing);
      Within(t.timing, run) && Within(step, t.timing) && Within(step, run) && Ordered(step) && Ordered(run)
  {
    var jobs := Summaries(links, listed);
    RecordedIsSummarized(links, listed, t, id);
    SummariesOrdered(links, listed);
    JobWithinRun(jobs, SummaryOf(t, id));
    StepWithinJob(stepStart, stepEnd, t.timing);
  }

  lemma RecordedIsSummarized(links: Links, listed: seq<nat>, t: Job, id: Identity)
    requires FirstRows(links, listed, MAX_JOBS + 1) && ValidJob(t) && Recordable(t, id)
    requires t.job in listed && links[t.job] == LinkOf(t, id)
    ensures SummaryOf(t, id) in Summaries(links, listed)
  {
    ShownAreListed(links, listed);
    RecordedReadsBack(t, id);
    assert Shown(links, Summaries(links, listed), t.job);
  }

  lemma JobWithinRun(jobs: seq<Summary>, s: Summary)
    requires Emit(true, Some(jobs), true).Trace? && s in jobs
    requires forall i :: 0 <= i < |jobs| ==> Ordered(jobs[i].timing)
    ensures var run := Emit(true, Some(jobs), true).timing;
      Within(s.timing, run) && Ordered(run)
  {
    RunIntervalIsLeast(jobs, s.timing);
    var i :| 0 <= i < |jobs| && jobs[i] == s;
  }

  lemma StepWithinJob(start: Option<SystemTime>, end: Option<SystemTime>, job: Timing)
    requires Ordered(job)
    ensures Within(SelectStep(start, end, job), job) && Ordered(SelectStep(start, end, job))
  {
  }

  lemma {:induction false} SummariesOrdered(links: Links, listed: seq<nat>)
    requires forall i :: 0 <= i < |listed| ==> listed[i] in links
    ensures forall i :: 0 <= i < |Summaries(links, listed)| ==> Ordered(Summaries(links, listed)[i].timing)
    decreases |listed|
  {
    if listed == [] {
    } else {
      SummariesOrdered(links, listed[1..]);
      if Readable(links, listed[0]) { SummaryIsBounded(listed[0], links[listed[0]]); }
    }
  }
}
