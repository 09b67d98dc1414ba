/** The store, the counters and the processor that the runs of `MergeQueueRuns` abstract. */
module QueueProcessor {
  import opened Text
  import opened QueueTimestamp
  import opened TextBatches
  import opened MergeQueueRows
  import opened MergeQueueRuns
  import R = Retention

  class MergeQueueStore {
    var rows: Attempts

    constructor ()
      ensures rows == map[]
    {
      rows := map[];
    }

    /** `id` is the row id the database assigns, `fault` how it fails the transaction, if it does. */
    method Enqueue(k: Key, at: Instant, id: nat, fault: Fault) returns (result: Result)
      requires id !in rows
      modifies this
      ensures Served(rows, None, result) == Faulted(old(rows), EnqueueRow(old(rows), k, at, id), fault)
    {
      if fault.FailsBefore? { return StoreFailed(fault.e); }
      if exists i :: i in rows && IsPending(rows[i]) && rows[i].key == k {
        assert ActiveIds(rows, k) != {} by {
          var i :| i in rows && IsPending(rows[i]) && rows[i].key == k;
          assert i in ActiveIds(rows, k);
        }
        result := AlreadyActive;
      } else {
        rows := rows[id := Attempt(k, Format(at), None, Pending, NoReason)];
        result := Created;
      }
      if fault.FailsAfterCommit? { result := StoreFailed(fault.e); }
    }

    /** Closes the active attempt; what stands in its way is read within the same transaction.  `read`
        parses stored times, in whatever spelling they are; one it cannot read rolls the change back. */
    method Complete(k: Key, name: string, how: Completion, at: Instant, read: string -> Option<Instant>, fault: Fault)
      returns (result: Result)
      requires Valid(at) && OnePending(rows) && ReadsValid(read)
      modifies this
      ensures var served :=
          Faulted(old(rows), CompleteReading(old(rows), k, name, how, at, old(Reading(rows, k, read))), fault);
        rows == served.rows && result == served.result
    {
      if fault.FailsBefore? { return StoreFailed(fault.e); }
      var active := set i | i in rows && IsPending(rows[i]) && rows[i].key == k;
      assert active == ActiveIds(rows, k);
      if active == {} {
        var completedExists := exists i :: i in rows && rows[i].key == k;
        result := if completedExists then AlreadyCompleted else Missing;
      } else {
        var id :| id in active;
        assert id == ActiveId(rows, k);
        var enqueuedAt := read(rows[id].enqueuedAt);
        if enqueuedAt.None? {
          result := StoreFailed(Internal);
        } else {
          rows := map i | i in rows :: if i in active then Closed(rows[i], how, at) else rows[i];
          assert rows == Finished(old(rows), k, how, at);
          result := Completed(enqueuedAt.value);
        }
      }
      if fault.FailsAfterCommit? { result := StoreFailed(fault.e); }
    }

    /** Deletes the oldest completed attempts, at most a batch, comparing texts. */
    method PruneCompletedBatch(cutoff: Instant, fails: bool) returns (deleted: Option<nat>, ghost batch: set<nat>)
      requires Valid(cutoff) && AllShaped(rows)
      modifies this
      ensures fails ==> deleted.None? && batch == {}
      ensures !fails ==> deleted == Some(|batch|)
      ensures !fails ==> |batch| == R.Least(R.BATCH, |ExpiredTexts(CompletionTexts(old(rows)), Format(cutoff))|)
      ensures OldestTexts(CompletionTexts(old(rows)), batch, Format(cutoff)) && rows == old(rows) - batch
      ensures batch !! PendingIds(old(rows)) && AllStamps(CompletionTexts(old(rows)))
      ensures R.Leads(Timed(CompletionTexts(old(rows))), batch, Millis(cutoff))
    {
      batch := {};
      PruningSparesPending(rows, batch, Format(cutoff));
      TextBatchIsTimeBatch(CompletionTexts(rows), batch, cutoff);
      assert rows - {} == rows;
      if fails { return None, batch; }
      var chosen := OldestBatch(CompletionTexts(rows), cutoff);
      PruningSparesPending(rows, chosen, Format(cutoff));
      rows := rows - chosen;
      return Some(|chosen|), chosen;
    }
  }

  class Metrics {
    var counters: multiset<Label>

    constructor ()
      ensures counters == multiset{}
    {
      counters := multiset{};
    }

    method RecordMergeQueueCompletion(name: string, how: Completion, duration: int)
      modifies this
      ensures counters == old(counters) + multiset{CompletionLabel(name, how, duration)}
    {
      if duration < 0 || duration > MAX_ATTEMPT_DURATION {
        RecordMergeQueueTransitionFailure(name, InvalidDuration);
        return;
      }
      counters := counters + multiset{Outcome(name, how)};
    }

    method RecordMergeQueueTransitionFailure(name: string, reason: FailureReason)
      modifies this
      ensures counters == old(counters) + multiset{TransitionFailure(name, reason)}
    {
      counters := counters + multiset{TransitionFailure(name, reason)};
    }
  }

  class QueueProcessor {
    const store: MergeQueueStore
    const metrics: Metrics

    constructor (store: MergeQueueStore, metrics: Metrics)
      ensures this.store == store && this.metrics == metrics
    {
      this.store, this.metrics := store, metrics;
    }

    /** One event served alone: table, counters and answer are those of the specification. */
    method Process(e: Event, id: nat, read: string -> Option<Instant>, fault: Fault) returns (result: Result)
      requires ValidTimes(e) && OnePending(store.rows) && id !in store.rows && ReadsValid(read)
      modifies store, metrics
      ensures var served := ServeReading(old(store.rows), e, id, fault, old(Reading(store.rows, KeyOf(e), read)));
        store.rows == served.rows && result == served.result
        && metrics.counters == old(metrics.counters) + One(served.tally)
      ensures var reading := old(Reading(store.rows, KeyOf(e), read));
        && EventEffect(old(store.rows), store.rows, e, id, fault, reading.Some?)
        && EventAnswer(old(store.rows), e, fault, reading, ServeReading(old(store.rows), e, id, fault, reading))
    {
      assert metrics.counters + multiset{} == metrics.counters;
      ServedByFields(store.rows, e, id, fault, Reading(store.rows, KeyOf(e), read));
      PlanTimes(e);
      var plan := Decide(e);
      match plan
      case Ignore => result := Ignored;
      case EnqueueAt(at) => result := store.Enqueue(KeyOf(e), at, id, fault);
      case CompleteAt(how, at) => result := CompleteAttempt(KeyOf(e), e.name, how, at, read, fault);
    }

    /** What is to be done about an event. */
    static method Decide(e: Event) returns (plan: Plan)
      ensures plan == PlanOf(e)
    {
      if !e.pullRequest { return Ignore; }
      if e.number <= 0 { return Ignore; }
      var transition := Transition(e);
      if transition.None? { return Ignore; }
      var time := if e.updatedAt.Some? then e.updatedAt else e.receivedAt;
      if time.None? { return Ignore; }
      return match transition.value case None => EnqueueAt(time.value) case Some(how) => CompleteAt(how, time.value);
    }

    method CompleteAttempt(k: Key, name: string, how: Completion, at: Instant, read: string -> Option<Instant>,
        fault: Fault)
      returns (result: Result)
      requires Valid(at) && OnePending(store.rows) && ReadsValid(read)
      modifies store, metrics
      ensures var carried := CompleteReading(old(store.rows), k, name, how, at, old(Reading(store.rows, k, read)));
        var served := Faulted(old(store.rows), carried, fault);
        store.rows == served.rows && result == served.result
        && metrics.counters == old(metrics.counters) + One(served.tally)
    {
      assert metrics.counters + multiset{} == metrics.counters;
      result := store.Complete(k, name, how, at, read, fault);
      match result
      case Completed(enqueuedAt) => metrics.RecordMergeQueueCompletion(name, how, DurationSince(at, enqueuedAt));
      case Missing => metrics.RecordMergeQueueTransitionFailure(name, MissingActiveAttempt);
      case _ =>
    }
  }

  /** On a table that these methods alone have written, any reader serves as the specification says. */
  lemma ProcessServes(rows: Attempts, e: Event, id: nat, read: string -> Option<Instant>, fault: Fault)
    requires WellFormed(rows) && ValidTimes(e) && ReadsCanonical(read)
    ensures ServeReading(rows, e, id, fault, Reading(rows, KeyOf(e), read)) == Serve(rows, e, id, fault)
  {
    ReaderDoesNotMatter(rows, KeyOf(e), read);
  }

  /** Serving one event alone is a run: the request, then the counter it owes. */
  lemma ProcessIsARun(w: World, e: Event, id: nat, fault: Fault)
    requires Enabled(w, Request(e, id, fault))
    ensures var served := Serve(w.rows, e, id, fault);
      var steps := [Request(e, id, fault)] + if served.tally.Some? then [Count(served.tally.value)] else [];
      && Runs(w, steps)
      && After(w, steps).rows == served.rows && After(w, steps).owing == w.owing
      && After(w, steps).counters == w.counters + One(served.tally)
  {
    var served, first := Serve(w.rows, e, id, fault), Request(e, id, fault);
    RequestNext(w, e, id, fault);
    OneStep(w, first);
    if served.tally.Some? {
      var t := served.tally.value;
      TwoSteps(w, first, Count(t));
      assert [first] + [Count(t)] == [first, Count(t)];
      assert (w.owing + multiset{t}) - multiset{t} == w.owing;
    } else {
      assert [first] + [] == [first];
    }
  }

  lemma RequestNext(w: World, e: Event, id: nat, fault: Fault)
    requires Enabled(w, Request(e, id, fault))
    ensures var v, served := Next(w, Request(e, id, fault)), Serve(w.rows, e, id, fault);
      v.rows == served.rows && v.counters == w.counters && v.owing == w.owing + One(served.tally)
  {
  }

  lemma OneStep(w: World, s: Step)
    requires Enabled(w, s)
    ensures Runs(w, [s]) && After(w, [s]) == Next(w, s)
  {
    assert [s][1..] == [];
  }

  lemma TwoSteps(w: World, s: Step, t: Step)
    requires Enabled(w, s) && Enabled(Next(w, s), t)
    ensures Runs(w, [s, t]) && After(w, [s, t]) == Next(Next(w, s), t)
  {
    OneStep(Next(w, s), t);
    assert [s, t][1..] == [t];
  }
}
