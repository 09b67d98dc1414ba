/** The table of merge-queue attempts: what enqueueing, completing and pruning do to its rows. */
module MergeQueueRows {
  import opened Text
  import opened QueueTimestamp
  import opened TextBatches

  datatype QueueOutcome = Pending | Succeeded | Failed | Cancelled | Unknown

  datatype QueueReason = NoReason | PullRequestMerged | UnclassifiedDequeue

  datatype Key = Key(repository: nat, number: int)

  datatype Attempt = Attempt(key: Key, enqueuedAt: string, completedAt: Option<string>, outcome: QueueOutcome,
      reason: QueueReason)

  type Attempts = map<nat, Attempt>

  /** The two terminal transitions the store accepts. */
  datatype Completion = Merged | Dequeued

  function OutcomeOf(how: Completion): QueueOutcome { if how.Merged? then Succeeded else Unknown }

  function ReasonOf(how: Completion): QueueReason { if how.Merged? then PullRequestMerged else UnclassifiedDequeue }

  predicate IsPending(a: Attempt) { a.completedAt.None? }

  function PendingIds(rows: Attempts): set<nat> { set i | i in rows && IsPending(rows[i]) }

  function ActiveIds(rows: Attempts, k: Key): set<nat> { set i | i in rows && IsPending(rows[i]) && rows[i].key == k }

  function PendingKeys(rows: Attempts): set<Key> { set i | i in PendingIds(rows) :: rows[i].key }

  predicate Known(rows: Attempts, k: Key) { exists i :: i in rows && rows[i].key == k }

  // ---- the three statements ----

  function Enqueued(rows: Attempts, k: Key, at: Instant, id: nat): Attempts {
    rows[id := Attempt(k, Format(at), None, Pending, NoReason)]
  }

  function Closed(a: Attempt, how: Completion, at: Instant): Attempt {
    a.(completedAt := Some(Format(at)), outcome := OutcomeOf(how), reason := ReasonOf(how))
  }

  function Finished(rows: Attempts, k: Key, how: Completion, at: Instant): Attempts {
    map i | i in rows :: if i in ActiveIds(rows, k) then Closed(rows[i], how, at) else rows[i]
  }

  /** What decides when an attempt may be deleted: the text of its completion. */
  function CompletionTexts(rows: Attempts): Texts { map i | i in rows :: rows[i].completedAt }

  // ---- the shape of the table ----

  predicate Shaped(a: Attempt) {
    && a.key.number > 0 && Stamp(a.enqueuedAt)
    && match a.completedAt
       case None => a.outcome == Pending && a.reason == NoReason
       case Some(t) => Stamp(t) && ((a.outcome == Succeeded && a.reason == PullRequestMerged)
                                    || (a.outcome == Unknown && a.reason == UnclassifiedDequeue))
  }

  predicate OnePending(rows: Attempts) {
    forall i, j :: i in PendingIds(rows) && j in PendingIds(rows) && rows[i].key == rows[j].key ==> i == j
  }

  predicate AllShaped(rows: Attempts) { forall i :: i in rows ==> Shaped(rows[i]) }

  predicate WellFormed(rows: Attempts) { OnePending(rows) && AllShaped(rows) }

  lemma EnqueueKeepsShape(rows: Attempts, k: Key, at: Instant, id: nat)
    requires WellFormed(rows) && Valid(at) && k.number > 0 && id !in rows && ActiveIds(rows, k) == {}
    ensures WellFormed(Enqueued(rows, k, at, id))
    ensures PendingKeys(Enqueued(rows, k, at, id)) == PendingKeys(rows) + {k} && k !in PendingKeys(rows)
  {
    FormatIsStamp(at);
    NotActive(rows, k);
    EnqueuedPending(rows, k, at, id);
  }

  lemma EnqueuedPending(rows: Attempts, k: Key, at: Instant, id: nat)
    requires id !in rows && Valid(at)
    ensures var rows' := Enqueued(rows, k, at, id);
      && PendingIds(rows') == PendingIds(rows) + {id}
      && PendingKeys(rows') == PendingKeys(rows) + {k}
  {
    var rows' := Enqueued(rows, k, at, id);
    assert PendingIds(rows') == PendingIds(rows) + {id};
    assert rows'[id].key == k;
    forall x
      ensures x in PendingKeys(rows') <==> x in PendingKeys(rows) + {k}
    {
      if x in PendingKeys(rows) {
        var i :| i in PendingIds(rows) && rows[i].key == x;
        assert i in PendingIds(rows') && rows'[i].key == x;
      }
    }
  }

  lemma NotActive(rows: Attempts, k: Key)
    ensures k in PendingKeys(rows) <==> ActiveIds(rows, k) != {}
  {
    if k in PendingKeys(rows) {
      var i :| i in PendingIds(rows) && rows[i].key == k;
      assert i in ActiveIds(rows, k);
    }
    if ActiveIds(rows, k) != {} {
      var i :| i in ActiveIds(rows, k);
      assert i in PendingIds(rows);
    }
  }

  lemma ClosedIsShaped(a: Attempt, how: Completion, at: Instant)
    requires Shaped(a) && Valid(at)
    ensures Shaped(Closed(a, how, at))
  {
    FormatIsStamp(at);
  }

  lemma FinishKeepsShape(rows: Attempts, k: Key, how: Completion, at: Instant)
    requires WellFormed(rows) && Valid(at)
    ensures WellFormed(Finished(rows, k, how, at))
    ensures PendingKeys(Finished(rows, k, how, at)) == PendingKeys(rows) - {k}
  {
    var rows' := Finished(rows, k, how, at);
    forall i | i in rows'
      ensures Shaped(rows'[i])
    {
      assert Shaped(rows[i]);
      ClosedIsShaped(rows[i], how, at);
    }
    assert PendingIds(rows') == PendingIds(rows) - ActiveIds(rows, k);
    forall x
      ensures x in PendingKeys(rows') <==> x in PendingKeys(rows) - {k}
    {
      if x in PendingKeys(rows) - {k} {
        var i :| i in PendingIds(rows) && rows[i].key == x;
        assert i in PendingIds(rows') && rows'[i].key == x;
      }
    }
  }

  lemma PruneKeepsShape(rows: Attempts, batch: set<nat>)
    requires WellFormed(rows) && batch !! PendingIds(rows)
    ensures WellFormed(rows - batch) && PendingIds(rows - batch) == PendingIds(rows)
    ensures PendingKeys(rows - batch) == PendingKeys(rows)
  {
    var rows' := rows - batch;
    assert PendingIds(rows') == PendingIds(rows);
    forall x
      ensures x in PendingKeys(rows') <==> x in PendingKeys(rows)
    {
      if x in PendingKeys(rows) {
        var i :| i in PendingIds(rows) && rows[i].key == x;
        assert i in PendingIds(rows') && rows'[i].key == x;
      }
    }
  }

  /** One row per pending pull request, so counting rows counts pull requests. */
  lemma {:induction false} PendingRowsAreKeys(rows: Attempts, ids: set<nat>)
    requires OnePending(rows) && ids <= PendingIds(rows)
    ensures |ids| == |set i | i in ids :: rows[i].key|
    decreases ids
  {
    if ids == {} {
    } else {
      var x :| x in ids;
      var rest := ids - {x};
      PendingRowsAreKeys(rows, rest);
      var ks := set i | i in rest :: rows[i].key;
      assert rows[x].key !in ks;
      assert (set i | i in ids :: rows[i].key) == ks + {rows[x].key};
    }
  }

  // ---- pruning ----

  /** Pending attempts have no completion text, so no batch of texts holds one. */
  lemma PruningSparesPending(rows: Attempts, batch: set<nat>, cutoff: string)
    requires AllShaped(rows) && batch <= ExpiredTexts(CompletionTexts(rows), cutoff)
    ensures AllStamps(CompletionTexts(rows)) && batch !! PendingIds(rows)
    ensures CompletionTexts(rows - batch) == CompletionTexts(rows) - batch
  {
    CompletionsAreStamps(rows);
    CompletionsWithout(rows, batch);
  }

  /** It is the completion that makes an attempt eligible and decides its turn: a completed attempt is
      expired exactly if it was completed before the cutoff, to the millisecond. */
  lemma CompletionDecides(rows: Attempts, cutoff: Instant, i: nat)
    requires AllShaped(rows) && Valid(cutoff) && i in rows
    ensures i in ExpiredTexts(CompletionTexts(rows), Format(cutoff))
        <==> rows[i].completedAt.Some? && StampMillis(rows[i].completedAt.value) < Millis(cutoff)
    ensures forall j | j in rows ::
      var both := rows[i].completedAt.Some? && rows[j].completedAt.Some?;
      OlderText(CompletionTexts(rows), i, j)
      == (both && (StampMillis(rows[i].completedAt.value) < StampMillis(rows[j].completedAt.value)
                   || (rows[i].completedAt == rows[j].completedAt && i < j)))
  {
    FormatIsStamp(cutoff);
    assert Shaped(rows[i]);
    if rows[i].completedAt.Some? { StampOrder(rows[i].completedAt.value, Format(cutoff)); }
    forall j | j in rows && rows[i].completedAt.Some? && rows[j].completedAt.Some?
      ensures Before(rows[i].completedAt.value, rows[j].completedAt.value)
          <==> StampMillis(rows[i].completedAt.value) < StampMillis(rows[j].completedAt.value)
    {
      assert Shaped(rows[j]);
      StampOrder(rows[i].completedAt.value, rows[j].completedAt.value);
    }
  }

  lemma CompletionsWithout(rows: Attempts, batch: set<nat>)
    ensures CompletionTexts(rows - batch) == CompletionTexts(rows) - batch
  {
  }

  lemma CompletionsAreStamps(rows: Attempts)
    requires AllShaped(rows)
    ensures AllStamps(CompletionTexts(rows))
  {
  }
}
