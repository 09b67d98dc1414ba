/** The claim table and the claim-then-process part of the webhook handler, one request at a time. */
module DeliveryStore {
  import opened Text
  import opened QueueTimestamp
  import opened TextBatches
  import opened Deliveries
  import R = Retention

  /** What decides when a claim may be deleted: the text of its receipt. */
  function ReceiptTexts(rows: map<Delivery, string>): Texts { map d | d in rows :: Some(rows[d]) }

  predicate Canonical(rows: map<Delivery, string>) { forall d :: d in rows ==> Stamp(rows[d]) }

  lemma CanonicalTexts(rows: map<Delivery, string>)
    requires Canonical(rows)
    ensures AllStamps(ReceiptTexts(rows))
  {
  }

  /** A claim is eligible exactly if it was received before the cutoff, to the millisecond; older ones
      go first, ties in the order of their identifiers. */
  lemma ReceiptDecides(rows: map<Delivery, string>, cutoff: Instant, i: Delivery)
    requires Canonical(rows) && QueueTimestamp.Valid(cutoff) && i in rows
    ensures i in ExpiredTexts(ReceiptTexts(rows), Format(cutoff)) <==> StampMillis(rows[i]) < Millis(cutoff)
    ensures forall j | j in rows ::
      OlderText(ReceiptTexts(rows), i, j)
      == (StampMillis(rows[i]) < StampMillis(rows[j]) || (rows[i] == rows[j] && i < j))
  {
    FormatIsStamp(cutoff);
    StampOrder(rows[i], Format(cutoff));
    forall j | j in rows
      ensures Before(rows[i], rows[j]) <==> StampMillis(rows[i]) < StampMillis(rows[j])
    {
      StampOrder(rows[i], rows[j]);
    }
  }

  lemma ClaimKeepsCanonical(rows: map<Delivery, string>, d: Delivery, now: Instant, fault: Fault)
    requires Canonical(rows) && Valid(now)
    ensures Canonical(RowsAfterClaim(rows, d, Format(now), fault))
  {
    FormatIsStamp(now);
  }

  lemma PruneKeepsCanonical(rows: map<Delivery, string>, batch: set<Delivery>)
    requires Canonical(rows)
    ensures Canonical(rows - batch)
  {
  }

  class DeliveryStore {
    var rows: map<Delivery, string>

    /** Only the database's own canonical timestamps are stored. */
    predicate Valid() reads this { Canonical(rows) }

    constructor ()
      ensures Valid() && rows == map[]
    {
      rows := map[];
    }

    /** `now` is the database's clock and `fault` what it does to the insert: an error can hide an insert
        that took effect. */
    method Claim(d: Delivery, now: Instant, fault: Fault) returns (claim: Claim)
      requires Valid() && QueueTimestamp.Valid(now)
      modifies this
      ensures Valid()
      ensures rows == RowsAfterClaim(old(rows), d, Format(now), fault) && claim == ClaimResult(old(rows), d, fault)
      ensures fault.NoFault? ==> claim == if d in old(rows) then Duplicate else New
      ensures !fault.NoFault? ==> claim == ClaimFailed(d in rows && d !in old(rows))
      ensures rows == if d in old(rows) || fault.FailsBefore? then old(rows) else old(rows)[d := Format(now)]
    {
      ClaimKeepsCanonical(rows, d, now, fault);
      if fault.FailsBefore? { return ClaimFailed(false); }
      var affected := 0;
      if d !in rows { rows, affected := rows[d := Format(now)], 1; }
      if fault.FailsAfterCommit? { return ClaimFailed(affected == 1); }
      return if affected == 1 then New else Duplicate;
    }

    /** Deletes the oldest claims received before `cutoff`, at most a batch, comparing texts. */
    method PruneBatch(cutoff: Instant, fails: bool) returns (deleted: Option<nat>, ghost batch: set<Delivery>)
      requires Valid() && QueueTimestamp.Valid(cutoff)
      modifies this
      ensures Valid()
      ensures fails ==> deleted.None? && batch == {}
      ensures !fails ==> deleted == Some(|batch|)
      ensures !fails ==> |batch| == R.Least(R.BATCH, |ExpiredTexts(ReceiptTexts(old(rows)), Format(cutoff))|)
      ensures OldestTexts(ReceiptTexts(old(rows)), batch, Format(cutoff)) && rows == old(rows) - batch
      ensures AllStamps(ReceiptTexts(old(rows))) && R.Leads(Timed(ReceiptTexts(old(rows))), batch, Millis(cutoff))
    {
      batch := {};
      CanonicalTexts(rows);
      TextBatchIsTimeBatch(ReceiptTexts(rows), batch, cutoff);
      assert rows - {} == rows;
      if fails { return None, batch; }
      var chosen := OldestBatch(ReceiptTexts(rows), cutoff);
      PruneKeepsCanonical(rows, chosen);
      rows := rows - chosen;
      return Some(|chosen|), chosen;
    }
  }

  class Metrics {
    var events: multiset<Delivery>
    var duplicates: multiset<Delivery>

    constructor ()
      ensures events == multiset{} && duplicates == multiset{}
    {
      events, duplicates := multiset{}, multiset{};
    }
  }

  /** What follows a valid signature and payload.  `storeFails` is a later storage failure while a new
      delivery is processed. */
  method Handle(store: DeliveryStore, metrics: Metrics, d: Delivery, now: Instant, fault: Fault, storeFails: bool)
    returns (answer: Answer)
    requires store.Valid() && QueueTimestamp.Valid(now)
    modifies store, metrics
    ensures store.Valid() && store.rows == RowsAfterClaim(old(store.rows), d, Format(now), fault)
    ensures metrics.events
        == old(metrics.events) + (if fault.NoFault? && d !in old(store.rows) then multiset{d} else multiset{})
    ensures metrics.duplicates
        == old(metrics.duplicates) + (if fault.NoFault? && d in old(store.rows) then multiset{d} else multiset{})
    ensures answer == if fault.NoFault? && (d in old(store.rows) || !storeFails) then NoContent else ServiceUnavailable
  {
    assert metrics.events + multiset{} == metrics.events && metrics.duplicates + multiset{} == metrics.duplicates;
    var claim := store.Claim(d, now, fault);
    match claim
    case Duplicate =>
      metrics.duplicates := metrics.duplicates + multiset{d};
      return NoContent;
    case New =>
      metrics.events := metrics.events + multiset{d};
      return if storeFails then ServiceUnavailable else NoContent;
    case _ =>
      return ServiceUnavailable;
  }

  /** The steps of one request that nothing interrupts. */
  function HandleSteps(s: State, r: Id, d: Delivery, now: string, fault: Fault, storeFails: bool): seq<Step> {
    [Arrive(r, d), ClaimIt(r, now, fault)]
    + if !fault.NoFault? then []
      else [CountIt(r), if d !in s.rows && storeFails then StoreFails(r) else Finish(r)]
  }

  lemma HandleIsARun(s: State, r: Id, d: Delivery, now: string, fault: Fault, storeFails: bool)
    requires r !in s.at
    ensures var steps := HandleSteps(s, r, d, now, fault, storeFails);
      && Runs(s, steps)
      && var f := After(s, steps);
         && f.rows == RowsAfterClaim(s.rows, d, now, fault) && f.pruned == s.pruned
         && f.events == s.events + (if fault.NoFault? && d !in s.rows then multiset{d} else multiset{})
         && f.duplicates == s.duplicates + (if fault.NoFault? && d in s.rows then multiset{d} else multiset{})
         && r in f.at && f.at[r].end
            == Answered(if fault.NoFault? && (d in s.rows || !storeFails) then NoContent else ServiceUnavailable)
  {
    var steps := HandleSteps(s, r, d, now, fault, storeFails);
    var s1 := Next(s, Arrive(r, d));
    var s2 := Next(s1, ClaimIt(r, now, fault));
    if fault.NoFault? {
      var s3 := Next(s2, CountIt(r));
      assert steps[3..][1..] == [] && steps[2..][1..] == steps[3..] && steps[1..][1..] == steps[2..];
      Unfold(s3, steps[3..]);
      Unfold(s2, steps[2..]);
      Unfold(s1, steps[1..]);
      Unfold(s, steps);
      assert After(s, steps) == Next(s3, steps[3]);
    } else {
      assert steps[1..][1..] == [];
      Unfold(s1, steps[1..]);
      Unfold(s, steps);
      assert After(s, steps) == s2;
    }
    assert s.events + multiset{} == s.events && s.duplicates + multiset{} == s.duplicates;
  }
}
