/** Pruning by timestamp text: what the databases order and compare are texts, what retention means is
    time. */
module TextBatches {
  import opened Text
  import opened QueueTimestamp
  import R = Retention

  /** The text that decides expiry, by key; `None` for a row that is never eligible. */
  type Texts = map<nat, Option<string>>

  /** A canonical timestamp. */
  predicate Stamp(s: string) { ParseCanonical(s).Some? }

  function StampMillis(s: string): nat
    requires Stamp(s)
  {
    Millis(ParseCanonical(s).value)
  }

  predicate AllStamps(texts: Texts) { forall i :: i in texts && texts[i].Some? ==> Stamp(texts[i].value) }

  function ExpiredTexts(texts: Texts, cutoff: string): set<nat> {
    set i | i in texts && texts[i].Some? && Before(texts[i].value, cutoff)
  }

  /** The order of the deletion: text, then key. */
  predicate OlderText(texts: Texts, i: nat, j: nat) {
    && i in texts && j in texts && texts[i].Some? && texts[j].Some?
    && (Before(texts[i].value, texts[j].value) || (texts[i] == texts[j] && i < j))
  }

  predicate OldestTexts(texts: Texts, batch: set<nat>, cutoff: string) {
    && batch <= ExpiredTexts(texts, cutoff)
    && forall i, j :: i in batch && j in ExpiredTexts(texts, cutoff) - batch ==> OlderText(texts, i, j)
  }

  function TimeOf(text: Option<string>): Option<nat>
    requires text.Some? ==> Stamp(text.value)
  {
    if text.None? then None else Some(StampMillis(text.value))
  }

  /** What retention sees. */
  function Timed(texts: Texts): R.Rows
    requires AllStamps(texts)
  {
    map i | i in texts :: TimeOf(texts[i])
  }

  lemma FormatIsStamp(t: Instant)
    requires Valid(t)
    ensures Stamp(Format(t)) && ParseCanonical(Format(t)) == Some(Truncate(t)) && StampMillis(Format(t)) == Millis(t)
  {
    ParseFormat(t);
    TruncationCost(t);
  }

  lemma StampOrder(s: string, t: string)
    requires Stamp(s) && Stamp(t)
    ensures Before(s, t) <==> StampMillis(s) < StampMillis(t)
    ensures s == t <==> StampMillis(s) == StampMillis(t)
  {
    FormatParse(s);
    FormatParse(t);
    TextOrderIsTimeOrder(ParseCanonical(s).value, ParseCanonical(t).value);
  }

  lemma OlderIsEarlier(texts: Texts, i: nat, j: nat)
    requires AllStamps(texts)
    ensures OlderText(texts, i, j) <==> R.Earlier(Timed(texts), i, j)
  {
    if i in texts && j in texts && texts[i].Some? && texts[j].Some? {
      StampOrder(texts[i].value, texts[j].value);
    }
  }

  lemma SameExpired(texts: Texts, cutoff: Instant)
    requires Valid(cutoff) && AllStamps(texts)
    ensures ExpiredTexts(texts, Format(cutoff)) == R.Expired(Timed(texts), Millis(cutoff))
  {
    FormatIsStamp(cutoff);
    forall i | i in texts && texts[i].Some?
      ensures i in ExpiredTexts(texts, Format(cutoff)) <==> i in R.Expired(Timed(texts), Millis(cutoff))
    {
      StampOrder(texts[i].value, Format(cutoff));
    }
  }

  /** The rows a text comparison picks are the ones retention picks by time, so the results about
      batched pruning hold of every table that stores canonical timestamps. */
  lemma TextBatchIsTimeBatch(texts: Texts, batch: set<nat>, cutoff: Instant)
    requires Valid(cutoff) && AllStamps(texts)
    ensures OldestTexts(texts, batch, Format(cutoff)) <==> R.Leads(Timed(texts), batch, Millis(cutoff))
  {
    SameExpired(texts, cutoff);
    forall i, j
      ensures OlderText(texts, i, j) <==> R.Earlier(Timed(texts), i, j)
    {
      OlderIsEarlier(texts, i, j);
    }
  }

  /** Deleting a batch of texts is deleting it from the table of times. */
  lemma TimedWithout(texts: Texts, batch: set<nat>)
    requires AllStamps(texts)
    ensures AllStamps(texts - batch) && Timed(texts - batch) == Timed(texts) - batch
  {
  }

  /** Chooses the oldest rows before `cutoff`, at most a batch, by comparing texts; to retention, what
      remains without them is its table without that batch. */
  method OldestBatch(texts: Texts, cutoff: Instant) returns (chosen: set<nat>)
    requires Valid(cutoff) && AllStamps(texts)
    ensures OldestTexts(texts, chosen, Format(cutoff)) && R.Leads(Timed(texts), chosen, Millis(cutoff))
    ensures |chosen| == R.Least(R.BATCH, |ExpiredTexts(texts, Format(cutoff))|) && chosen <= texts.Keys
    ensures AllStamps(texts - chosen) && Timed(texts - chosen) == Timed(texts) - chosen
  {
    var text := Format(cutoff);
    var n := R.Least(R.BATCH, |ExpiredTexts(texts, text)|);
    ghost var first := OldestExists(texts, cutoff, n);
    chosen :| chosen <= texts.Keys && OldestTexts(texts, chosen, text) && |chosen| == n;
    TextBatchIsTimeBatch(texts, chosen, cutoff);
    TimedWithout(texts, chosen);
  }

  /** There is always a batch of the size asked for. */
  lemma OldestExists(texts: Texts, cutoff: Instant, n: nat) returns (batch: set<nat>)
    requires Valid(cutoff) && AllStamps(texts) && n <= |ExpiredTexts(texts, Format(cutoff))|
    ensures OldestTexts(texts, batch, Format(cutoff)) && |batch| == n && batch <= texts.Keys
  {
    SameExpired(texts, cutoff);
    batch := R.LeadingBatchExists(Timed(texts), Millis(cutoff), n);
    TextBatchIsTimeBatch(texts, batch, cutoff);
  }
}
