/** The required-check cache and the refresher that fills it. */
module RequiredCheckCache {
  import opened Text
  import opened QueueTimestamp
  import opened RequiredChecks

  datatype Key = Key(repository: nat, branch: string)

  datatype Row = Row(checkNames: string, updatedAt: string)

  type Rows = map<Key, Row>

  datatype Upserted = Upserted(checks: seq<string>, at: Instant)

  function Stored(u: Upserted): Row { Row(Encode(u.checks), Format(u.at)) }

  predicate IsFresh(rows: Rows, k: Key, cutoff: string) { k in rows && !Before(rows[k].updatedAt, cutoff) }

  function GetFresh(rows: Rows, k: Key, cutoff: string): Option<seq<string>> {
    if IsFresh(rows, k, cutoff) then Some(Decode(rows[k].checkNames)) else None
  }

  // ---- one refresh ----

  datatype Fault = NoFault | ReadFails | WriteFails

  datatype End = AlreadyFresh | ReadFailed | FetchFailed | WriteFailed | Refreshed

  /** A refresh request served at `now`, whose time-to-live began at `cutoff`; `fetched` is what the
      source would answer and `written` the database's own time of the write. */
  datatype Refresh = Refresh(key: Key, now: Instant, cutoff: Instant, fetched: Option<seq<string>>, written: Instant,
      fault: Fault)

  function EndOf(rows: Rows, r: Refresh): End {
    if r.fault.ReadFails? then ReadFailed
    else if IsFresh(rows, r.key, Format(r.cutoff)) then AlreadyFresh
    else if r.fetched.None? then FetchFailed
    else if r.fault.WriteFails? then WriteFailed
    else Refreshed
  }

  function AfterRefresh(rows: Rows, r: Refresh): Rows {
    if EndOf(rows, r).Refreshed? then rows[r.key := Stored(Upserted(r.fetched.value, r.written))] else rows
  }

  predicate Plausible(r: Refresh, ttl: nat) {
    && Valid(r.now) && Valid(r.cutoff) && Valid(r.written) && Nanos(r.cutoff) == Nanos(r.now) - ttl
    && (r.fetched.Some? ==> IsCheckSet(r.fetched.value))
  }

  // ---- runs ----

  datatype Step = Serve(r: Refresh) | Prune(batch: set<Key>)

  /** `last` remembers the last successful upsert of every key, pruned or not; `asked` are all calls of
      the source, `calls` those that succeeded, `stored` and `lost` what became of their answers. */
  datatype World = World(
    rows: Rows, last: map<Key, Upserted>, asked: multiset<Key>, calls: multiset<Key>, stored: multiset<Key>,
    lost: multiset<Key>)

  function Fresh(rows: Rows): World { World(rows, map[], multiset{}, multiset{}, multiset{}, multiset{}) }

  const EMPTY: World := Fresh(map[])

  function One(b: bool, k: Key): multiset<Key> { if b then multiset{k} else multiset{} }

  function Next(w: World, s: Step): World {
    match s
    case Serve(r) =>
      var end := EndOf(w.rows, r);
      World(AfterRefresh(w.rows, r),
            if end.Refreshed? then w.last[r.key := Upserted(r.fetched.value, r.written)] else w.last,
            w.asked + One(end.Refreshed? || end.WriteFailed? || end.FetchFailed?, r.key),
            w.calls + One(end.Refreshed? || end.WriteFailed?, r.key),
            w.stored + One(end.Refreshed?, r.key),
            w.lost + One(end.WriteFailed?, r.key))
    case Prune(batch) => w.(rows := w.rows - batch)
  }

  predicate Plausibles(steps: seq<Step>, ttl: nat) {
    forall i :: 0 <= i < |steps| && steps[i].Serve? ==> Plausible(steps[i].r, ttl)
  }

  function After(w: World, steps: seq<Step>): World
    decreases |steps|
  {
    if steps == [] then w else After(Next(w, steps[0]), steps[1..])
  }

  predicate LastStored(w: World, k: Key) {
    k in w.rows ==> k in w.last && IsCheckSet(w.last[k].checks) && Valid(w.last[k].at) && w.rows[k] == Stored(w.last[k])
  }

  ghost predicate Inv(w: World) { w.calls == w.stored + w.lost && forall k :: LastStored(w, k) }

  lemma StepKeepsInv(w: World, s: Step, ttl: nat)
    requires Inv(w) && (s.Serve? ==> Plausible(s.r, ttl))
    ensures Inv(Next(w, s))
  {
    forall k
      ensures LastStored(Next(w, s), k)
    {
      assert LastStored(w, k);
      StepKeepsLast(w, s, ttl, k);
    }
    if s.Serve? {
      var end, k := EndOf(w.rows, s.r), s.r.key;
      assert One(end.Refreshed? || end.WriteFailed?, k) == One(end.Refreshed?, k) + One(end.WriteFailed?, k);
    }
  }

  lemma StepKeepsLast(w: World, s: Step, ttl: nat, k: Key)
    requires LastStored(w, k) && (s.Serve? ==> Plausible(s.r, ttl))
    ensures LastStored(Next(w, s), k)
  {
  }

  lemma {:induction false} RunKeepsInv(w: World, steps: seq<Step>, ttl: nat)
    requires Inv(w) && Plausibles(steps, ttl)
    ensures Inv(After(w, steps))
    decreases |steps|
  {
    if steps == [] {
    } else {
      StepKeepsInv(w, steps[0], ttl);
      RunKeepsInv(Next(w, steps[0]), steps[1..], ttl);
    }
  }

  /** Comparing millisecond texts: nothing within its time-to-live is refused, and nothing a full
      millisecond beyond it is accepted. */
  lemma FreshnessWindow(written: Instant, now: Instant, cutoff: Instant, ttl: nat)
    requires Valid(written) && Valid(now) && Valid(cutoff) && Nanos(cutoff) == Nanos(now) - ttl
    ensures !Before(Format(written), Format(cutoff)) <==> Millis(cutoff) <= Millis(written)
    ensures DurationSince(now, written) <= ttl ==> !Before(Format(written), Format(cutoff))
    ensures !Before(Format(written), Format(cutoff)) ==> DurationSince(now, written) < ttl + NANOS_PER_MILLI
  {
    TextOrderIsTimeOrder(written, cutoff);
    MillisOfNanos(written);
    MillisOfNanos(cutoff);
  }

  lemma MillisOfNanos(t: Instant)
    requires Valid(t)
    ensures Millis(t) * NANOS_PER_MILLI <= Nanos(t) < (Millis(t) + 1) * NANOS_PER_MILLI
  {
  }

  /** After any run, what a read yields is the last set written for that very branch, no older than
      the time-to-live up to a millisecond; and if that write is young enough and not pruned, the read
      yields it. */
  lemma ReadsAreLastWrites(steps: seq<Step>, k: Key, now: Instant, cutoff: Instant, ttl: nat)
    requires Plausibles(steps, ttl) && Valid(now) && Valid(cutoff) && Nanos(cutoff) == Nanos(now) - ttl
    ensures var w, got := After(EMPTY, steps), GetFresh(After(EMPTY, steps).rows, k, Format(cutoff));
      && (got.Some? ==> k in w.last && Valid(w.last[k].at) && got.value == w.last[k].checks
                        && DurationSince(now, w.last[k].at) < ttl + NANOS_PER_MILLI)
      && (k in w.rows ==> k in w.last && Valid(w.last[k].at))
      && (k in w.rows && DurationSince(now, w.last[k].at) <= ttl ==> got == Some(w.last[k].checks))
  {
    RunKeepsInv(EMPTY, steps, ttl);
    var w := After(EMPTY, steps);
    assert LastStored(w, k);
    if k in w.rows {
      DecodeEncode(w.last[k].checks);
      FreshnessWindow(w.last[k].at, now, cutoff, ttl);
    }
  }

  /** A pruned branch is read as unknown; no other branch notices. */
  lemma PruningForgets(w: World, batch: set<Key>, k: Key, cutoff: string)
    ensures GetFresh(Next(w, Prune(batch)).rows, k, cutoff) == if k in batch then None else GetFresh(w.rows, k, cutoff)
  {
  }

  // ---- bursts ----

  /** Every refresh of `k` is served within one time-to-live of `start`, no write is dated before it,
      and `k` is not pruned meanwhile. */
  predicate Burst(steps: seq<Step>, k: Key, start: nat, ttl: nat) {
    && Plausibles(steps, ttl)
    && forall i :: 0 <= i < |steps| ==>
         match steps[i]
         case Serve(r) => r.key == k ==> Nanos(r.now) <= start + ttl && start <= Nanos(r.written)
         case Prune(batch) => k !in batch
  }

  predicate WrittenSince(w: World, k: Key, start: nat) {
    k in w.rows && k in w.last && Valid(w.last[k].at) && w.rows[k] == Stored(w.last[k]) && start <= Nanos(w.last[k].at)
  }

  /** Nothing more is asked about a branch that has been written. */
  predicate SameLedgers(w: World, v: World, k: Key) {
    v.asked[k] == w.asked[k] && v.calls[k] == w.calls[k] && v.stored[k] == w.stored[k]
  }

  lemma StillFresh(w: World, r: Refresh, k: Key, start: nat, ttl: nat)
    requires Plausible(r, ttl) && Nanos(r.now) <= start + ttl && WrittenSince(w, k, start)
    ensures IsFresh(w.rows, k, Format(r.cutoff))
  {
    FreshnessWindow(w.last[k].at, r.now, r.cutoff, ttl);
  }

  predicate SameRecord(w: World, v: World, k: Key) {
    && (k in v.rows <==> k in w.rows) && (k in w.rows ==> v.rows[k] == w.rows[k])
    && (k in v.last <==> k in w.last) && (k in w.last ==> v.last[k] == w.last[k])
  }

  lemma QuietServe(w: World, r: Refresh, k: Key)
    requires r.key == k ==> r.fault.ReadFails? || IsFresh(w.rows, k, Format(r.cutoff))
    ensures SameRecord(w, Next(w, Serve(r)), k) && SameLedgers(w, Next(w, Serve(r)), k)
  {
  }

  lemma QuietStep(w: World, s: Step, k: Key, start: nat, ttl: nat)
    requires Burst([s], k, start, ttl) && WrittenSince(w, k, start)
    ensures WrittenSince(Next(w, s), k, start) && SameLedgers(w, Next(w, s), k)
  {
    assert [s][0] == s;
    match s
    case Serve(r) =>
      if r.key == k { StillFresh(w, r, k, start, ttl); }
      QuietServe(w, r, k);
    case Prune(_) =>
  }

  lemma {:induction false} BurstIsQuiet(w: World, steps: seq<Step>, k: Key, start: nat, ttl: nat)
    requires Burst(steps, k, start, ttl) && WrittenSince(w, k, start)
    ensures SameLedgers(w, After(w, steps), k)
    decreases |steps|
  {
    if steps == [] {
    } else {
      BurstHead(steps, k, start, ttl);
      QuietStep(w, steps[0], k, start, ttl);
      BurstIsQuiet(Next(w, steps[0]), steps[1..], k, start, ttl);
    }
  }

  lemma BurstHead(steps: seq<Step>, k: Key, start: nat, ttl: nat)
    requires Burst(steps, k, start, ttl) && steps != []
    ensures Burst([steps[0]], k, start, ttl) && Burst(steps[1..], k, start, ttl)
  {
  }

  /** The refreshes of `k` that get past the cache as it is in `rows`: it can be read and is not fresh. */
  predicate GetsPast(rows: Rows, s: Step, k: Key) {
    s.Serve? && s.r.key == k && !s.r.fault.ReadFails? && !IsFresh(rows, k, Format(s.r.cutoff))
  }

  function Attempts(rows: Rows, steps: seq<Step>, k: Key): seq<Refresh>
    decreases |steps|
  {
    if steps == [] then []
    else (if GetsPast(rows, steps[0], k) then [steps[0].r] else []) + Attempts(rows, steps[1..], k)
  }

  lemma AttemptsStep(rows: Rows, steps: seq<Step>, k: Key)
    requires steps != []
    ensures var rest := Attempts(rows, steps[1..], k);
      Attempts(rows, steps, k) == if GetsPast(rows, steps[0], k) then [steps[0].r] + rest else rest
  {
    assert [] + Attempts(rows, steps[1..], k) == Attempts(rows, steps[1..], k);
  }

  /** Answered and stored. */
  predicate Good(r: Refresh) { r.fetched.Some? && r.fault.NoFault? }

  /** How many of them come up to the first good one. */
  function UpToGood(attempts: seq<Refresh>): nat {
    if attempts == [] then 0 else if Good(attempts[0]) then 1 else 1 + UpToGood(attempts[1..])
  }

  function Answered(attempts: seq<Refresh>): seq<Refresh> {
    if attempts == [] then [] else (if attempts[0].fetched.Some? then [attempts[0]] else []) + Answered(attempts[1..])
  }

  lemma SameRow(rows: Rows, rows': Rows, steps: seq<Step>, k: Key)
    requires (k in rows' <==> k in rows) && (k in rows ==> rows'[k] == rows[k])
    ensures Attempts(rows', steps, k) == Attempts(rows, steps, k)
    decreases |steps|
  {
    if steps == [] {
    } else {
      SameRow(rows, rows', steps[1..], k);
    }
  }

  /** One step of a burst: it asks exactly if it gets past the cache, and writes exactly if it is good. */
  lemma BurstStep(w: World, s: Step, k: Key, start: nat, ttl: nat)
    requires Burst([s], k, start, ttl)
    ensures var v, past := Next(w, s), GetsPast(w.rows, s, k);
      && v.asked[k] == w.asked[k] + (if past then 1 else 0)
      && v.calls[k] == w.calls[k] + (if past && s.r.fetched.Some? then 1 else 0)
      && v.stored[k] == w.stored[k] + (if past && Good(s.r) then 1 else 0)
      && (past && Good(s.r) ==> WrittenSince(v, k, start))
      && (!(past && Good(s.r)) ==> (k in v.rows <==> k in w.rows) && (k in w.rows ==> v.rows[k] == w.rows[k]))
  {
    assert [s][0] == s;
  }

  predicate Counted(w: World, v: World, k: Key, attempts: seq<Refresh>) {
    && v.asked[k] == w.asked[k] + UpToGood(attempts)
    && v.calls[k] == w.calls[k] + UpToGood(Answered(attempts))
    && w.stored[k] <= v.stored[k] <= w.stored[k] + 1
  }

  /** Exactly how often a burst asks, and is answered, and stores, whatever the cache held before. */
  lemma {:induction false} BurstCounts(w: World, steps: seq<Step>, k: Key, start: nat, ttl: nat)
    requires Burst(steps, k, start, ttl)
    ensures Counted(w, After(w, steps), k, Attempts(w.rows, steps, k))
    decreases |steps|
  {
    if steps == [] {
    } else {
      var s, v, rest := steps[0], Next(w, steps[0]), Attempts(w.rows, steps[1..], k);
      BurstHead(steps, k, start, ttl);
      BurstStep(w, s, k, start, ttl);
      AttemptsStep(w.rows, steps, k);
      if GetsPast(w.rows, s, k) && Good(s.r) {
        BurstIsQuiet(v, steps[1..], k, start, ttl);
        FirstGood(s.r, rest);
      } else {
        SameRow(w.rows, v.rows, steps[1..], k);
        BurstCounts(v, steps[1..], k, start, ttl);
        FirstBadCounted(w, v, After(v, steps[1..]), s, k, rest);
      }
    }
  }

  lemma FirstBadCounted(w: World, v: World, f: World, s: Step, k: Key, rest: seq<Refresh>)
    requires Counted(v, f, k, rest) && !(GetsPast(w.rows, s, k) && Good(s.r))
    requires v.asked[k] == w.asked[k] + (if GetsPast(w.rows, s, k) then 1 else 0)
    requires v.calls[k] == w.calls[k] + (if GetsPast(w.rows, s, k) && s.r.fetched.Some? then 1 else 0)
    requires v.stored[k] == w.stored[k]
    ensures Counted(w, f, k, if GetsPast(w.rows, s, k) then [s.r] + rest else rest)
  {
    if GetsPast(w.rows, s, k) { FirstBad(s.r, rest); }
  }

  lemma FirstGood(r: Refresh, rest: seq<Refresh>)
    requires Good(r)
    ensures UpToGood([r] + rest) == 1 && UpToGood(Answered([r] + rest)) == 1
  {
    assert ([r] + rest)[1..] == rest;
  }

  lemma FirstBad(r: Refresh, rest: seq<Refresh>)
    requires !Good(r)
    ensures UpToGood([r] + rest) == 1 + UpToGood(rest)
    ensures UpToGood(Answered([r] + rest)) == (if r.fetched.Some? then 1 else 0) + UpToGood(Answered(rest))
  {
    assert ([r] + rest)[1..] == rest;
    if r.fetched.Some? {
      assert ([r] + Answered(rest))[1..] == Answered(rest);
    } else {
      assert [] + Answered(rest) == Answered(rest);
    }
  }

  lemma AtMostOne(attempts: seq<Refresh>)
    ensures UpToGood(attempts) <= 1 <==> |attempts| <= 1 || Good(attempts[0])
  {
  }

  /** However many refreshes of one branch are served within one time-to-live: the source is asked at
      most once exactly if at most one of them gets past the cache, or the first that does is answered
      and stored; it answers at most once exactly if at most one of those would be answered, or the
      first such answer is stored; and at most one answer is stored in any case. */
  lemma BurstCostsOneCall(w: World, steps: seq<Step>, k: Key, start: nat, ttl: nat)
    requires Burst(steps, k, start, ttl)
    ensures var v, attempts := After(w, steps), Attempts(w.rows, steps, k);
      var answered := Answered(attempts);
      && (v.asked[k] <= w.asked[k] + 1 <==> |attempts| <= 1 || Good(attempts[0]))
      && (v.calls[k] <= w.calls[k] + 1 <==> |answered| <= 1 || Good(answered[0]))
      && v.stored[k] <= w.stored[k] + 1
  {
    BurstCounts(w, steps, k, start, ttl);
    AtMostOne(Attempts(w.rows, steps, k));
    AtMostOne(Answered(Attempts(w.rows, steps, k)));
  }

  /** The bound does fail: a refresh that is not answered, or whose answer cannot be stored, is asked
      for again by the next. */
  lemma LostAnswerIsAskedAgain(r: Refresh, ttl: nat)
    requires Plausible(r, ttl) && !Good(r) && !r.fault.ReadFails?
    ensures var v := After(EMPTY, [Serve(r), Serve(r)]);
      v.asked[r.key] == 2 && v.calls[r.key] == (if r.fetched.Some? then 2 else 0) && v.stored[r.key] == 0
  {
    var w := Next(EMPTY, Serve(r));
    assert [Serve(r), Serve(r)][1..] == [Serve(r)] && [Serve(r)][1..] == [];
    assert After(w, [Serve(r)]) == Next(w, Serve(r));
  }
}
