/** Pruning expired rows in bounded batches, one store after another. */
module Retention {
  import opened Sets
  import opened Text

  const BATCH: nat := 1000

  /** A store's rows by key: the millisecond that decides expiry, or `None` for a row that is never
      eligible, such as a pending attempt.  Keys break ties in their numeric order. */
  type Rows = map<nat, Option<nat>>

  function Expired(rows: Rows, cutoff: nat): set<nat> { set k | k in rows && rows[k].Some? && rows[k].value < cutoff }

  /** The order in which rows are deleted. */
  predicate Earlier(rows: Rows, j: nat, k: nat) {
    && j in rows && k in rows && rows[j].Some? && rows[k].Some?
    && (rows[j].value < rows[k].value || (rows[j].value == rows[k].value && j < k))
  }

  /** `batch` comes before all other expired rows. */
  predicate Leads(rows: Rows, batch: set<nat>, cutoff: nat) {
    && batch <= Expired(rows, cutoff)
    && (forall j, k :: j in batch && k in Expired(rows, cutoff) - batch ==> Earlier(rows, j, k))
  }

  function Least(a: nat, b: nat): nat { if a < b then a else b }

  // ---- the deletion order is total ----

  predicate IsFirst(rows: Rows, s: set<nat>, m: nat) {
    m in s && forall k :: k in s && k != m ==> Earlier(rows, m, k)
  }

  lemma {:induction false} FirstExists(rows: Rows, s: set<nat>) returns (m: nat)
    requires s != {} && forall k :: k in s ==> k in rows && rows[k].Some?
    ensures IsFirst(rows, s, m)
    decreases s
  {
    var x :| x in s;
    m := x;
    var rest := s - {x};
    if rest == {} {
      assert s == {x};
    } else {
      var r := FirstExists(rows, rest);
      assert Earlier(rows, r, x) || Earlier(rows, x, r);
      if Earlier(rows, r, x) { m := r; }
      forall k | k in s && k != m
        ensures Earlier(rows, m, k)
      {
        if k != x && k != r { assert Earlier(rows, r, k); }
      }
    }
  }

  lemma Ahead(rows: Rows, batch: set<nat>, cutoff: nat, j: nat, k: nat)
    requires Leads(rows, batch, cutoff) && j in batch && k in Expired(rows, cutoff) && k !in batch
    ensures Earlier(rows, j, k) && !Earlier(rows, k, j)
  {
    assert k in Expired(rows, cutoff) - batch;
  }

  /** There is only one batch of a given size that can be first. */
  lemma LeadingBatchIsUnique(rows: Rows, a: set<nat>, b: set<nat>, cutoff: nat)
    requires Leads(rows, a, cutoff) && Leads(rows, b, cutoff) && |a| == |b|
    ensures a == b
  {
    if a != b {
      if a <= b { PartIsSmaller(a, b); }
      if b <= a { PartIsSmaller(b, a); }
      var j :| j in a && j !in b;
      var k :| k in b && k !in a;
      Ahead(rows, a, cutoff, j, k);
      Ahead(rows, b, cutoff, k, j);
    }
  }

  /** There is one of every size that there are rows for. */
  lemma {:induction false} LeadingBatchExists(rows: Rows, cutoff: nat, n: nat) returns (batch: set<nat>)
    requires n <= |Expired(rows, cutoff)|
    ensures Leads(rows, batch, cutoff) && |batch| == n
  {
    batch := {};
    if n == 0 {
    } else {
      batch := LeadingBatchExists(rows, cutoff, n - 1);
      var rest := Expired(rows, cutoff) - batch;
      if rest == {} { Unfinished(batch, Expired(rows, cutoff)); }
      var m := FirstExists(rows, rest);
      batch := batch + {m};
    }
  }

  lemma Unfinished(batch: set<nat>, all: set<nat>)
    requires batch <= all && all - batch == {}
    ensures batch == all
  {
    assert all == batch + (all - batch);
  }

  // ---- batches add up ----

  lemma Removal(rows: Rows, gone: set<nat>, cutoff: nat)
    requires gone <= Expired(rows, cutoff)
    ensures Expired(rows - gone, cutoff) == Expired(rows, cutoff) - gone
    ensures rows.Keys - (rows - gone).Keys == gone
  {
    assert gone <= rows.Keys;
  }

  lemma NextBatch(rows: Rows, gone: set<nat>, batch: set<nat>, cutoff: nat)
    requires Leads(rows, gone, cutoff) && Leads(rows - gone, batch, cutoff)
    ensures Leads(rows, gone + batch, cutoff) && |gone + batch| == |gone| + |batch|
    ensures (rows - gone) - batch == rows - (gone + batch)
  {
    Removal(rows, gone, cutoff);
    var both, rest := gone + batch, Expired(rows, cutoff) - (gone + batch);
    assert gone !! batch;
    forall j, k | j in both && k in rest ensures Earlier(rows, j, k) {
      if j in batch {
        assert k in Expired(rows - gone, cutoff) - batch;
        assert Earlier(rows - gone, j, k);
      }
    }
    assert (rows - gone) - batch == rows - both;
  }

  lemma BatchShrinks(rows: Rows, gone: set<nat>, batch: set<nat>, cutoff: nat)
    requires gone + batch <= Expired(rows, cutoff) && gone !! batch
    ensures |Expired(rows - (gone + batch), cutoff)| == |Expired(rows - gone, cutoff)| - |batch|
  {
    Removal(rows, gone, cutoff);
    Removal(rows, gone + batch, cutoff);
    RemoveMore(Expired(rows, cutoff), gone, batch);
  }

  lemma RemoveMore(all: set<nat>, gone: set<nat>, batch: set<nat>)
    requires gone + batch <= all && gone !! batch
    ensures |all - (gone + batch)| == |all - gone| - |batch|
  {
    assert all - gone == (all - (gone + batch)) + batch;
  }

  /** What a store has lost: a prefix, in deletion order, of the rows that were expired; all of them
      once the pass completes, in one more batch than the full ones. */
  predicate PrunedTo(rows: Rows, rows': Rows, cutoff: nat, outcome: StoreOutcome, batches: nat, deleted: nat) {
    var gone := rows.Keys - rows'.Keys;
    && rows' == rows - gone && Leads(rows, gone, cutoff) && |gone| == deleted
    && (if outcome.Completed?
        then gone == Expired(rows, cutoff) && batches == |Expired(rows, cutoff)| / BATCH + 1
        else deleted == BATCH * batches)
  }

  /** Row by row: what is gone was older than the cutoff and older than every eligible row that is left;
      what is left is unchanged; and a completed pass has left nothing older than the cutoff. */
  lemma PrunedExactly(rows: Rows, now: Rows, cutoff: nat, outcome: StoreOutcome, batches: nat, deleted: nat)
    requires PrunedTo(rows, now, cutoff, outcome, batches, deleted)
    ensures forall k :: k in now ==> k in rows && now[k] == rows[k]
    ensures forall k :: k in rows && k !in now ==> rows[k].Some? && rows[k].value < cutoff
    ensures forall j, k :: j in rows && j !in now && k in now && now[k].Some? ==>
      rows[j].value < rows[k].value || (rows[j].value == rows[k].value && j < k)
    ensures outcome.Completed? ==> forall k :: k in now ==> now[k].None? || now[k].value >= cutoff
    ensures deleted == |rows.Keys - now.Keys|
    ensures if outcome.Completed? then BATCH * batches - BATCH <= deleted < BATCH * batches
            else deleted == BATCH * batches
  {
    var gone := rows.Keys - now.Keys;
    forall j, k | j in gone && k in now && now[k].Some?
      ensures rows[j].value < rows[k].value || (rows[j].value == rows[k].value && j < k)
    {
      if k in Expired(rows, cutoff) { Ahead(rows, gone, cutoff, j, k); }
    }
    assert outcome.Completed? ==> Expired(rows, cutoff) !! now.Keys;
  }

  /** One more batch: a full one leaves fewer expired rows, a short one leaves none. */
  lemma BatchStep(rows: Rows, now: Rows, batch: set<nat>, cutoff: nat, batches: nat, deleted: nat)
    requires PrunedTo(rows, now, cutoff, StoreOutcome.Cancelled, batches, deleted) && Leads(now, batch, cutoff)
    requires |batch| == Least(BATCH, |Expired(now, cutoff)|)
    ensures PrunedTo(rows, now - batch, cutoff,
        if |batch| < BATCH then Completed else StoreOutcome.Cancelled, batches + 1, deleted + |batch|)
    ensures |batch| == BATCH ==> |Expired(now - batch, cutoff)| < |Expired(now, cutoff)|
  {
    var gone := rows.Keys - now.Keys;
    NextBatch(rows, gone, batch, cutoff);
    Removal(rows, gone, cutoff);
    Removal(rows, gone + batch, cutoff);
    BatchShrinks(rows, gone, batch, cutoff);
    if |batch| < BATCH { NothingLeft(Expired(rows, cutoff), gone + batch); }
  }

  lemma NothingLeft(all: set<nat>, gone: set<nat>)
    requires gone <= all && |all - gone| == 0
    ensures all == gone
  {
    assert all == gone + (all - gone);
  }

  lemma NothingPruned(rows: Rows, cutoff: nat)
    ensures PrunedTo(rows, rows, cutoff, StoreOutcome.Cancelled, 0, 0)
  {
    assert rows.Keys - rows.Keys == {};
    assert rows - {} == rows;
  }

  datatype StoreOutcome = Completed | Cancelled | Failed

  class PrunableStore {
    var rows: Rows

    constructor (rows: Rows)
      ensures this.rows == rows
    {
      this.rows := rows;
    }

    /** The next row to go among `candidates`. */
    method First(candidates: set<nat>) returns (m: nat)
      requires candidates != {} && forall k :: k in candidates ==> k in rows && rows[k].Some?
      ensures IsFirst(rows, candidates, m)
    {
      ghost var least := FirstExists(rows, candidates);
      m :| m in candidates && IsFirst(rows, candidates, m);
    }

    /** Deletes the first rows in (time, key) order that are older than `cutoff`, at most a batch. */
    method PruneBatch(cutoff: nat, busy: bool) returns (deleted: Option<nat>, ghost batch: set<nat>)
      modifies this
      ensures busy ==> deleted.None? && rows == old(rows) && batch == {}
      ensures !busy ==> deleted == Some(|batch|) && |batch| == Least(BATCH, |Expired(old(rows), cutoff)|)
      ensures Leads(old(rows), batch, cutoff) && rows == old(rows) - batch
    {
      batch := {};
      if busy { return None, batch; }
      var chosen := {};
      var rest := Expired(rows, cutoff);
      while rest != {} && |chosen| < BATCH
        invariant rows == old(rows)
        invariant chosen + rest == Expired(rows, cutoff) && chosen !! rest && |chosen| <= BATCH
        invariant forall j, k :: j in chosen && k in rest ==> Earlier(rows, j, k)
        decreases rest
      {
        var m := First(rest);
        chosen, rest := chosen + {m}, rest - {m};
      }
      assert |Expired(rows, cutoff)| == |chosen| + |rest|;
      assert Expired(rows, cutoff) - chosen == rest;
      batch := chosen;
      rows := rows - chosen;
      return Some(|chosen|), batch;
    }

    /** One more batch of a store that has lost `deleted` rows in full `batches` so far. */
    method PruneNext(ghost was: Rows, cutoff: nat, busy: bool, ghost batches: nat, ghost deleted: nat)
      returns (count: Option<nat>)
      requires PrunedTo(was, rows, cutoff, StoreOutcome.Cancelled, batches, deleted)
      modifies this
      ensures busy <==> count.None?
      ensures busy ==> rows == old(rows)
      ensures !busy ==> count.value <= BATCH
      ensures !busy ==>
          PrunedTo(was, rows, cutoff, if count.value < BATCH then Completed else StoreOutcome.Cancelled,
              batches + 1, deleted + count.value)
      ensures !busy && count.value == BATCH ==> |Expired(rows, cutoff)| < |Expired(old(rows), cutoff)|
    {
      ghost var before := rows;
      ghost var batch;
      count, batch := PruneBatch(cutoff, busy);
      assert rows - {} == rows;
      if !busy { BatchStep(was, before, batch, cutoff, batches, deleted); }
    }

    /** Batches until one is not full. */
    method PruneStore(turn: Turn) returns (outcome: StoreOutcome, batches: nat, deleted: nat)
      modifies this
      ensures turn.cutoff.None? ==> outcome == Failed && rows == old(rows)
      ensures turn.cutoff.Some? ==> PrunedTo(old(rows), rows, turn.cutoff.value, outcome, batches, deleted)
      ensures turn.cutoff.Some? ==> outcome == ExpectedEnd(|Expired(old(rows), turn.cutoff.value)| / BATCH, turn)
    {
      batches, deleted := 0, 0;
      if turn.cutoff.None? { return Failed, batches, deleted; }
      var limit := turn.cutoff.value;
      NothingPruned(rows, limit);
      while true
        invariant PrunedTo(old(rows), rows, limit, StoreOutcome.Cancelled, batches, deleted)
        invariant NothingYet(batches, turn)
        decreases |Expired(rows, limit)|
      {
        StoppedAt(old(rows), rows, limit, batches, deleted, turn);
        if turn.shutdown == Some(batches) { return StoreOutcome.Cancelled, batches, deleted; }
        var count := PruneNext(old(rows), limit, turn.busy == Some(batches), batches, deleted);
        if count.None? { return Failed, batches, deleted; }
        batches, deleted := batches + 1, deleted + count.value;
        if count.value < BATCH {
          FinishedAt(old(rows), rows, limit, batches, deleted, turn);
          return Completed, batches, deleted;
        }
      }
    }

    method PruneOne(turn: Turn) returns (outcome: StoreOutcome, ghost done: Done)
      modifies this
      ensures Ended(done) && done.was == old(rows) && done.now == rows && done.turn == turn && done.end == outcome
    {
      var batches, deleted;
      outcome, batches, deleted := PruneStore(turn);
      done := Done(old(rows), rows, turn, outcome, batches, deleted);
    }
  }

  /** What a store's turn meets: its cutoff, the first check of the channel that sees the shutdown and
      the first batch that fails, if any do, and the check made once the store is done. */
  datatype Turn = Turn(cutoff: Option<nat>, shutdown: Option<nat>, busy: Option<nat>, shutdownAfter: bool)

  /** Which of them comes first, among the batches there are to do. */
  function ExpectedEnd(fullBatches: nat, turn: Turn): StoreOutcome {
    if turn.shutdown.Some? && turn.shutdown.value <= fullBatches
        && (turn.busy.None? || turn.shutdown.value <= turn.busy.value)
    then StoreOutcome.Cancelled
    else if turn.busy.Some? && turn.busy.value <= fullBatches then Failed
    else Completed
  }

  /** Of the shutdown and the first failing batch, the one that comes first decides, if it comes in time. */
  lemma EndsExactly(fullBatches: nat, turn: Turn)
    ensures var seen := turn.shutdown.Some? && turn.shutdown.value <= fullBatches;
      var failing := turn.busy.Some? && turn.busy.value <= fullBatches;
      && (ExpectedEnd(fullBatches, turn).Completed? <==> !seen && !failing)
      && (ExpectedEnd(fullBatches, turn).Failed? <==> failing && (!seen || turn.busy.value < turn.shutdown.value))
  {
  }

  /** Before batch number `batches`, neither the shutdown nor a failure has come. */
  predicate NothingYet(batches: nat, turn: Turn) {
    (turn.shutdown.Some? ==> batches <= turn.shutdown.value) && (turn.busy.Some? ==> batches <= turn.busy.value)
  }

  lemma StoppedAt(rows: Rows, now: Rows, cutoff: nat, batches: nat, deleted: nat, turn: Turn)
    requires PrunedTo(rows, now, cutoff, StoreOutcome.Cancelled, batches, deleted) && NothingYet(batches, turn)
    ensures var full := |Expired(rows, cutoff)| / BATCH;
      if turn.shutdown == Some(batches) then ExpectedEnd(full, turn) == StoreOutcome.Cancelled
      else turn.busy == Some(batches) ==> ExpectedEnd(full, turn) == Failed
  {
    PartOf(rows.Keys - now.Keys, Expired(rows, cutoff), batches);
  }

  lemma PartOf(gone: set<nat>, all: set<nat>, batches: nat)
    requires gone <= all && |gone| == BATCH * batches
    ensures batches <= |all| / BATCH
  {
    assert all == gone + (all - gone);
  }

  lemma FinishedAt(rows: Rows, now: Rows, cutoff: nat, batches: nat, deleted: nat, turn: Turn)
    requires PrunedTo(rows, now, cutoff, Completed, batches, deleted) && NothingYet(batches, turn)
    ensures ExpectedEnd(|Expired(rows, cutoff)| / BATCH, turn) == Completed
  {
  }

  /** One store's turn: its rows before and after it, what it met and how it ended. */
  datatype Done = Done(was: Rows, now: Rows, turn: Turn, end: StoreOutcome, batches: nat, deleted: nat)

  predicate Ended(d: Done) {
    if d.turn.cutoff.None? then d.now == d.was && d.end == Failed
    else
      && d.end == ExpectedEnd(|Expired(d.was, d.turn.cutoff.value)| / BATCH, d.turn)
      && PrunedTo(d.was, d.now, d.turn.cutoff.value, d.end, d.batches, d.deleted)
  }

  // ---- one pass over all stores ----

  datatype PassOutcome = Success | Cancelled | Failure

  function Combine(pass: PassOutcome, store: StoreOutcome): PassOutcome {
    match (pass, store)
    case (Failure, _) => Failure
    case (_, Failed) => Failure
    case (Cancelled, _) => PassOutcome.Cancelled
    case (Success, Cancelled) => PassOutcome.Cancelled
    case (Success, Completed) => Success
  }

  /** The worst of the outcomes, under Success < Cancelled < Failure. */
  function Worst(outcomes: seq<StoreOutcome>): PassOutcome {
    if Failed in outcomes then Failure
    else if StoreOutcome.Cancelled in outcomes then PassOutcome.Cancelled
    else Success
  }

  /** A failure outranks a cancellation, and both outrank success. */
  lemma WorstExactly(outcomes: seq<StoreOutcome>)
    ensures Worst(outcomes) == Failure <==> exists i :: 0 <= i < |outcomes| && outcomes[i] == Failed
    ensures Worst(outcomes) == Success <==> forall i :: 0 <= i < |outcomes| ==> outcomes[i] == Completed
  {
    if Failed in outcomes {
      var i :| 0 <= i < |outcomes| && outcomes[i] == Failed;
    }
  }

  lemma CombineIsWorst(outcomes: seq<StoreOutcome>, last: StoreOutcome)
    ensures Combine(Worst(outcomes), last) == Worst(outcomes + [last])
  {
    forall x: StoreOutcome
      ensures x in outcomes + [last] <==> x in outcomes || x == last
    {
    }
  }

  /** The order and the grouping of the stores do not matter to the outcome of the pass. */
  lemma WorstIsSymmetric(a: seq<StoreOutcome>, b: seq<StoreOutcome>)
    requires multiset(a) == multiset(b)
    ensures Worst(a) == Worst(b)
  {
    forall x: StoreOutcome
      ensures x in a <==> x in b
    {
      assert x in a <==> x in multiset(a);
      assert x in b <==> x in multiset(b);
    }
  }

  /** What ends a pass between stores. */
  predicate Stops(d: Done) { d.turn.shutdownAfter || d.end == StoreOutcome.Cancelled }

  function Ends(done: seq<Done>): seq<StoreOutcome> { seq(|done|, i requires 0 <= i < |done| => done[i].end) }

  /** The outcome of a pass over `count` stores of which some were started. */
  function PassOf(done: seq<Done>, count: nat): PassOutcome {
    Worst(if |done| < count then Ends(done) + [StoreOutcome.Cancelled] else Ends(done))
  }

  predicate AllEnded(done: seq<Done>, turns: seq<Turn>) {
    |done| <= |turns| && forall i :: 0 <= i < |done| ==> Ended(done[i]) && done[i].turn == turns[i]
  }

  lemma NextEnd(done: seq<Done>, d: Done)
    ensures Combine(Worst(Ends(done)), d.end) == Worst(Ends(done + [d]))
  {
    CombineIsWorst(Ends(done), d.end);
    assert Ends(done + [d]) == Ends(done) + [d.end];
  }

  lemma CutShort(done: seq<Done>, count: nat)
    requires |done| < count
    ensures Combine(Worst(Ends(done)), StoreOutcome.Cancelled) == PassOf(done, count)
  {
    CombineIsWorst(Ends(done), StoreOutcome.Cancelled);
  }

  /** Started up to the first store that stops the pass, or all of them. */
  predicate StartedUntilStop(done: seq<Done>, count: nat) {
    && |done| <= count
    && (forall i :: 0 <= i < |done| - 1 ==> !Stops(done[i]))
    && (|done| < count ==> |done| > 0 && Stops(done[|done| - 1]))
  }

  /** A pass that nothing has stopped so far. */
  predicate Underway(done: seq<Done>, turns: seq<Turn>, outcome: PassOutcome) {
    && AllEnded(done, turns) && outcome == Worst(Ends(done))
    && forall i :: 0 <= i < |done| && i < |turns| - 1 ==> !Stops(done[i])
  }

  /** A pass that is over. */
  predicate Passed(done: seq<Done>, turns: seq<Turn>, outcome: PassOutcome) {
    StartedUntilStop(done, |turns|) && AllEnded(done, turns) && outcome == PassOf(done, |turns|)
  }

  lemma Proceed(done: seq<Done>, turns: seq<Turn>, outcome: PassOutcome, d: Done)
    requires Underway(done, turns, outcome) && |done| < |turns| && Ended(d) && d.turn == turns[|done|]
    ensures if Stops(d) && |done| + 1 < |turns|
            then Passed(done + [d], turns, Combine(Combine(outcome, d.end), StoreOutcome.Cancelled))
            else Underway(done + [d], turns, Combine(outcome, d.end))
  {
    NextEnd(done, d);
    if |done| + 1 < |turns| { CutShort(done + [d], |turns|); }
  }

  predicate Distinct(stores: seq<PrunableStore>) {
    forall i, j :: 0 <= i < j < |stores| ==> stores[i] != stores[j]
  }

  function RowsOf(stores: seq<PrunableStore>): (all: seq<Rows>)
    reads stores
    ensures |all| == |stores| && forall i :: 0 <= i < |stores| ==> all[i] == stores[i].rows
  {
    if stores == [] then [] else RowsOf(stores[..|stores| - 1]) + [stores[|stores| - 1].rows]
  }

  /** Before and after each store's turn. */
  predicate Turned(done: seq<Done>, before: seq<Rows>, now: seq<Rows>) {
    && |done| <= |before| == |now|
    && (forall i :: 0 <= i < |done| ==> done[i].was == before[i] && done[i].now == now[i])
    && (forall i :: |done| <= i < |before| ==> now[i] == before[i])
  }

  lemma NextTurned(done: seq<Done>, before: seq<Rows>, now: seq<Rows>, d: Done)
    requires Turned(done, before, now) && |done| < |before| && d.was == now[|done|]
    ensures Turned(done + [d], before, now[|done| := d.now])
  {
  }

  method PruneAt(stores: seq<PrunableStore>, i: nat, turn: Turn) returns (outcome: StoreOutcome, ghost done: Done)
    requires Distinct(stores) && i < |stores|
    modifies stores[i]
    ensures Ended(done) && done.turn == turn && done.end == outcome && done.was == old(RowsOf(stores))[i]
    ensures RowsOf(stores) == old(RowsOf(stores))[i := done.now]
  {
    outcome, done := stores[i].PruneOne(turn);
  }

  /** What a finished pass says: every store had its turn up to the first after which the shutdown is
      seen or which was itself cancelled; and the outcome is a failure exactly if a store failed, and a
      success exactly if all stores completed. */
  lemma PassMeaning(done: seq<Done>, turns: seq<Turn>, outcome: PassOutcome)
    requires Passed(done, turns, outcome)
    ensures |done| <= |turns| && forall i :: 0 <= i < |done| ==> done[i].turn == turns[i]
    ensures forall i :: 0 <= i < |done| - 1 ==> !turns[i].shutdownAfter && !done[i].end.Cancelled?
    ensures |done| < |turns| ==>
      0 < |done| && (turns[|done| - 1].shutdownAfter || done[|done| - 1].end.Cancelled?)
    ensures outcome == Failure <==> exists i :: 0 <= i < |done| && done[i].end.Failed?
    ensures outcome == Success <==> |done| == |turns| && forall i :: 0 <= i < |done| ==> done[i].end.Completed?
  {
    forall i | 0 <= i < |done| - 1
      ensures !turns[i].shutdownAfter && !done[i].end.Cancelled?
    {
      assert !Stops(done[i]) && done[i].turn == turns[i];
    }
    var all := if |done| < |turns| then Ends(done) + [StoreOutcome.Cancelled] else Ends(done);
    WorstExactly(all);
    if i :| 0 <= i < |done| && done[i].end.Failed? { assert all[i] == Failed; }
    if i :| 0 <= i < |all| && all[i] == Failed { assert done[i].end.Failed?; }
    if |done| < |turns| { assert all[|done|] == StoreOutcome.Cancelled; }
    if outcome == Success {
      forall i | 0 <= i < |done|
        ensures done[i].end.Completed?
      {
        assert all[i] == Completed;
      }
    }
  }

  /** Prunes store after store. */
  method PruneRetentionWorkloads(stores: seq<PrunableStore>, turns: seq<Turn>)
    returns (outcome: PassOutcome, ghost done: seq<Done>)
    requires |stores| == |turns| && Distinct(stores)
    modifies stores
    ensures Passed(done, turns, outcome) && Turned(done, old(RowsOf(stores)), RowsOf(stores))
  {
    outcome, done := Success, [];
    var i := 0;
    while i < |stores|
      invariant i == |done| <= |stores| && Underway(done, turns, outcome)
      invariant Turned(done, old(RowsOf(stores)), RowsOf(stores))
    {
      var end;
      ghost var d;
      ghost var now := RowsOf(stores);
      end, d := PruneAt(stores, i, turns[i]);
      Proceed(done, turns, outcome, d);
      NextTurned(done, old(RowsOf(stores)), now, d);
      outcome, done := Combine(outcome, end), done + [d];
      if (turns[i].shutdownAfter || end == StoreOutcome.Cancelled) && i + 1 < |stores| {
        return Combine(outcome, StoreOutcome.Cancelled), done;
      }
      i := i + 1;
    }
  }

  /** Only a shutdown ends a pass early: failing stores alone never keep a later one from its turn, and
      the pass then fails exactly when one of them had no cutoff or failed within the batches it had. */
  lemma FailureNeverBlocks(done: seq<Done>, turns: seq<Turn>)
    requires StartedUntilStop(done, |turns|) && AllEnded(done, turns)
    requires forall i :: 0 <= i < |turns| ==> turns[i].shutdown.None? && !turns[i].shutdownAfter
    ensures |done| == |turns| && PassOf(done, |turns|) != PassOutcome.Cancelled
    ensures PassOf(done, |turns|) == Failure <==> exists i :: 0 <= i < |done| && Fails(done[i].was, done[i].turn)
  {
    forall i | 0 <= i < |done|
      ensures done[i].end != StoreOutcome.Cancelled && (done[i].end == Failed <==> Fails(done[i].was, done[i].turn))
    {
      assert Ended(done[i]) && done[i].turn == turns[i];
    }
    var ends := Ends(done);
    if i :| 0 <= i < |done| && Fails(done[i].was, done[i].turn) { assert ends[i] == Failed; }
  }

  predicate Fails(rows: Rows, turn: Turn) {
    turn.cutoff.None? || (turn.busy.Some? && turn.busy.value <= |Expired(rows, turn.cutoff.value)| / BATCH)
  }
}
