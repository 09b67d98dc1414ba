/** The cache table and the task that fills it from a bounded queue of requests. */
module RequiredCheckRefresher {
  import opened Text
  import opened QueueTimestamp
  import opened RequiredChecks
  import opened RequiredCheckCache

  const QUEUE_CAPACITY: nat := 64

  class RequiredCheckStore {
    var rows: Rows

    constructor ()
      ensures rows == map[]
    {
      rows := map[];
    }

    /** Inserts or replaces the row of one branch; the column's length check never refuses it. */
    method Upsert(k: Key, checks: seq<string>, written: Instant, fails: bool) returns (ok: bool)
      requires IsCheckSet(checks)
      modifies this
      ensures ok == !fails
      ensures rows == if fails then old(rows) else old(rows)[k := Stored(Upserted(checks, written))]
    {
      if fails { return false; }
      var names := Encode(checks);
      EncodedFits(checks);
      if |names| > COLUMN_LIMIT { return false; }
      rows := rows[k := Row(names, Format(written))];
      return true;
    }

    method GetFreshChecks(k: Key, cutoff: Instant) returns (checks: Option<seq<string>>)
      ensures checks == GetFresh(rows, k, Format(cutoff))
      ensures checks.Some? ==> IsCheckSet(checks.value)
    {
      if k !in rows || Before(rows[k].updatedAt, Format(cutoff)) { return None; }
      DecodeIsBounded(rows[k].checkNames);
      return Some(Decode(rows[k].checkNames));
    }
  }

  class Refresher {
    const store: RequiredCheckStore
    var requests: seq<Key>
    var listening: bool

    constructor (store: RequiredCheckStore)
      ensures this.store == store && requests == [] && listening
    {
      this.store, this.requests, listening := store, [], true;
    }

    /** Never waits: with a full queue the newest request is dropped, and so is every request once the
        task has ended. */
    method Request(k: Key) returns (accepted: bool)
      modifies this`requests
      ensures accepted == (listening && |old(requests)| < QUEUE_CAPACITY)
      ensures requests == if accepted then old(requests) + [k] else old(requests)
    {
      accepted := listening && |requests| < QUEUE_CAPACITY;
      if accepted { requests := requests + [k]; }
    }

    /** Serves one request; `called` tells whether the source was asked. */
    method RefreshOne(r: Refresh) returns (end: End, called: bool)
      requires r.fetched.Some? ==> IsCheckSet(r.fetched.value)
      modifies store
      ensures end == EndOf(old(store.rows), r) && store.rows == AfterRefresh(old(store.rows), r)
      ensures called <==> !r.fault.ReadFails? && !IsFresh(old(store.rows), r.key, Format(r.cutoff))
      ensures end.ReadFailed? <==> r.fault.ReadFails?
      ensures end.AlreadyFresh? <==> !called && !r.fault.ReadFails?
      ensures end.FetchFailed? <==> called && r.fetched.None?
      ensures end.WriteFailed? <==> called && r.fetched.Some? && r.fault.WriteFails?
      ensures !end.Refreshed? ==> store.rows == old(store.rows)
      ensures end.Refreshed? ==> r.key in store.rows && store.rows == old(store.rows)[r.key := store.rows[r.key]]
    {
      called := false;
      if r.fault.ReadFails? { return ReadFailed, called; }
      var cached := store.GetFreshChecks(r.key, r.cutoff);
      if cached.Some? { return AlreadyFresh, called; }
      called := true;
      if r.fetched.None? { return FetchFailed, called; }
      var ok := store.Upsert(r.key, r.fetched.value, r.written, r.fault.WriteFails?);
      return if ok then Refreshed else WriteFailed, called;
    }

    /** Serves the request that has waited longest, if one waits. */
    method TakeNext(meets: Key -> Refresh, ttl: nat, ghost was: Rows, ghost before: seq<Step>)
      returns (ghost served: seq<Step>)
      requires Meets(meets, ttl) && Plausibles(before, ttl) && Replays(was, before, store.rows)
      modifies this`requests, store
      ensures Keys(served) == Keys(before) + old(requests)[..Least(1, |old(requests)|)]
      ensures requests == old(requests)[Least(1, |old(requests)|)..]
      ensures Plausibles(served, ttl) && Replays(was, served, store.rows)
    {
      served := before;
      if requests == [] { return; }
      var r := meets(requests[0]);
      ghost var rows := store.rows;
      var end, called := RefreshOne(r);
      ExtendRun(was, before, Serve(r), rows);
      Serving(before, r);
      requests, served := requests[1..], before + [Serve(r)];
    }

    /** Serves requests in the order they were accepted, however arrivals and service interleave, until
        the shutdown is seen.  Nothing accepted is lost or overtaken: it has been served or still waits. */
    method Run(turns: seq<Turn>, ttl: nat) returns (ghost served: seq<Step>, ghost accepted: seq<Key>)
      requires listening && forall i :: 0 <= i < |turns| && turns[i].Take? ==> Meets(turns[i].meets, ttl)
      modifies this, store
      ensures old(requests) + accepted == Keys(served) + requests
      ensures Keys(served) == Drained(old(requests), turns)
      ensures listening <==> Shutdown !in turns
      ensures Shutdown !in turns && Roomy(old(requests), turns) ==> accepted == Arrivals(turns)
      ensures Plausibles(served, ttl) && Replays(old(store.rows), served, store.rows)
    {
      served, accepted := [], [];
      assert Keys([]) == [];
      var i := 0;
      while i < |turns|
        invariant i <= |turns| && listening && Shutdown !in turns[..i]
        invariant old(requests) + accepted == Keys(served) + requests
        invariant Handed(Keys(served), requests, old(requests), turns, i)
        invariant Roomy(old(requests), turns) ==> AllTaken(accepted, turns, i)
        invariant Plausibles(served, ttl) && Replays(old(store.rows), served, store.rows)
      {
        NextTurn(old(requests), accepted, Keys(served), requests, turns, i);
        NextHanded(Keys(served), requests, old(requests), turns, i);
        ghost var done, queue := Keys(served), requests;
        match turns[i] {
          case Shutdown =>
            listening := false;
            return;
          case Arrive(k) =>
            ghost var before := requests;
            var ok := Request(k);
            Accepting(old(requests), accepted, Keys(served), before, k);
            if ok { accepted := accepted + [k]; }
          case Take(meets) =>
            served := TakeNext(meets, ttl, old(store.rows), served);
            Taking(old(requests), accepted, done, queue);
        }
        i := i + 1;
      }
      assert turns[i..] == [] && turns[..i] == turns && accepted + [] == accepted;
    }
  }

  lemma Accepting(earlier: seq<Key>, accepted: seq<Key>, served: seq<Key>, queue: seq<Key>, k: Key)
    requires earlier + accepted == served + queue
    ensures earlier + (accepted + [k]) == served + (queue + [k])
  {
    assert earlier + (accepted + [k]) == (earlier + accepted) + [k];
  }

  /** There is room for everything that waits and will come. */
  predicate Roomy(earlier: seq<Key>, turns: seq<Turn>) { |earlier| + |Arrivals(turns)| <= QUEUE_CAPACITY }

  /** Everything that came before turn `i` has been accepted. */
  predicate AllTaken(accepted: seq<Key>, turns: seq<Turn>, i: nat)
    requires i <= |turns|
  {
    accepted + Arrivals(turns[i..]) == Arrivals(turns)
  }

  lemma NextTurn(earlier: seq<Key>, accepted: seq<Key>, served: seq<Key>, queue: seq<Key>, turns: seq<Turn>, i: nat)
    requires i < |turns| && earlier + accepted == served + queue
    ensures turns[..i + 1] == turns[..i] + [turns[i]]
    ensures AllTaken(accepted, turns, i) ==>
              if turns[i].Arrive? then AllTaken(accepted + [turns[i].k], turns, i + 1)
                  && (Roomy(earlier, turns) ==> |queue| < QUEUE_CAPACITY)
              else AllTaken(accepted, turns, i + 1)
  {
    var rest := Arrivals(turns[i + 1..]);
    assert turns[i..][1..] == turns[i + 1..];
    assert |earlier + accepted| == |served + queue|;
    if turns[i].Arrive? {
      assert accepted + ([turns[i].k] + rest) == (accepted + [turns[i].k]) + rest;
    } else {
      assert [] + rest == rest;
    }
  }

  lemma Serving(served: seq<Step>, r: Refresh)
    ensures Keys(served + [Serve(r)]) == Keys(served) + [r.key]
  {
    assert (served + [Serve(r)])[..|served|] == served;
  }

  function Least(a: nat, b: nat): nat { if a < b then a else b }

  /** The requests that a bounded first-in-first-out queue hands out over these turns: one at every turn
      that finds one waiting, until the shutdown is seen. */
  function Drained(queue: seq<Key>, turns: seq<Turn>): seq<Key>
    decreases |turns|
  {
    if turns == [] then []
    else match turns[0]
      case Shutdown => []
      case Arrive(k) => Drained(if |queue| < QUEUE_CAPACITY then queue + [k] else queue, turns[1..])
      case Take(_) => if queue == [] then Drained([], turns[1..]) else [queue[0]] + Drained(queue[1..], turns[1..])
  }

  /** What has been handed out, and what still will be from turn `i` on, is what should be. */
  predicate Handed(done: seq<Key>, queue: seq<Key>, earlier: seq<Key>, turns: seq<Turn>, i: nat)
    requires i <= |turns|
  {
    done + Drained(queue, turns[i..]) == Drained(earlier, turns)
  }

  lemma NextHanded(done: seq<Key>, queue: seq<Key>, earlier: seq<Key>, turns: seq<Turn>, i: nat)
    requires i < |turns| && Handed(done, queue, earlier, turns, i)
    ensures match turns[i]
            case Shutdown => done == Drained(earlier, turns)
            case Arrive(k) =>
              Handed(done, if |queue| < QUEUE_CAPACITY then queue + [k] else queue, earlier, turns, i + 1)
            case Take(_) =>
              Handed(done + queue[..Least(1, |queue|)], queue[Least(1, |queue|)..], earlier, turns, i + 1)
  {
    assert turns[i..][0] == turns[i] && turns[i..][1..] == turns[i + 1..];
    if turns[i].Shutdown? { assert done + [] == done; }
    if turns[i].Take? {
      if queue == [] {
        assert done + queue[..0] == done && queue[0..] == [];
      } else {
        var rest := Drained(queue[1..], turns[i + 1..]);
        assert queue[..1] == [queue[0]];
        assert done + ([queue[0]] + rest) == (done + queue[..1]) + rest;
      }
    }
  }

  lemma Taking(earlier: seq<Key>, accepted: seq<Key>, done: seq<Key>, queue: seq<Key>)
    requires earlier + accepted == done + queue
    ensures earlier + accepted == (done + queue[..Least(1, |queue|)]) + queue[Least(1, |queue|)..]
  {
    assert queue == queue[..Least(1, |queue|)] + queue[Least(1, |queue|)..];
  }

  /** What the task meets in turn: a request arriving, its own readiness to take one together with what
      serving it would meet, or the shutdown. */
  datatype Turn = Arrive(k: Key) | Take(meets: Key -> Refresh) | Shutdown

  ghost predicate Meets(meets: Key -> Refresh, ttl: nat) { forall k :: meets(k).key == k && Plausible(meets(k), ttl) }

  function Arrivals(turns: seq<Turn>): seq<Key> {
    if turns == [] then [] else (if turns[0].Arrive? then [turns[0].k] else []) + Arrivals(turns[1..])
  }

  function KeyOf(s: Step): seq<Key> { if s.Serve? then [s.r.key] else [] }

  /** The branches served, in order. */
  function Keys(served: seq<Step>): seq<Key> {
    if served == [] then [] else Keys(served[..|served| - 1]) + KeyOf(served[|served| - 1])
  }

  /** `served`, wherever it starts with the table `was`, ends with the table `now`. */
  ghost predicate Replays(was: Rows, served: seq<Step>, now: Rows) {
    forall w: World :: w.rows == was ==> After(w, served).rows == now
  }

  lemma ExtendRun(was: Rows, steps: seq<Step>, s: Step, now: Rows)
    requires Replays(was, steps, now)
    ensures Replays(was, steps + [s], Next(Fresh(now), s).rows)
  {
    forall w: World | w.rows == was
      ensures After(w, steps + [s]).rows == Next(Fresh(now), s).rows
    {
      AfterAppend(w, steps, s);
    }
  }

  lemma {:induction false} AfterAppend(w: World, steps: seq<Step>, s: Step)
    ensures After(w, steps + [s]) == Next(After(w, steps), s)
    decreases |steps|
  {
    var all := steps + [s];
    if steps == [] {
      assert all == [s] && all[1..] == [];
      assert After(Next(w, s), all[1..]) == Next(w, s);
    } else {
      assert all[0] == steps[0] && all[1..] == steps[1..] + [s];
      AfterAppend(Next(w, steps[0]), steps[1..], s);
    }
  }
}
