/** Delivery claims: every interleaving of concurrent requests, redeliveries, crashes, failures and
    pruning over the table of processed deliveries. */
module Deliveries {
  import opened Text

  type Id = nat
  type Delivery = nat

  datatype Claim = Unclaimed | New | Duplicate | ClaimFailed(inserted: bool)

  datatype Answer = NoContent | BadRequest | ServiceUnavailable

  datatype End = Running | Answered(answer: Answer) | Crashed

  /** One authenticated request: what its claim was told, whether it has made its one call to
      `observe_event` or `record_duplicate`, and how it ended. */
  datatype Request = Request(delivery: Delivery, claim: Claim, counted: bool, end: End)

  /** `rows` holds the text of the receipt time of every claimed delivery; `events` and `duplicates` are the metric
      calls made and `pruned` the rows deleted, by delivery. */
  datatype State = State(rows: map<Delivery, string>, at: map<Id, Request>,
                         events: multiset<Delivery>, duplicates: multiset<Delivery>, pruned: multiset<Delivery>)

  datatype Fault = NoFault | FailsBefore | FailsAfterCommit

  datatype Step =
    | Arrive(r: Id, d: Delivery)
    | Malformed(r: Id)
    | ClaimIt(r: Id, now: string, fault: Fault)
    | CountIt(r: Id)
    | StoreFails(r: Id)
    | Finish(r: Id)
    | Crash
    | Prune(batch: set<Delivery>)

  const EMPTY: State := State(map[], map[], multiset{}, multiset{}, multiset{})

  predicate Active(s: State, r: Id) { r in s.at && s.at[r].end.Running? }

  predicate Enabled(s: State, e: Step) {
    match e
    case Arrive(r, _) => r !in s.at
    case Malformed(r) => Active(s, r) && s.at[r].claim.Unclaimed?
    case ClaimIt(r, _, _) => Active(s, r) && s.at[r].claim.Unclaimed?
    case CountIt(r) => Active(s, r) && !s.at[r].counted && (s.at[r].claim.New? || s.at[r].claim.Duplicate?)
    case StoreFails(r) => Active(s, r) && s.at[r].counted && s.at[r].claim.New?
    case Finish(r) => Active(s, r) && s.at[r].counted
    case Crash => true
    case Prune(batch) => batch <= s.rows.Keys
  }

  /** The insert that claims a delivery, unless it fails without effect. */
  function RowsAfterClaim(rows: map<Delivery, string>, d: Delivery, now: string, fault: Fault): map<Delivery, string> {
    if fault.FailsBefore? || d in rows then rows else rows[d := now]
  }

  function ClaimResult(rows: map<Delivery, string>, d: Delivery, fault: Fault): Claim {
    if fault.NoFault? then if d in rows then Duplicate else New
    else ClaimFailed(fault.FailsAfterCommit? && d !in rows)
  }

  function Stop(q: Request): Request { if q.end.Running? then q.(end := Crashed) else q }

  function Next(s: State, e: Step): State
    requires Enabled(s, e)
  {
    match e
    case Arrive(r, d) => s.(at := s.at[r := Request(d, Unclaimed, false, Running)])
    case Malformed(r) => s.(at := s.at[r := s.at[r].(end := Answered(BadRequest))])
    case ClaimIt(r, now, fault) =>
      var d := s.at[r].delivery;
      var claim := ClaimResult(s.rows, d, fault);
      s.(rows := RowsAfterClaim(s.rows, d, now, fault),
         at := s.at[r :=
             s.at[r].(claim := claim, end := if claim.ClaimFailed? then Answered(ServiceUnavailable) else Running)])
    case CountIt(r) =>
      var q := s.at[r];
      s.(at := s.at[r := q.(counted := true)],
         events := if q.claim.New? then s.events + multiset{q.delivery} else s.events,
         duplicates := if q.claim.Duplicate? then s.duplicates + multiset{q.delivery} else s.duplicates)
    case StoreFails(r) => s.(at := s.at[r := s.at[r].(end := Answered(ServiceUnavailable))])
    case Finish(r) => s.(at := s.at[r := s.at[r].(end := Answered(NoContent))])
    case Crash => s.(at := map r | r in s.at :: Stop(s.at[r]))
    case Prune(batch) => s.(rows := s.rows - batch, pruned := s.pruned + multiset(batch))
  }

  predicate Runs(s: State, es: seq<Step>)
    decreases |es|
  {
    es == [] || (Enabled(s, es[0]) && Runs(Next(s, es[0]), es[1..]))
  }

  function After(s: State, es: seq<Step>): State
    requires Runs(s, es)
    decreases |es|
  {
    if es == [] then s else After(Next(s, es[0]), es[1..])
  }

  // ---- the requests of one delivery ----

  datatype Role = Winner | UnseenWinner | Counted | CountedDuplicate

  predicate Plays(q: Request, d: Delivery, role: Role) {
    && q.delivery == d
    && match role
       case Winner => q.claim.New?
       case UnseenWinner => q.claim == ClaimFailed(true)
       case Counted => q.claim.New? && q.counted
       case CountedDuplicate => q.claim.Duplicate? && q.counted
  }

  function Cast(at: map<Id, Request>, d: Delivery, role: Role): set<Id> { set r | r in at && Plays(at[r], d, role) }

  predicate RequestFits(q: Request) {
    && (q.counted ==> q.claim.New? || q.claim.Duplicate?)
    && (q.end == Answered(NoContent) ==> q.counted)
    && (q.end == Answered(BadRequest) ==> q.claim.Unclaimed?)
    && (q.end == Answered(ServiceUnavailable) ==> q.claim.ClaimFailed? || (q.claim.New? && q.counted))
    && (q.claim.ClaimFailed? ==> q.end == Answered(ServiceUnavailable))
  }

  function Weight(b: bool): nat { if b then 1 else 0 }

  predicate Tally(s: State, d: Delivery) {
    && s.events[d] == |Cast(s.at, d, Counted)|
    && s.duplicates[d] == |Cast(s.at, d, CountedDuplicate)|
    && |Cast(s.at, d, Winner)| + |Cast(s.at, d, UnseenWinner)| == s.pruned[d] + Weight(d in s.rows)
  }

  ghost predicate Inv(s: State) { (forall r :: r in s.at ==> RequestFits(s.at[r])) && forall d :: Tally(s, d) }

  lemma Moved(at: map<Id, Request>, r: Id, q: Request, d: Delivery, role: Role)
    ensures |Cast(at[r := q], d, role)|
        == |Cast(at, d, role)| - Weight(r in at && Plays(at[r], d, role)) + Weight(Plays(q, d, role))
  {
    assert Cast(at[r := q], d, role) == Put(Cast(at, d, role), r, Plays(q, d, role));
    assert r in at && Plays(at[r], d, role) <==> r in Cast(at, d, role);
    PutCount(Cast(at, d, role), r, Plays(q, d, role));
  }

  function Put(s: set<Id>, r: Id, present: bool): set<Id> { if present then s + {r} else s - {r} }

  lemma PutCount(s: set<Id>, r: Id, present: bool)
    ensures |Put(s, r, present)| == |s| - Weight(r in s) + Weight(present)
  {
  }

  lemma MovedAll(at: map<Id, Request>, r: Id, q: Request, d: Delivery)
    ensures forall role ::
      |Cast(at[r := q], d, role)|
          == |Cast(at, d, role)| - Weight(r in at && Plays(at[r], d, role)) + Weight(Plays(q, d, role))
  {
    forall role
      ensures |Cast(at[r := q], d, role)|
          == |Cast(at, d, role)| - Weight(r in at && Plays(at[r], d, role)) + Weight(Plays(q, d, role))
    {
      Moved(at, r, q, d, role);
    }
  }

  lemma CrashKeepsCast(at: map<Id, Request>, d: Delivery, role: Role)
    ensures Cast(map r | r in at :: Stop(at[r]), d, role) == Cast(at, d, role)
  {
  }

  lemma ClaimKeepsTally(s: State, e: Step, d: Delivery)
    requires Tally(s, d) && Enabled(s, e) && e.ClaimIt? && RequestFits(s.at[e.r])
    ensures Tally(Next(s, e), d)
  {
    MovedAll(s.at, e.r, Next(s, e).at[e.r], d);
  }

  lemma CountKeepsTally(s: State, e: Step, d: Delivery)
    requires Tally(s, d) && Enabled(s, e) && e.CountIt?
    ensures Tally(Next(s, e), d)
  {
    MovedAll(s.at, e.r, Next(s, e).at[e.r], d);
  }

  lemma EndKeepsTally(s: State, e: Step, d: Delivery)
    requires Tally(s, d) && Enabled(s, e) && (e.Malformed? || e.StoreFails? || e.Finish?)
    ensures Tally(Next(s, e), d)
  {
    MovedAll(s.at, e.r, Next(s, e).at[e.r], d);
  }

  lemma StepKeepsTally(s: State, e: Step, d: Delivery)
    requires Inv(s) && Enabled(s, e)
    ensures Tally(Next(s, e), d)
  {
    assert Tally(s, d);
    match e
    case Crash =>
      forall role
        ensures Cast(Next(s, e).at, d, role) == Cast(s.at, d, role)
      {
        CrashKeepsCast(s.at, d, role);
      }
    case Prune(batch) =>
    case Arrive(r, x) => MovedAll(s.at, r, Request(x, Unclaimed, false, Running), d);
    case ClaimIt(_, _, _) => ClaimKeepsTally(s, e, d);
    case CountIt(_) => CountKeepsTally(s, e, d);
    case _ => EndKeepsTally(s, e, d);
  }

  lemma StepKeepsInv(s: State, e: Step)
    requires Inv(s) && Enabled(s, e)
    ensures Inv(Next(s, e))
  {
    forall d
      ensures Tally(Next(s, e), d)
    {
      StepKeepsTally(s, e, d);
    }
    forall r | r in Next(s, e).at
      ensures RequestFits(Next(s, e).at[r])
    {
      if r in s.at { assert RequestFits(s.at[r]); }
    }
  }

  lemma {:induction false} RunKeepsInv(s: State, es: seq<Step>)
    requires Inv(s) && Runs(s, es)
    ensures Inv(After(s, es))
    decreases |es|
  {
    if es == [] {
    } else {
      StepKeepsInv(s, es[0]);
      RunKeepsInv(Next(s, es[0]), es[1..]);
    }
  }

  // ---- at most once ----

  /** A delivery is observed at most once for each life of its row, whatever is redelivered, interleaved,
      crashed, failed or pruned; and the exact number, with every shortfall accounted for. */
  lemma AtMostOncePerClaim(es: seq<Step>, d: Delivery)
    requires Runs(EMPTY, es)
    ensures var s := After(EMPTY, es);
      && s.events[d] <= s.pruned[d] + Weight(d in s.rows) <= s.pruned[d] + 1
      && s.events[d] + |Cast(s.at, d, Winner) - Cast(s.at, d, Counted)| + |Cast(s.at, d, UnseenWinner)|
         == s.pruned[d] + Weight(d in s.rows)
  {
    RunKeepsInv(EMPTY, es);
    var s := After(EMPTY, es);
    assert Tally(s, d);
    var won, seen := Cast(s.at, d, Winner), Cast(s.at, d, Counted);
    assert seen <= won;
    assert won == seen + (won - seen);
  }

  /** A request whose claim went through was told New or Duplicate and answers only after the one
      matching metric call; the calls add up to those requests. */
  lemma EveryClaimIsCounted(es: seq<Step>, d: Delivery)
    requires Runs(EMPTY, es)
    ensures var s := After(EMPTY, es);
      && (forall r :: r in s.at && s.at[r].end == Answered(NoContent) ==>
         s.at[r].counted && (s.at[r].claim.New? || s.at[r].claim.Duplicate?))
      && s.events[d] + s.duplicates[d] == |Cast(s.at, d, Counted) + Cast(s.at, d, CountedDuplicate)|
      && ((forall r :: r in s.at ==> s.at[r].end.Answered?) ==> Cast(s.at, d, Winner) == Cast(s.at, d, Counted))
  {
    RunKeepsInv(EMPTY, es);
    var s := After(EMPTY, es);
    assert Tally(s, d);
    assert Cast(s.at, d, Counted) !! Cast(s.at, d, CountedDuplicate);
    if forall r :: r in s.at ==> s.at[r].end.Answered? {
      forall r | r in Cast(s.at, d, Winner)
        ensures r in Cast(s.at, d, Counted)
      {
        assert s.at[r].end.Answered?;
        AnsweredIsCounted(s.at[r]);
      }
    }
  }

  lemma AnsweredIsCounted(q: Request)
    requires RequestFits(q) && q.end.Answered? && q.claim.New?
    ensures q.counted
  {
    match q.end.answer
    case NoContent =>
    case BadRequest =>
    case ServiceUnavailable =>
  }

  /** Without crashes and hidden commits, and once everything is answered, each life of a row was
      observed exactly once. */
  lemma ExactlyOncePerClaim(es: seq<Step>, d: Delivery)
    requires Runs(EMPTY, es)
    requires forall r :: r in After(EMPTY, es).at ==>
        After(EMPTY, es).at[r].end.Answered? && After(EMPTY, es).at[r].claim != ClaimFailed(true)
    ensures After(EMPTY, es).events[d] == After(EMPTY, es).pruned[d] + Weight(d in After(EMPTY, es).rows)
  {
    var s := After(EMPTY, es);
    AtMostOncePerClaim(es, d);
    EveryClaimIsCounted(es, d);
    assert Cast(s.at, d, UnseenWinner) == {};
    assert Cast(s.at, d, Winner) - Cast(s.at, d, Counted) == {};
  }

  /** Until its row is pruned, every later claim of a delivery that goes through is a duplicate, and
      its receipt time never changes. */
  lemma {:induction false} DuplicateUntilPruned(s: State, es: seq<Step>, d: Delivery)
    requires Runs(s, es) && d in s.rows && After(s, es).pruned[d] == s.pruned[d]
    ensures d in After(s, es).rows && After(s, es).rows[d] == s.rows[d]
    ensures forall r, now ::
        Active(After(s, es), r) && After(s, es).at[r].delivery == d && After(s, es).at[r].claim.Unclaimed? ==>
              Next(After(s, es), ClaimIt(r, now, NoFault)).at[r].claim == Duplicate
    decreases |es|
  {
    if es == [] {
    } else {
      PrunedGrows(Next(s, es[0]), es[1..], d);
      RowStays(s, es[0], d);
      DuplicateUntilPruned(Next(s, es[0]), es[1..], d);
    }
  }

  lemma RowStays(s: State, e: Step, d: Delivery)
    requires Enabled(s, e) && d in s.rows
    ensures s.pruned[d] <= Next(s, e).pruned[d]
    ensures Next(s, e).pruned[d] == s.pruned[d] ==> d in Next(s, e).rows && Next(s, e).rows[d] == s.rows[d]
  {
  }

  lemma {:induction false} PrunedGrows(s: State, es: seq<Step>, d: Delivery)
    requires Runs(s, es)
    ensures s.pruned[d] <= After(s, es).pruned[d]
    decreases |es|
  {
    if es == [] {
    } else {
      PrunedGrows(Next(s, es[0]), es[1..], d);
    }
  }

  /** Nobody is left who has won `d` and not yet counted it. */
  predicate NoneToCount(s: State, d: Delivery) {
    forall r :: r in s.at && s.at[r].end.Running? && s.at[r].delivery == d && s.at[r].claim.New? ==> s.at[r].counted
  }

  lemma NoneToCountStep(s: State, e: Step, d: Delivery)
    requires Enabled(s, e) && d in s.rows && NoneToCount(s, d)
    ensures NoneToCount(Next(s, e), d) && Next(s, e).events[d] == s.events[d]
  {
  }

  /** As long as its row stays, a delivery nobody is left to count is never observed again, however
      often it is redelivered. */
  lemma {:induction false} NeverObservedAgain(s: State, es: seq<Step>, d: Delivery)
    requires Runs(s, es) && d in s.rows && NoneToCount(s, d) && After(s, es).pruned[d] == s.pruned[d]
    ensures After(s, es).events[d] == s.events[d]
    decreases |es|
  {
    if es == [] {
    } else {
      var v := Next(s, es[0]);
      PrunedGrows(v, es[1..], d);
      RowStays(s, es[0], d);
      NoneToCountStep(s, es[0], d);
      NeverObservedAgain(v, es[1..], d);
    }
  }

  /** What a claim followed by a crash leaves: the row, and a request that will never count it. */
  function CrashedState(d: Delivery, now: string): State {
    State(map[d := now], map[0 := Request(d, New, false, Crashed)], multiset{}, multiset{}, multiset{})
  }

  /** The bound is not an equality: after a crash between the claim and the metric call, no continuation
      that leaves the row in place ever observes the delivery, and every later claim of it that goes
      through is a duplicate. */
  lemma CrashUndercounts(d: Delivery, now: string, later: seq<Step>)
    requires Runs(CrashedState(d, now), later) && After(CrashedState(d, now), later).pruned[d] == 0
    ensures exists es :: Runs(EMPTY, es) && After(EMPTY, es) == CrashedState(d, now)
    ensures var f := After(CrashedState(d, now), later);
      && d in f.rows && f.rows[d] == now && f.events[d] == 0
      && forall r, t :: Active(f, r) && f.at[r].delivery == d && f.at[r].claim.Unclaimed? ==>
           Next(f, ClaimIt(r, t, NoFault)).at[r].claim == Duplicate
  {
    CrashedClaim(d, now);
    NeverObservedAgain(CrashedState(d, now), later, d);
    DuplicateUntilPruned(CrashedState(d, now), later, d);
  }

  lemma CrashedClaim(d: Delivery, now: string)
    ensures exists es :: Runs(EMPTY, es) && After(EMPTY, es) == CrashedState(d, now)
  {
    var es := [Arrive(0, d), ClaimIt(0, now, NoFault), Crash];
    var s1 := Next(EMPTY, es[0]);
    var s2 := Next(s1, es[1]);
    Unfold(s2, es[2..]);
    Unfold(s1, es[1..]);
    Unfold(EMPTY, es);
    assert es[2..][1..] == [];
    assert Next(s2, es[2]) == CrashedState(d, now);
  }

  // ---- every request can be answered ----

  /** How a request that is under way can go on if nothing disturbs it any more. */
  function Remaining(s: State, r: Id, malformed: bool): seq<Step>
    requires Active(s, r)
  {
    var q := s.at[r];
    if q.claim.Unclaimed? then if malformed then [Malformed(r)] else [ClaimIt(r, "", NoFault), CountIt(r), Finish(r)]
    else if q.counted then [Finish(r)] else [CountIt(r), Finish(r)]
  }

  /** No request is stuck: a malformed one is refused, leaving table and metrics alone; every other one can
      be accepted, whatever else is under way. */
  lemma EveryRequestCanBeAnswered(s: State, r: Id, malformed: bool)
    requires Inv(s) && Active(s, r)
    ensures Runs(s, Remaining(s, r, malformed))
    ensures var f := After(s, Remaining(s, r, malformed));
      if malformed && s.at[r].claim.Unclaimed?
      then f == s.(at := s.at[r := s.at[r].(end := Answered(BadRequest))])
      else r in f.at && f.at[r].end == Answered(NoContent) && f.at[r].counted
  {
    assert RequestFits(s.at[r]);
    var es := Remaining(s, r, malformed);
    var s1 := Next(s, es[0]);
    if |es| > 1 {
      var s2 := Next(s1, es[1]);
      if |es| > 2 {
        assert es[2..][1..] == [] && es[1..][1..] == es[2..];
        Unfold(s2, es[2..]);
      } else {
        assert es[1..][1..] == [];
      }
      Unfold(s1, es[1..]);
    }
    Unfold(s, es);
  }

  lemma Unfold(s: State, es: seq<Step>)
    requires es != [] && Enabled(s, es[0]) && Runs(Next(s, es[0]), es[1..])
    ensures Runs(s, es) && After(s, es) == After(Next(s, es[0]), es[1..])
  {
  }
}
