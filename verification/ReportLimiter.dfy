/** The lock-free limiter behind drop reports, as an interleaving of its atomic accesses.

    Any number of threads call `claim_report` with a clock reading of their own.  A win moves the
    deadline one interval past the winner's reading; everybody else is counted as suppressed, and
    the next winner collects that count.
 */
module ReportLimiter {
  import opened Sets

  type Id = nat

  const INTERVAL: nat := 60_000
  const U64: nat := 0x1_0000_0000_0000_0000
  const U64_MAX: nat := U64 - 1

  type Millis = n: nat | n <= U64_MAX

  datatype Stage =
    | Called(now: Millis)
      // `seen` is the deadline last loaded, `first` the first one loaded; `failures` counts the
      // attempts lost to another thread.
    | Holding(now: Millis, seen: Millis, first: Millis, failures: nat)
    | Won(now: Millis)           // CAS done, `suppressed` not collected yet
    | Suppressing(now: Millis)   // about to add one to `suppressed`
    | Reported(now: Millis, count: nat)
    | Silent(now: Millis)

  /** `wins`, `log`, `completed` and `wraps` are history: the winners' readings in CAS order, the
      counts already returned, the suppressions completed, and how often the counter wrapped. */
  datatype State = State(
    next: Millis,
    suppressed: nat,
    at: map<Id, Stage>,
    wins: seq<Millis>,
    log: seq<nat>,
    completed: nat,
    wraps: nat)

  datatype Event =
    | Call(t: Id, now: Millis)
    | Load(t: Id)
    | Attempt(t: Id, spurious: bool)
    | AddSuppressed(t: Id)
    | Collect(t: Id)

  function Deadline(now: Millis): Millis {
    if now + INTERVAL <= U64_MAX then now + INTERVAL else U64_MAX
  }

  predicate Initial(s: State) { s == State(0, 0, map[], [], [], 0, 0) }

  predicate Enabled(s: State, e: Event) {
    match e
    case Call(t, _) => t !in s.at
    case Load(t) => t in s.at && s.at[t].Called?
    case Attempt(t, _) => t in s.at && s.at[t].Holding?
    case AddSuppressed(t) => t in s.at && s.at[t].Suppressing?
    case Collect(t) => t in s.at && s.at[t].Won?
  }

  function Next(s: State, e: Event): State
    requires Enabled(s, e)
  {
    match e
    case Call(t, now) => s.(at := s.at[t := Called(now)])
    case Load(t) => s.(at := s.at[t := Holding(s.at[t].now, s.next, s.next, 0)])
    case Attempt(t, spurious) =>
      var Holding(now, seen, first, failures) := s.at[t];
      if now < seen then s.(at := s.at[t := Suppressing(now)])
      else if seen == s.next && !spurious
      then s.(next := Deadline(now), wins := s.wins + [now], at := s.at[t := Won(now)])
      else s.(at := s.at[t := Holding(now, s.next, first, if seen == s.next then failures else failures + 1)])
    case AddSuppressed(t) =>
      s.(suppressed := (s.suppressed + 1) % U64, completed := s.completed + 1,
         wraps := if s.suppressed + 1 == U64 then s.wraps + 1 else s.wraps,
         at := s.at[t := Silent(s.at[t].now)])
    case Collect(t) =>
      s.(suppressed := 0, log := s.log + [s.suppressed], at := s.at[t := Reported(s.at[t].now, s.suppressed)])
  }

  predicate Runs(s: State, es: seq<Event>)
    decreases |es|
  {
    es == [] || (Enabled(s, es[0]) && Runs(Next(s, es[0]), es[1..]))
  }

  function After(s: State, es: seq<Event>): State
    requires Runs(s, es)
    decreases |es|
  {
    if es == [] then s else After(Next(s, es[0]), es[1..])
  }

  function Sum(xs: seq<nat>): nat {
    if xs == [] then 0 else Sum(xs[..|xs| - 1]) + xs[|xs| - 1]
  }

  // ---- the inductive invariant ----

  /** What a thread may conclude from a deadline it loaded earlier. */
  predicate Behind(seen: Millis, next: Millis) { seen == next || Deadline(seen) <= next }

  predicate LoopBounded(now: Millis, seen: Millis, first: Millis, failures: nat) {
    && first <= seen
    && (seen == U64_MAX || INTERVAL * failures <= seen - first)
    && (failures > 0 ==> first <= now && INTERVAL * (failures - 1) <= now - first)
  }

  predicate StageFits(g: Stage, next: Millis) {
    g.Holding? ==> Behind(g.seen, next) && LoopBounded(g.now, g.seen, g.first, g.failures)
  }

  predicate Spaced(wins: seq<Millis>) {
    forall i, j :: 0 <= i < j < |wins| ==> Deadline(wins[i]) <= wins[j]
  }

  function Members(at: map<Id, Stage>, p: Stage -> bool): set<Id> { set t | t in at && p(at[t]) }

  predicate IsSilent(g: Stage) { g.Silent? }

  predicate IsWon(g: Stage) { g.Won? }

  predicate HasClaimed(g: Stage) { g.Won? || g.Reported? }

  /** Every win is one thread's, every suppression is one silent thread. */
  predicate Tallied(s: State) {
    && |s.wins| == |Members(s.at, HasClaimed)|
    && |s.wins| == |s.log| + |Members(s.at, IsWon)|
    && s.completed == |Members(s.at, IsSilent)|
  }

  predicate Inv(s: State) {
    && Tallied(s)
    && s.suppressed < U64
    && s.next == (if s.wins == [] then 0 else Deadline(s.wins[|s.wins| - 1]))
    && Spaced(s.wins)
    && (forall t :: t in s.at ==> StageFits(s.at[t], s.next))
    && Sum(s.log) + s.suppressed + U64 * s.wraps == s.completed
  }

  lemma Moved(at: map<Id, Stage>, t: Id, g: Stage, p: Stage -> bool)
    ensures |Members(at[t := g], p)|
         == |Members(at, p)| - (if t in at && p(at[t]) then 1 else 0) + (if p(g) then 1 else 0)
  {
    assert Members(at[t := g], p) == if p(g) then Members(at, p) + {t} else Members(at, p) - {t};
    assert t in at && p(at[t]) <==> t in Members(at, p);
  }

  lemma StepKeepsTally(s: State, e: Event)
    requires Inv(s) && Enabled(s, e)
    ensures Tallied(Next(s, e))
  {
    var g' := Next(s, e).at[e.t];
    Moved(s.at, e.t, g', HasClaimed);
    Moved(s.at, e.t, g', IsWon);
    Moved(s.at, e.t, g', IsSilent);
  }

  lemma StepKeepsSum(s: State, e: Event)
    requires Inv(s) && Enabled(s, e)
    ensures var s' := Next(s, e);
      s'.suppressed < U64 && Sum(s'.log) + s'.suppressed + U64 * s'.wraps == s'.completed
  {
    assert Next(s, e).log[..|s.log|] == s.log;
  }

  lemma ThreadFits(s: State, e: Event)
    requires Inv(s) && Enabled(s, e)
    ensures StageFits(Next(s, e).at[e.t], Next(s, e).next)
  {
    assert e.t in s.at ==> StageFits(s.at[e.t], s.next);
  }

  predicate Winning(s: State, e: Event)
    requires Enabled(s, e)
  {
    e.Attempt? && s.at[e.t].now >= s.at[e.t].seen && s.at[e.t].seen == s.next && !e.spurious
  }

  lemma StepKeepsInv(s: State, e: Event)
    requires Inv(s) && Enabled(s, e)
    ensures Inv(Next(s, e)) && s.next <= Next(s, e).next && s.wins <= Next(s, e).wins
  {
    StepKeepsTally(s, e);
    StepKeepsSum(s, e);
    ThreadFits(s, e);
    if Winning(s, e) { WinKeepsInv(s, s.at[e.t].now); }
  }

  lemma WinKeepsInv(s: State, now: Millis)
    requires Inv(s) && s.next <= now
    ensures Spaced(s.wins + [now]) && s.next <= Deadline(now)
    ensures forall t :: t in s.at ==> StageFits(s.at[t], Deadline(now))
  {
    forall t | t in s.at ensures StageFits(s.at[t], Deadline(now)) {
      assert StageFits(s.at[t], s.next);
    }
    SpacedAppend(s.wins, now);
  }

  lemma SpacedAppend(wins: seq<Millis>, now: Millis)
    requires Spaced(wins) && (wins != [] ==> Deadline(wins[|wins| - 1]) <= now)
    ensures Spaced(wins + [now])
  {
    var wins' := wins + [now];
    forall i, j | 0 <= i < j < |wins'| ensures Deadline(wins'[i]) <= wins'[j] {
      if j == |wins| && i < |wins| - 1 {
        assert Deadline(wins[i]) <= wins[|wins| - 1];
      }
    }
  }

  lemma {:induction false} RunKeepsInv(s: State, es: seq<Event>)
    requires Inv(s) && Runs(s, es)
    ensures Inv(After(s, es)) && s.next <= After(s, es).next && s.wins <= After(s, es).wins
    decreases |es|
  {
    if es == [] {
    } else {
      StepKeepsInv(s, es[0]);
      RunKeepsInv(Next(s, es[0]), es[1..]);
    }
  }

  // ---- what the invariant means ----

  /** Two reports are at least an interval apart precisely as long as the earlier reading is not
      within an interval of the end of the 64-bit clock. */
  lemma SpacingExactly(s: State, es: seq<Event>, i: nat, j: nat)
    requires Initial(s) && Runs(s, es) && i < j < |After(s, es).wins|
    ensures var w := After(s, es).wins;
      && w[i] <= w[j]
      && (j == i + 1 ==> (w[j] - w[i] >= INTERVAL <==> w[i] <= U64_MAX - INTERVAL))
      && (w[i] <= U64_MAX - INTERVAL ==> w[j] - w[i] >= INTERVAL)
  {
    RunKeepsInv(s, es);
  }

  /** The deadline only ever moves forward, between any two states of a run. */
  lemma DeadlineMonotone(s: State, before: seq<Event>, later: seq<Event>)
    requires Initial(s) && Runs(s, before) && Runs(After(s, before), later)
    ensures After(s, before).next <= After(After(s, before), later).next
  {
    RunKeepsInv(s, before);
    RunKeepsInv(After(s, before), later);
  }

  /** Winners' readings inside a window of `span` milliseconds. */
  function WinsWithin(wins: seq<Millis>, start: nat, span: nat): set<nat> {
    set i | 0 <= i < |wins| && start <= wins[i] <= start + span
  }

  lemma {:induction false} WinsSpread(wins: seq<Millis>, i: nat, j: nat)
    requires Spaced(wins) && i <= j < |wins| && wins[j] < U64_MAX
    ensures wins[i] + INTERVAL * (j - i) <= wins[j]
    decreases j - i
  {
    if i >= j {
    } else {
      assert Deadline(wins[j - 1]) <= wins[j];
      WinsSpread(wins, i, j - 1);
    }
  }

  function Interval(lo: nat, n: nat): (r: set<nat>)
    ensures forall i :: i in r <==> lo <= i < lo + n
    ensures |r| == n
  {
    if n == 0 then {} else Interval(lo, n - 1) + {lo + n - 1}
  }

  lemma {:induction false} LeastIndex(a: set<nat>) returns (m: nat)
    requires a != {}
    ensures m in a && forall i :: i in a ==> m <= i
    decreases a
  {
    var k :| k in a;
    m := k;
    if a == {k} {
    } else {
      var rest := LeastIndex(a - {k});
      m := if rest < k then rest else k;
      assert forall i :: i in a ==> i == k || i in a - {k};
    }
  }

  /** Any window of `span` milliseconds that ends before the clock saturates holds at most
      `span / INTERVAL + 1` reports, whatever the interleaving. */
  lemma ReportRate(s: State, es: seq<Event>, start: nat, span: nat)
    requires Initial(s) && Runs(s, es) && start + span < U64_MAX
    ensures |WinsWithin(After(s, es).wins, start, span)| <= span / INTERVAL + 1
  {
    RunKeepsInv(s, es);
    var wins := After(s, es).wins;
    var hits := WinsWithin(wins, start, span);
    if hits != {} {
      var lo := LeastIndex(hits);
      forall j | j in hits ensures j in Interval(lo, span / INTERVAL + 1) {
        WinsSpread(wins, lo, j);
      }
      PartIsSmaller(hits, Interval(lo, span / INTERVAL + 1));
    }
  }

  /** Nothing is lost between a winner's CAS and its swap: the suppressions completed so far are
      the counts already returned plus the counter, exactly while fewer than 2^64 have happened. */
  lemma SuppressionsConserved(s: State, es: seq<Event>)
    requires Initial(s) && Runs(s, es)
    ensures var f := After(s, es);
      && |Members(f.at, IsSilent)| % U64 == (Sum(f.log) + f.suppressed) % U64
      && (|Members(f.at, IsSilent)| < U64 ==> |Members(f.at, IsSilent)| == Sum(f.log) + f.suppressed)
  {
    RunKeepsInv(s, es);
    var f := After(s, es);
    assert f.completed == (Sum(f.log) + f.suppressed) + U64 * f.wraps;
    Multiples(Sum(f.log) + f.suppressed, f.wraps);
  }

  lemma {:induction false} Multiples(a: nat, k: nat)
    ensures (a + U64 * k) % U64 == a % U64
  {
    if k == 0 {
    } else {
      Multiples(a, k - 1);
      assert a + U64 * k == (a + U64 * (k - 1)) + U64;
    }
  }

  /** An attempt that fails because another thread won sees a strictly later deadline, by a whole
      interval unless the clock saturates. */
  lemma GenuineFailureRaises(s: State, es: seq<Event>, t: Id)
    requires Initial(s) && Runs(s, es) && Enabled(After(s, es), Attempt(t, false))
    requires var g := After(s, es).at[t]; g.now >= g.seen && g.seen != After(s, es).next
    ensures var g := After(s, es).at[t]; var g' := Next(After(s, es), Attempt(t, false)).at[t];
      g'.Holding? && g'.failures == g.failures + 1 && g'.seen >= Deadline(g.seen) && g'.seen > g.seen
  {
    RunKeepsInv(s, es);
    assert StageFits(After(s, es).at[t], After(s, es).next);
  }

  /** The loop cannot be starved: lost attempts are limited by how far the caller's clock is ahead
      of the first deadline it saw. */
  lemma LostAttemptsBounded(s: State, es: seq<Event>, t: Id)
    requires Initial(s) && Runs(s, es) && t in After(s, es).at && After(s, es).at[t].Holding?
    ensures var g := After(s, es).at[t];
      g.failures <= (if g.first <= g.now then g.now - g.first else 0) / INTERVAL + 1
  {
    RunKeepsInv(s, es);
    var g := After(s, es).at[t];
    assert StageFits(g, After(s, es).next);
  }

  // ---- runs of one call ----

  ghost predicate Reaches(s: State, f: State) { exists es :: Runs(s, es) && After(s, es) == f }

  lemma Here(s: State)
    ensures Reaches(s, s)
  {
    assert Runs(s, []);
  }

  lemma Step(s: State, e: Event, f: State)
    requires Enabled(s, e) && Reaches(Next(s, e), f)
    ensures Reaches(s, f)
  {
    var rest :| Runs(Next(s, e), rest) && After(Next(s, e), rest) == f;
    var es := [e] + rest;
    assert es[0] == e && es[1..] == rest;
    assert Runs(s, es) && After(s, es) == f;
  }

  /** What a call made alone leaves: past the deadline it wins, collects all suppressions and moves the
      deadline an interval past its reading; before it, it is counted and changes nothing else. */
  function AfterCall(s: State, t: Id, now: Millis): State {
    if s.next <= now then
      s.(next := Deadline(now), suppressed := 0, at := s.at[t := Reported(now, s.suppressed)], wins := s.wins + [now],
         log := s.log + [s.suppressed])
    else
      s.(suppressed := (s.suppressed + 1) % U64, at := s.at[t := Silent(now)],
         completed := s.completed + 1, wraps := if s.suppressed + 1 == U64 then s.wraps + 1 else s.wraps)
  }

  lemma CallIsARun(s: State, t: Id, now: Millis)
    requires t !in s.at
    ensures Reaches(s, AfterCall(s, t, now))
  {
    var f := AfterCall(s, t, now);
    var s1 := Next(s, Call(t, now));
    var s2 := Next(s1, Load(t));
    var s3 := Next(s2, Attempt(t, false));
    var last := if s.next <= now then Collect(t) else AddSuppressed(t);
    assert Next(s3, last).at == f.at;
    Here(f);
    Step(s3, last, f);
    Step(s2, Attempt(t, false), f);
    Step(s1, Load(t), f);
    Step(s, Call(t, now), f);
  }

  /** Reports resume: whatever has happened, a call made alone is granted exactly if nothing has been
      reported yet or 60,000 ms have passed since the last report, as long as the clock can tell. */
  lemma ReportsResume(s: State, es: seq<Event>, t: Id, now: Millis)
    requires Initial(s) && Runs(s, es) && t !in After(s, es).at
    requires var wins := After(s, es).wins; wins == [] || wins[|wins| - 1] + 60_000 <= U64_MAX
    ensures var f := After(s, es); var g := AfterCall(f, t, now);
      && Reaches(f, g)
      && (g.at[t].Reported? <==> f.wins == [] || now >= f.wins[|f.wins| - 1] + 60_000)
      && (!g.at[t].Reported? ==> g.at[t].Silent? && g.next == f.next)
  {
    RunKeepsInv(s, es);
    CallIsARun(After(s, es), t, now);
  }

  /** From every reachable state every call under way can finish, whatever the others are doing. */
  lemma CallCanFinish(s: State, t: Id)
    requires t in s.at
    ensures exists f :: Reaches(s, f) && t in f.at && (f.at[t].Reported? || f.at[t].Silent?)
    decreases match s.at[t] case Called(_) => 4 case Holding(_, seen, _, _) => if seen == s.next then 2 else 3
                            case Won(_) => 1 case Suppressing(_) => 1 case _ => 0
  {
    var g := s.at[t];
    if g.Reported? || g.Silent? {
      Here(s);
    } else {
      var e := if g.Called? then Load(t) else if g.Holding? then Attempt(t, false)
               else if g.Won? then Collect(t) else AddSuppressed(t);
      CallCanFinish(Next(s, e), t);
      var f :| Reaches(Next(s, e), f) && t in f.at && (f.at[t].Reported? || f.at[t].Silent?);
      Step(s, e, f);
    }
  }

  /** At the very end of the clock the limiter no longer limits: two calls, two reports. */
  lemma SaturatedClockReportsTwice(s: State)
    requires Initial(s)
    ensures exists f :: Reaches(s, f) && f.wins == [U64_MAX, U64_MAX]
  {
    var a := AfterCall(s, 0, U64_MAX);
    var b := AfterCall(a, 1, U64_MAX);
    CallIsARun(s, 0, U64_MAX);
    CallIsARun(a, 1, U64_MAX);
    Follow(s, a, b);
    assert b.wins == [U64_MAX, U64_MAX];
  }

  lemma {:induction false} Compose(s: State, a: seq<Event>, b: seq<Event>)
    requires Runs(s, a) && Runs(After(s, a), b)
    ensures Runs(s, a + b) && After(s, a + b) == After(After(s, a), b)
    decreases |a|
  {
    if a == [] {
      assert a + b == b;
    } else {
      Compose(Next(s, a[0]), a[1..], b);
      assert (a + b)[0] == a[0] && (a + b)[1..] == a[1..] + b;
    }
  }

  lemma Follow(s: State, m: State, f: State)
    requires Reaches(s, m) && Reaches(m, f)
    ensures Reaches(s, f)
  {
    var a :| Runs(s, a) && After(s, a) == m;
    var b :| Runs(m, b) && After(m, b) == f;
    Compose(s, a, b);
  }
}
