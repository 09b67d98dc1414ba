/** The limiter and the drop observer as the objects their callers use. */
module Diagnostics {
  import opened Text
  import opened ReportLimiter

  /** What another thread does to the two cells: its CAS wins, it collects the suppressions it won, or it
      is suppressed itself. */
  datatype Rival = Wins(reading: Millis) | Collects | Suppresses

  /** All that happens before each of this thread's accesses. */
  type Rivals = nat -> seq<Rival>

  ghost predicate NoRivals(rivals: Rivals) { forall k :: rivals(k) == [] }

  /** Suppressions are neither lost nor invented, in wrapping 64-bit arithmetic. */
  predicate Kept(before: nat, added: nat, later: nat, collected: nat) {
    (later + collected) % U64 == (before + added) % U64
  }

  lemma KeptOneMore(before: nat, added: nat, later: nat, collected: nat)
    requires Kept(before, added, later, collected)
    ensures Kept(before, added + 1, (later + 1) % U64, collected)
  {
    Wraps(later + 1, collected);
    AddBoth(later + collected, before + added, 1);
  }

  lemma KeptChain(a: nat, x: nat, b: nat, y: nat, x': nat, c: nat, y': nat)
    requires Kept(a, x, b, y) && Kept(b, x', c, y')
    ensures Kept(a, x + x', c, y + y')
  {
    AddBoth(c + y', b + x', y);
    AddBoth(b + y, a + x, x');
  }

  lemma Wraps(a: nat, b: nat)
    ensures (a % U64 + b) % U64 == (a + b) % U64
  {
    assert a == U64 * (a / U64) + a % U64;
    assert a + b == U64 * (a / U64) + (a % U64 + b);
  }

  lemma AddBoth(a: nat, b: nat, c: nat)
    requires a % U64 == b % U64
    ensures (a + c) % U64 == (b + c) % U64
  {
    Wraps(a, c);
    Wraps(b, c);
  }

  /** A claim that no rival disturbs: it is granted exactly when the deadline has come, and then collects
      everything; otherwise it is counted. */
  predicate Undisturbed(next0: Millis, suppressed0: nat, now: Millis, claimed: Option<nat>, next: Millis,
                        suppressed: nat)
  {
    && (claimed.Some? <==> next0 <= now)
    && (claimed.Some? ==> next == Deadline(now) && suppressed == 0 && claimed.value == suppressed0)
    && (claimed.None? ==> next == next0 && suppressed == (suppressed0 + 1) % U64)
  }

  /** Such a claim is a run of the interleaving machine with the same cells and the same answer. */
  lemma UndisturbedIsARun(s: State, t: Id, now: Millis, claimed: Option<nat>, next: Millis, suppressed: nat)
    requires t !in s.at && Undisturbed(s.next, s.suppressed, now, claimed, next, suppressed)
    ensures exists f :: Reaches(s, f) && f.next == next && f.suppressed == suppressed && t in f.at
              && f.at[t] == match claimed case None => Silent(now) case Some(count) => Reported(now, count)
  {
    CallIsARun(s, t, now);
    var f := AfterCall(s, t, now);
    assert f.next == next && f.suppressed == suppressed;
  }

  /** The deadline after these claims have been granted. */
  function DeadlineAfter(wins: seq<Millis>): Millis { if wins == [] then 0 else Deadline(wins[|wins| - 1]) }

  /** No claim was granted before the deadline that the one before it had set. */
  predicate Lawful(wins: seq<Millis>) {
    wins == [] || (Lawful(wins[..|wins| - 1]) && DeadlineAfter(wins[..|wins| - 1]) <= wins[|wins| - 1])
  }

  lemma OneMoreIsLawful(wins: seq<Millis>, now: Millis)
    requires Lawful(wins) && DeadlineAfter(wins) <= now
    ensures Lawful(wins + [now]) && DeadlineAfter(wins + [now]) == Deadline(now)
  {
    assert (wins + [now])[..|wins|] == wins;
  }

  /** So all of them are an interval apart, as long as the clock can tell. */
  lemma {:induction false} LawfulIsSpaced(wins: seq<Millis>)
    requires Lawful(wins)
    ensures Spaced(wins)
    decreases |wins|
  {
    if wins == [] {
    } else {
      var earlier := wins[..|wins| - 1];
      LawfulIsSpaced(earlier);
      SpacedAppend(earlier, wins[|wins| - 1]);
      assert earlier + [wins[|wins| - 1]] == wins;
    }
  }

  class CategoryLimiter {
    var nextReportMillis: Millis
    var suppressed: nat

    ghost var wins: seq<Millis>  // the readings of all claims granted, in order

    ghost predicate Valid() reads this {
      suppressed < U64 && Lawful(wins) && nextReportMillis == DeadlineAfter(wins)
    }

    constructor ()
      ensures Valid() && nextReportMillis == 0 && suppressed == 0 && wins == []
    {
      nextReportMillis, suppressed, wins := 0, 0, [];
    }

    /** Any number of accesses by other threads; a reading behind the deadline cannot win. */
    method Interfere(rivals: seq<Rival>) returns (ghost added: nat, ghost collected: nat)
      requires Valid()
      modifies this
      ensures Valid() && old(nextReportMillis) <= nextReportMillis && old(wins) <= wins
      ensures Kept(old(suppressed), added, suppressed, collected)
      ensures rivals == [] ==> unchanged(this) && added == 0 && collected == 0
    {
      added, collected := 0, 0;
      for i := 0 to |rivals|
        invariant Valid() && old(nextReportMillis) <= nextReportMillis && old(wins) <= wins
        invariant Kept(old(suppressed), added, suppressed, collected)
        invariant rivals == [] ==> unchanged(this) && added == 0 && collected == 0
      {
        match rivals[i]
        case Wins(reading) =>
          if reading >= nextReportMillis {
            OneMoreIsLawful(wins, reading);
            nextReportMillis, wins := Deadline(reading), wins + [reading];
          }
        case Collects =>
          collected := collected + suppressed;
          suppressed := 0;
        case Suppresses =>
          KeptOneMore(old(suppressed), added, suppressed, collected);
          added := added + 1;
          suppressed := (suppressed + 1) % U64;
      }
    }

    /** The same, with the suppressions counted since `start`. */
    method Meet(rivals: seq<Rival>, ghost start: nat, ghost added: nat, ghost collected: nat)
      returns (ghost added': nat, ghost collected': nat)
      requires Valid() && Kept(start, added, suppressed, collected)
      modifies this
      ensures Valid() && old(nextReportMillis) <= nextReportMillis && old(wins) <= wins
      ensures Kept(start, added', suppressed, collected')
      ensures rivals == [] ==> unchanged(this) && added' == added && collected' == collected
    {
      ghost var before := suppressed;
      ghost var x, y := Interfere(rivals);
      KeptChain(start, added, before, collected, x, suppressed, y);
      added', collected' := added + x, collected + y;
    }

    /** Moves the deadline if it is still the one that was read. */
    method CompareExchangeWeak(expected: Millis, now: Millis, spurious: bool) returns (won: bool)
      requires Valid() && expected <= now
      modifies this`nextReportMillis, this`wins
      ensures Valid() && won == (old(nextReportMillis) == expected && !spurious)
      ensures nextReportMillis == if won then Deadline(now) else old(nextReportMillis)
      ensures wins == if won then old(wins) + [now] else old(wins)
    {
      won := nextReportMillis == expected && !spurious;
      if won {
        OneMoreIsLawful(wins, now);
        nextReportMillis, wins := Deadline(now), wins + [now];
      }
    }

    /** Takes all suppressions, whatever rivals do first. */
    method Collect(rivals: seq<Rival>, ghost start: nat, ghost added: nat, ghost collected: nat)
      returns (count: nat, ghost added': nat, ghost collected': nat)
      requires Valid() && Kept(start, added, suppressed, collected)
      modifies this
      ensures Valid() && old(nextReportMillis) <= nextReportMillis && old(wins) <= wins && suppressed == 0
      ensures Kept(start, added', count, collected')
      ensures rivals == [] ==>
        && nextReportMillis == old(nextReportMillis) && added' == added && collected' == collected
        && count == old(suppressed)
    {
      added', collected' := Meet(rivals, start, added, collected);
      count := suppressed;
      suppressed := 0;
    }

    /** Any rivals may come before each of this thread's accesses, its last one included, and `spurious`
        attempts may fail for no reason; the loop still ends, because each attempt lost to a rival has
        raised the deadline towards `now`.  `added` and `collected` are the rivals' share; `place` is where
        the claim stands among all that were granted. */
    method ClaimReport(now: Millis, rivals: Rivals, spurious: nat)
      returns (claimed: Option<nat>, ghost added: nat, ghost collected: nat, ghost place: nat)
      requires Valid()
      modifies this
      ensures Valid() && old(nextReportMillis) <= nextReportMillis && old(wins) <= wins
      ensures claimed.Some? ==> |old(wins)| <= place < |wins| && wins[place] == now
      ensures claimed.Some? ==> old(nextReportMillis) <= now && Deadline(now) <= nextReportMillis && suppressed == 0
      ensures claimed.Some? ==> Kept(old(suppressed), added, claimed.value, collected)
      ensures claimed.None? ==> now < nextReportMillis && Kept(old(suppressed), added + 1, suppressed, collected)
      ensures NoRivals(rivals) ==>
        && added == 0 && collected == 0
        && Undisturbed(old(nextReportMillis), old(suppressed), now, claimed, nextReportMillis, suppressed)
    {
      var seen := nextReportMillis;
      var failures, access := spurious, 0;
      added, collected, place := 0, 0, 0;
      while true
        invariant Valid() && old(nextReportMillis) <= seen <= nextReportMillis && old(wins) <= wins
        invariant Kept(old(suppressed), added, suppressed, collected)
        invariant NoRivals(rivals) ==>
          && seen == nextReportMillis == old(nextReportMillis) && suppressed == old(suppressed)
          && added == 0 && collected == 0
        decreases (if seen <= now then now - seen + 1 else 0), failures
      {
        added, collected := Meet(rivals(access), old(suppressed), added, collected);
        access := access + 1;
        if now < seen {
          KeptOneMore(old(suppressed), added, suppressed, collected);
          suppressed := (suppressed + 1) % U64;
          return None, added, collected, place;
        }
        var won := CompareExchangeWeak(seen, now, failures > 0);
        if won {
          place := |wins| - 1;
          var count;
          count, added, collected := Collect(rivals(access), old(suppressed), added, collected);
          return Some(count), added, collected, place;
        }
        if seen == nextReportMillis { failures := failures - 1; }
        seen := nextReportMillis;
      }
    }
  }

  datatype Signal = Trace | Log

  datatype DropReason = QueueFull | PipelineClosed

  datatype DropLine = DropLine(signal: Signal, reason: DropReason, suppressed: nat)

  function DropIndex(signal: Signal, reason: DropReason): (i: nat)
    ensures i < 4
  {
    (if signal.Trace? then 0 else 1) * 2 + (if reason.QueueFull? then 0 else 1)
  }

  /** Every limiter serves exactly one category. */
  lemma CategoriesPartitionLimiters(i: nat)
    requires i < 4
    ensures exists s, r ::
      DropIndex(s, r) == i && (forall s', r' :: DropIndex(s', r') == i ==> s' == s && r' == r)
  {
    var s := if i < 2 then Trace else Log;
    var r := if i % 2 == 0 then QueueFull else PipelineClosed;
    assert DropIndex(s, r) == i;
  }

  class DiagnosticsObserver {
    const limiters: seq<CategoryLimiter>
    var drops: map<(Signal, DropReason), nat>
    var lines: seq<DropLine>

    ghost predicate Valid()
      reads this, limiters
    {
      && |limiters| == 4
      && (forall i, j :: 0 <= i < j < 4 ==> limiters[i] != limiters[j])
      && (forall i :: 0 <= i < 4 ==> limiters[i].Valid())
    }

    function Drops(signal: Signal, reason: DropReason): nat
      reads this
    {
      if (signal, reason) in drops then drops[(signal, reason)] else 0
    }

    constructor ()
      ensures Valid() && fresh(limiters) && drops == map[] && lines == []
      ensures forall i :: 0 <= i < 4 ==> limiters[i].nextReportMillis == 0 && limiters[i].suppressed == 0
    {
      var a := new CategoryLimiter();
      var b := new CategoryLimiter();
      var c := new CategoryLimiter();
      var d := new CategoryLimiter();
      limiters := [a, b, c, d];
      drops, lines := map[], [];
    }

    /** All `count` drops reach the metric; at most one line is written, and it reports precisely the
        suppressions since the category's previous line.  No other category is touched. */
    method DropRecords(signal: Signal, reason: DropReason, count: nat, now: Millis)
      requires Valid()
      modifies this, limiters
      ensures Valid()
      ensures forall s, r :: Drops(s, r) == old(Drops(s, r)) + (if s == signal && r == reason then count else 0)
      ensures forall i :: 0 <= i < 4 && i != DropIndex(signal, reason) ==> unchanged(limiters[i])
      ensures var l := limiters[DropIndex(signal, reason)];
        if count == 0 then unchanged(l) && lines == old(lines)
        else if old(l.nextReportMillis) <= now then
          && lines == old(lines) + [DropLine(signal, reason, old(l.suppressed))]
          && l.suppressed == 0 && l.nextReportMillis == Deadline(now)
        else
          && lines == old(lines)
          && l.suppressed == (old(l.suppressed) + 1) % U64 && l.nextReportMillis == old(l.nextReportMillis)
    {
      if count == 0 { return; }
      drops := drops[(signal, reason) := Drops(signal, reason) + count];
      ReportDrop(signal, reason, now);
    }

    method ReportDrop(signal: Signal, reason: DropReason, now: Millis)
      requires Valid()
      modifies this`lines, limiters
      ensures Valid()
      ensures forall i :: 0 <= i < 4 && i != DropIndex(signal, reason) ==> unchanged(limiters[i])
      ensures var l := limiters[DropIndex(signal, reason)];
        if old(l.nextReportMillis) <= now then
          && lines == old(lines) + [DropLine(signal, reason, old(l.suppressed))]
          && l.suppressed == 0 && l.nextReportMillis == Deadline(now)
        else
          && lines == old(lines)
          && l.suppressed == (old(l.suppressed) + 1) % U64 && l.nextReportMillis == old(l.nextReportMillis)
    {
      var claimed;
      ghost var added, collected, place;
      claimed, added, collected, place := limiters[DropIndex(signal, reason)].ClaimReport(now, _ => [], 0);
      if claimed.Some? {
        lines := lines + [DropLine(signal, reason, claimed.value)];
      }
    }
  }
}
