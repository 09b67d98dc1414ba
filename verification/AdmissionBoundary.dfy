/** The admission boundary as the object its callers use.

    Each method is specified by what it does to the shared cells when no other thread touches
    `pending` in between; the lemmas at the end show that such a call is one of the interleavings of
    `AdmissionProtocol`, so what is proved there about all of them covers these methods too.
    `spurious` is the number of times a weak compare-exchange fails for no reason, and `closing`
    says that another thread closes the gate between a won CAS and the re-check.
 */
module Admission {
  import opened AdmissionProtocol

  const U64: nat := 0x1_0000_0000_0000_0000

  datatype AdmissionOutcome = Admit | RejectFull | RejectClosed

  function OutcomeOf(c: Cells, closing: bool): AdmissionOutcome {
    if c.closed then RejectClosed
    else if c.pending >= c.capacity then RejectFull
    else if closing then RejectClosed else Admit
  }

  function FateAfterAdmit(outcome: AdmissionOutcome): Stage {
    match outcome
    case Admit => Admitted
    case RejectFull => Dropped(QueueFull)
    case RejectClosed => Dropped(PipelineClosed)
  }

  /** Only an admitted record keeps a slot, only a rejected one is charged. */
  function AfterAdmit(c: Cells, closing: bool): Cells {
    var outcome := OutcomeOf(c, closing);
    c.(pending := c.pending + (if outcome.Admit? then 1 else 0),
       charges := c.charges + (if outcome.Admit? then 0 else 1),
       closed := outcome.RejectClosed?)
  }

  function AfterRelease(c: Cells, count: nat): Cells { c.(pending := SaturatingSub(c.pending, count)) }

  function AfterDropPending(c: Cells): Cells {
    c.(pending := 0, charges := c.charges + c.pending, finalized := true)
  }

  class AdmissionBoundary {
    const capacity: nat
    var pending: nat
    var dropped: nat
    var closed: bool
    var exportFinalized: bool
    ghost var charges: nat  // every unit ever added to `dropped`, without the 64-bit wrap

    predicate Bounded() reads this { 0 < capacity && pending <= capacity < U64 && dropped < U64 }

    ghost predicate Valid() reads this { Bounded() && dropped == charges % U64 }

    ghost function View(): Cells reads this {
      Cells(capacity, pending, charges, closed, exportFinalized, true)
    }

    constructor (capacity: nat)
      requires 0 < capacity < U64
      ensures Valid() && View() == Cells(capacity, 0, 0, false, false, true)
      ensures Initial(State(View(), Idle, Running, map[], {}, {}))
    {
      this.capacity := capacity;
      pending, dropped, closed, exportFinalized, charges := 0, 0, false, false, 0;
    }

    method CompareExchangeWeak(expected: nat, desired: nat, spurious: bool) returns (won: bool, observed: nat)
      modifies this`pending
      ensures won == (old(pending) == expected && !spurious)
      ensures observed == old(pending)
      ensures pending == if won then desired else old(pending)
    {
      won, observed := pending == expected && !spurious, pending;
      if won { pending := desired; }
    }

    method FetchAddDropped(count: nat)
      requires Valid()
      modifies this`dropped, this`charges
      ensures Valid() && charges == old(charges) + count
    {
      WrappingAdd(charges, count);
      dropped := (dropped + count) % U64;
      charges := charges + count;
    }

    method TryAdmit(spurious: nat, closing: bool) returns (outcome: AdmissionOutcome)
      requires Valid()
      modifies this
      ensures Valid() && View() == AfterAdmit(old(View()), closing) && outcome == OutcomeOf(old(View()), closing)
      ensures outcome.Admit? <==> !old(closed) && old(pending) < capacity && !closing
      ensures outcome.RejectFull? <==> !old(closed) && old(pending) >= capacity
      ensures pending == old(pending) + (if outcome.Admit? then 1 else 0)
      ensures charges == old(charges) + (if outcome.Admit? then 0 else 1)
      ensures closed <==> old(closed) || (closing && old(pending) < capacity)
    {
      if closed {
        FetchAddDropped(1);
        return RejectClosed;
      }
      var seen := pending;
      var failures := spurious;
      while true
        invariant Valid() && View() == old(View()) && !closed && seen == pending
        decreases failures
      {
        if seen >= capacity {
          FetchAddDropped(1);
          return RejectFull;
        }
        var won, observed := CompareExchangeWeak(seen, seen + 1, failures > 0);
        if won {
          if closing { Close(); }
          if closed {
            Release(1, 0);
            FetchAddDropped(1);
            return RejectClosed;
          }
          return Admit;
        }
        seen, failures := observed, failures - 1;
      }
    }

    method Close()
      requires Valid()
      modifies this`closed
      ensures Valid() && View() == old(View()).(closed := true)
    {
      closed := true;
    }

    method Release(count: nat, spurious: nat)
      requires Valid()
      modifies this`pending
      ensures Valid() && View() == AfterRelease(old(View()), count)
    {
      var seen := pending;
      var failures := spurious;
      while true
        invariant Valid() && View() == old(View()) && seen == pending
        decreases failures
      {
        var won, observed := CompareExchangeWeak(seen, SaturatingSub(seen, count), failures > 0);
        if won { return; }
        seen, failures := observed, failures - 1;
      }
    }

    method BeginExport(count: nat, spurious: nat) returns (proceed: bool)
      requires Valid()
      modifies this`pending
      ensures proceed == !old(exportFinalized)
      ensures Valid() && View() == if proceed then AfterRelease(old(View()), count) else old(View())
    {
      if exportFinalized { return false; }
      Release(count, spurious);
      return true;
    }

    method DropPending()
      requires Valid()
      modifies this
      ensures Valid() && View() == AfterDropPending(old(View()))
    {
      exportFinalized := true;
      var count := pending;
      pending := 0;
      if count == 0 { return; }
      FetchAddDropped(count);
    }
  }

  lemma WrappingAdd(charges: nat, count: nat)
    ensures (charges % U64 + count) % U64 == (charges + count) % U64
  {
  }

  // ---- an undisturbed call is an interleaving ----

  lemma TryAdmitIsARun(s: State, t: Id, closing: bool)
    requires t !in s.at
    ensures Reaches(s,
        s.(cells := AfterAdmit(s.cells, closing), at := s.at[t := FateAfterAdmit(OutcomeOf(s.cells, closing))]))
  {
    match OutcomeOf(s.cells, closing) {
      case Admit => AdmitIsARun(s, t);
      case RejectFull => RejectFullIsARun(s, t);
      case RejectClosed => RejectClosedIsARun(s, t, closing);
    }
  }

  lemma AdmitIsARun(s: State, t: Id)
    requires t !in s.at && OutcomeOf(s.cells, false).Admit?
    ensures Reaches(s, s.(cells := AfterAdmit(s.cells, false), at := s.at[t := Admitted]))
  {
    EnterOpenGate(s, t);
  }

  lemma RejectClosedIsARun(s: State, t: Id, closing: bool)
    requires t !in s.at && OutcomeOf(s.cells, closing).RejectClosed?
    ensures Reaches(s, s.(cells := AfterAdmit(s.cells, closing), at := s.at[t := Dropped(PipelineClosed)]))
  {
    if s.cells.closed {
      var s1 := Next(s, Offer(t));
      var s2 := Next(s1, Record(t, LoadClosed));
      var f := Next(s2, Record(t, CountDrop));
      assert f.at == s.at[t := Dropped(PipelineClosed)];
      Here(f);
      Step(s2, Record(t, CountDrop), f);
      Step(s1, Record(t, LoadClosed), f);
      Step(s, Offer(t), f);
    } else {
      EnterWindow(s, t);
      var w := s.(cells := s.cells.(pending := s.cells.pending + 1), at := s.at[t := Window]);
      var c := Next(w, Close);
      LeaveWindow(c, t);
      var f := s.(cells := AfterAdmit(s.cells, true), at := s.at[t := Dropped(PipelineClosed)]);
      assert c.at[t := Dropped(PipelineClosed)] == f.at;
      Step(w, Close, f);
      Follow(s, w, f);
    }
  }

  lemma RejectFullIsARun(s: State, t: Id)
    requires t !in s.at && OutcomeOf(s.cells, false).RejectFull?
    ensures Reaches(s, s.(cells := AfterAdmit(s.cells, false), at := s.at[t := Dropped(QueueFull)]))
  {
    var s1 := Next(s, Offer(t));
    var s2 := Next(s1, Record(t, LoadClosed));
    var s3 := Next(s2, Record(t, LoadPending));
    var s4 := Next(s3, Record(t, AdmitCas(false)));
    var f := Next(s4, Record(t, CountDrop));
    assert f.at == s.at[t := Dropped(QueueFull)];
    Here(f);
    Step(s4, Record(t, CountDrop), f);
    Step(s3, Record(t, AdmitCas(false)), f);
    Step(s2, Record(t, LoadPending), f);
    Step(s1, Record(t, LoadClosed), f);
    Step(s, Offer(t), f);
  }

  lemma BeginExportIsARun(s: State)
    requires MutexFree(s)
    ensures Reaches(s,
      if s.cells.finalized then s.(at := Settle(s.at, InBatch, Refused))
      else s.(cells := AfterRelease(s.cells, |Members(s.at, InBatch)|), at := Settle(s.at, InBatch, Claimed)))
  {
    if s.cells.finalized {
      var s1 := Next(s, BeginExport);
      var s2 := Next(s1, CheckFinalized);
      Here(s2);
      Step(s1, CheckFinalized, s2);
      Step(s, BeginExport, s2);
    } else {
      BatchCanBeClaimed(s);
    }
  }

  lemma DropPendingIsARun(s: State)
    requires s.shutdown.Gated? && s.exporter.Idle? && s.cells.closed
    ensures exists f :: Reaches(s, f) && f.shutdown.Finished? && f.cells == AfterDropPending(s.cells)
  {
    WholeSweep(s);
    assert Swept(s).cells == AfterDropPending(s.cells);
  }
}
