/** The telemetry admission boundary as an interleaving of sequentially consistent atomic steps.

    Any number of producer threads offer one record each, one SDK worker extracts and exports
    batches, and one shutdown thread closes the gate, waits for the provider tasks and finally
    sweeps what is still pending.  A record is named by the thread that offers it, and its `Stage`
    says both where that thread stands in `try_admit` and, later, what became of the record.
 */
module AdmissionProtocol {
  import opened Sets

  type Id = nat

  datatype Reason = QueueFull | PipelineClosed

  datatype Stage =
    | Arrived                    // inside try_admit, before the first load of `closed`
    | Open                       // `closed` was false; `pending` not loaded yet
    | Trying(seen: nat)          // holds a loaded `pending`; next is the capacity test and the CAS
    | Window                     // won the CAS; `closed` not re-checked yet
    | Releasing                  // the re-check saw `closed`; `release(1)` has loaded nothing yet
    | ReleaseCas(seen: nat)      // in the CAS loop of `release(1)`
    | Dropping(reason: Reason)   // about to add one to `dropped`
    | Dropped(reason: Reason)    // charged individually
    | Admitted                   // try_admit returned Admitted; not handed to the SDK yet
    | Queued                     // in the bounded SDK queue
    | Extracted                  // in the worker's current batch
    | Claimed                    // its batch passed `begin_export`
    | Refused                    // its batch was turned away by `begin_export`
    | Stranded                   // the SDK queue was gone before it could be exported
    | Overflowed                 // rejected by a full SDK queue

  /** The cells shared by all threads.  `charges` counts every unit added to the `dropped` cell,
      which holds it modulo 2^64. */
  datatype Cells = Cells(capacity: nat, pending: nat, charges: nat, closed: bool, finalized: bool, connected: bool)

  /** The worker inside `begin_export`; every state but `Idle` holds the finalization mutex. */
  datatype Exporter = Idle | Checking | Freeing | FreeCas(seen: nat)

  /** The runtime's shutdown thread; `Locked`, `Flagged` and `Swapped` hold the mutex. */
  datatype Shutdown = Running | Gated | Locked | Flagged | Swapped(count: nat) | Adding(count: nat) | Finished

  /** `swept` and `sweptWindow` are history: who held a slot, and who held it between the admission
      CAS and its release, when `drop_pending` swapped the counter. */
  datatype State = State(
    cells: Cells,
    exporter: Exporter,
    shutdown: Shutdown,
    at: map<Id, Stage>,
    swept: set<Id>,
    sweptWindow: set<Id>)

  /** One atomic access made for a single record. */
  datatype Access =
    | LoadClosed | LoadPending | AdmitCas(spurious: bool) | Recheck
    | ReleaseLoad | ReleaseStore(spurious: bool) | CountDrop | Send | Extract

  datatype Event =
    | Offer(t: Id)
    | Record(t: Id, access: Access)
    | Disconnect
    | BeginExport | CheckFinalized | FreeLoad | FreeStore(spurious: bool)
    | Close
    | StartShutdown | LockPending | SetFinalized | SwapPending | Unlock | AddSwept

  // ---- records by stage ----

  function Members(at: map<Id, Stage>, p: Stage -> bool): set<Id> {
    set t | t in at && p(at[t])
  }

  predicate InWindow(g: Stage) { g.Window? || g.Releasing? || g.ReleaseCas? }

  predicate SdkBound(g: Stage) { g.Admitted? || g.Queued? || g.Extracted? || g.Stranded? }

  predicate HoldsSlot(g: Stage) { InWindow(g) || SdkBound(g) }

  predicate InQueue(g: Stage) { g.Queued? }

  predicate InBatch(g: Stage) { g.Extracted? }

  predicate InSdk(g: Stage) { g.Queued? || g.Extracted? }

  predicate IsDropped(g: Stage) { g.Dropped? }

  predicate IsClaimed(g: Stage) { g.Claimed? }

  predicate Settled(g: Stage) { g.Dropped? || g.Claimed? || g.Refused? || g.Stranded? || g.Overflowed? }

  function Settle(at: map<Id, Stage>, p: Stage -> bool, fate: Stage): map<Id, Stage> {
    map t | t in at :: if p(at[t]) then fate else at[t]
  }

  function SaturatingSub(a: nat, b: nat): nat { if a < b then 0 else a - b }

  // ---- the step relation ----

  predicate CanAccess(g: Stage, a: Access, connected: bool, exporter: Exporter) {
    match a
    case LoadClosed => g.Arrived?
    case LoadPending => g.Open?
    case AdmitCas(_) => g.Trying?
    case Recheck => g.Window?
    case ReleaseLoad => g.Releasing?
    case ReleaseStore(_) => g.ReleaseCas?
    case CountDrop => g.Dropping?
    case Send => g.Admitted?
    case Extract => g.Queued? && connected && exporter.Idle?
  }

  /** The record's next stage; `queued` is the length of the SDK queue. */
  function NextStage(c: Cells, g: Stage, a: Access, queued: nat): Stage
    requires CanAccess(g, a, true, Idle)
  {
    match a
    case LoadClosed => if c.closed then Dropping(PipelineClosed) else Open
    case LoadPending => Trying(c.pending)
    case AdmitCas(spurious) =>
      if g.seen >= c.capacity then Dropping(QueueFull)
      else if g.seen == c.pending && !spurious then Window else Trying(c.pending)
    case Recheck => if c.closed then Releasing else Admitted
    case ReleaseLoad => ReleaseCas(c.pending)
    case ReleaseStore(spurious) =>
      if g.seen == c.pending && !spurious then Dropping(PipelineClosed) else ReleaseCas(c.pending)
    case CountDrop => Dropped(g.reason)
    case Send => if !c.connected then Stranded else if queued < c.capacity then Queued else Overflowed
    case Extract => Extracted
  }

  function NextCells(c: Cells, g: Stage, a: Access): Cells
    requires CanAccess(g, a, true, Idle)
  {
    match a
    case AdmitCas(spurious) =>
      if g.seen < c.capacity && g.seen == c.pending && !spurious then c.(pending := g.seen + 1) else c
    case ReleaseStore(spurious) =>
      if g.seen == c.pending && !spurious then c.(pending := SaturatingSub(g.seen, 1)) else c
    case CountDrop => c.(charges := c.charges + 1)
    case _ => c
  }

  predicate MutexFree(s: State) {
    s.exporter.Idle? && !s.shutdown.Locked? && !s.shutdown.Flagged? && !s.shutdown.Swapped?
  }

  predicate HasSwapped(s: State) { s.shutdown.Swapped? || s.shutdown.Adding? || s.shutdown.Finished? }

  predicate Initial(s: State) {
    && s.cells.capacity > 0
    && s.cells == Cells(s.cells.capacity, 0, 0, false, false, true)
    && s == State(s.cells, Idle, Running, map[], {}, {})
  }

  predicate Enabled(s: State, e: Event) {
    match e
    case Offer(t) => t !in s.at
    case Record(t, a) => t in s.at && CanAccess(s.at[t], a, s.cells.connected, s.exporter)
    case Disconnect => s.cells.connected && s.exporter.Idle?
    case BeginExport => MutexFree(s)
    case CheckFinalized => s.exporter.Checking?
    case FreeLoad => s.exporter.Freeing?
    case FreeStore(_) => s.exporter.FreeCas?
    case Close => true
    case StartShutdown => s.shutdown.Running?
    case LockPending => s.shutdown.Gated? && MutexFree(s)
    case SetFinalized => s.shutdown.Locked?
    case SwapPending => s.shutdown.Flagged?
    case Unlock => s.shutdown.Swapped?
    case AddSwept => s.shutdown.Adding?
  }

  function Next(s: State, e: Event): State
    requires Enabled(s, e)
  {
    match e
    case Offer(t) => s.(at := s.at[t := Arrived])
    case Record(t, a) =>
      var g := s.at[t];
      s.(cells := NextCells(s.cells, g, a),
         at := s.at[t := NextStage(s.cells, g, a, |Members(s.at, InQueue)|)])
    case Disconnect =>
      s.(cells := s.cells.(connected := false), at := Settle(s.at, InSdk, Stranded))
    case BeginExport => s.(exporter := Checking)
    case CheckFinalized =>
      if s.cells.finalized then s.(exporter := Idle, at := Settle(s.at, InBatch, Refused))
      else s.(exporter := Freeing)
    case FreeLoad => s.(exporter := FreeCas(s.cells.pending))
    case FreeStore(spurious) =>
      var seen := s.exporter.seen;
      if seen == s.cells.pending && !spurious
      then State(s.cells.(pending := SaturatingSub(seen, |Members(s.at, InBatch)|)), Idle, s.shutdown,
                 Settle(s.at, InBatch, Claimed), s.swept, s.sweptWindow)
      else s.(exporter := FreeCas(s.cells.pending))
    case Close => s.(cells := s.cells.(closed := true))
    case StartShutdown => s.(cells := s.cells.(closed := true), shutdown := Gated)
    case LockPending => s.(shutdown := Locked)
    case SetFinalized => s.(cells := s.cells.(finalized := true), shutdown := Flagged)
    case SwapPending =>
      State(s.cells.(pending := 0), s.exporter, Swapped(s.cells.pending), s.at,
            Members(s.at, HoldsSlot), Members(s.at, InWindow))
    case Unlock => s.(shutdown := Adding(s.shutdown.count))
    case AddSwept => s.(cells := s.cells.(charges := s.cells.charges + s.shutdown.count), shutdown := Finished)
  }

  /** Every event of `es` is enabled in turn, starting from `s`. */
  predicate Runs(s: State, es: seq<Event>)
    decreases |es|
  {
    es == [] || (Enabled(s, es[0]) && Runs(Next(s, es[0]), es[1..]))
  }

  function After(s: State, es: seq<Event>): State
    requires Runs(s, es)
    decreases |es|
  {
    if es == [] then s else After(Next(s, es[0]), es[1..])
  }

  // ---- the inductive invariant ----

  predicate CountsAgree(s: State) {
    && 0 < s.cells.capacity && s.cells.pending <= s.cells.capacity
    && |Members(s.at, SdkBound)| <= s.cells.capacity
    && (if HasSwapped(s) then s.cells.pending <= |Members(s.at, InWindow)|
        else s.cells.pending == |Members(s.at, HoldsSlot)|)
  }

  predicate ControlAgrees(s: State) {
    && (s.cells.finalized <==> (s.shutdown.Flagged? || HasSwapped(s)))
    && (!s.shutdown.Running? ==> s.cells.closed)
    && (!s.exporter.Idle? ==> !s.shutdown.Locked? && !s.shutdown.Flagged? && !s.shutdown.Swapped?)
    && ((s.exporter.Freeing? || s.exporter.FreeCas?) ==> !s.cells.finalized)
    && (s.shutdown.Swapped? || s.shutdown.Adding? ==> s.shutdown.count == |s.swept|)
  }

  /** What a record's stage says about the sweep. */
  predicate FateOf(connected: bool, swapped: bool, swept: bool, inWindow: bool, g: Stage) {
    && !g.Overflowed?
    && (InSdk(g) ==> connected)
    && (g.Refused? || (swapped && SdkBound(g)) ==> swept && !inWindow)
    && (inWindow ==> InWindow(g) || g == Dropping(PipelineClosed) || g == Dropped(PipelineClosed))
    && (swept && !inWindow ==> SdkBound(g) || g.Refused?)
  }

  predicate FatesAgree(s: State) {
    && (!HasSwapped(s) ==> s.swept == {})
    && s.sweptWindow <= s.swept <= s.at.Keys
    && forall t :: t in s.at ==> FateOf(s.cells.connected, HasSwapped(s), t in s.swept, t in s.sweptWindow, s.at[t])
  }

  function SweptCharge(s: State): nat { if s.shutdown.Finished? then |s.swept| else 0 }

  predicate ChargesAgree(s: State) {
    s.cells.charges == |Members(s.at, IsDropped)| + SweptCharge(s)
  }

  predicate Inv(s: State) { CountsAgree(s) && ControlAgrees(s) && FatesAgree(s) && ChargesAgree(s) }

  // ---- moving one record, or settling a batch ----

  function Weight(b: bool): nat { if b then 1 else 0 }

  lemma Moved(at: map<Id, Stage>, t: Id, g: Stage, p: Stage -> bool)
    ensures |Members(at[t := g], p)| == |Members(at, p)| - Weight(t in at && p(at[t])) + Weight(p(g))
  {
    assert Members(at[t := g], p) == if p(g) then Members(at, p) + {t} else Members(at, p) - {t};
    assert t in at && p(at[t]) <==> t in Members(at, p);
  }

  lemma SettledOut(at: map<Id, Stage>, from: Stage -> bool, fate: Stage, p: Stage -> bool)
    requires !p(fate)
    requires forall g :: from(g) ==> p(g)
    ensures |Members(Settle(at, from, fate), p)| == |Members(at, p)| - |Members(at, from)|
  {
    assert Members(Settle(at, from, fate), p) == Members(at, p) - Members(at, from);
    assert Members(at, from) <= Members(at, p);
  }

  lemma SettledWithin(at: map<Id, Stage>, from: Stage -> bool, fate: Stage, p: Stage -> bool)
    requires if p(fate) then forall g :: from(g) ==> p(g) else forall g :: from(g) ==> !p(g)
    ensures Members(Settle(at, from, fate), p) == Members(at, p)
  {
    var after := Members(Settle(at, from, fate), p);
    forall t ensures t in after <==> t in Members(at, p) {
    }
  }

  /** A slot is held either on the way through the gate or on the way to the exporter. */
  lemma SlotsSplit(at: map<Id, Stage>)
    ensures |Members(at, HoldsSlot)| == |Members(at, InWindow)| + |Members(at, SdkBound)|
  {
    assert Members(at, HoldsSlot) == Members(at, InWindow) + Members(at, SdkBound);
    assert Members(at, InWindow) !! Members(at, SdkBound);
  }

  lemma QueueHasRoom(s: State, t: Id)
    requires CountsAgree(s) && t in s.at && s.at[t].Admitted?
    ensures |Members(s.at, InQueue)| < s.cells.capacity
  {
    var bound := Members(s.at, SdkBound);
    assert t in bound;
    PartIsSmaller(Members(s.at, InQueue), bound - {t});
  }

  // ---- one record's access keeps the invariant ----

  /** An access changes `pending` exactly as it changes the slots held, except that after the sweep
      a release may find nothing left to subtract; and nothing joins the SDK's share unless the gate
      is open. */
  lemma AccessEffect(c: Cells, g: Stage, a: Access, queued: nat)
    requires CanAccess(g, a, true, Idle) && c.pending <= c.capacity
    requires g.Admitted? ==> queued < c.capacity
    ensures var g' := NextStage(c, g, a, queued); var c' := NextCells(c, g, a);
      && c' == c.(pending := c'.pending, charges := c.charges + Weight(IsDropped(g')) - Weight(IsDropped(g)))
      && c'.pending <= c.capacity && !g'.Overflowed? && !g'.Refused? && !g'.Claimed?
      && (c'.pending - Weight(HoldsSlot(g')) == c.pending - Weight(HoldsSlot(g))
          || (c.pending == 0 == c'.pending && InWindow(g) && !HoldsSlot(g')))
      && (SdkBound(g') ==> SdkBound(g) || (InWindow(g) && !c.closed))
      && (SdkBound(g) ==> SdkBound(g'))
  {
  }

  lemma RecordCounts(s: State, t: Id, a: Access)
    requires Inv(s) && Enabled(s, Record(t, a))
    ensures CountsAgree(Next(s, Record(t, a)))
  {
    var g' := Next(s, Record(t, a)).at[t];
    if s.at[t].Admitted? { QueueHasRoom(s, t); }
    AccessEffect(s.cells, s.at[t], a, |Members(s.at, InQueue)|);
    RecordCountsOf(s, t, NextCells(s.cells, s.at[t], a), g');
  }

  lemma RecordCountsOf(s: State, t: Id, c': Cells, g': Stage)
    requires CountsAgree(s) && t in s.at && (HasSwapped(s) ==> s.cells.closed)
    requires c' == s.cells.(pending := c'.pending, charges := c'.charges) && c'.pending <= c'.capacity
    requires c'.pending - Weight(HoldsSlot(g')) == s.cells.pending - Weight(HoldsSlot(s.at[t]))
          || (s.cells.pending == 0 == c'.pending && InWindow(s.at[t]) && !HoldsSlot(g'))
    requires SdkBound(g') ==> SdkBound(s.at[t]) || (InWindow(s.at[t]) && !s.cells.closed)
    requires SdkBound(s.at[t]) ==> SdkBound(g')
    ensures CountsAgree(s.(cells := c', at := s.at[t := g']))
  {
    Moved(s.at, t, g', HoldsSlot);
    Moved(s.at, t, g', InWindow);
    Moved(s.at, t, g', SdkBound);
    SlotsSplit(s.at);
    SlotsSplit(s.at[t := g']);
    assert InWindow(s.at[t]) ==> t in Members(s.at, InWindow);
  }

  lemma RecordCharges(s: State, t: Id, a: Access)
    requires Inv(s) && Enabled(s, Record(t, a))
    ensures ChargesAgree(Next(s, Record(t, a))) && ControlAgrees(Next(s, Record(t, a)))
  {
    Moved(s.at, t, Next(s, Record(t, a)).at[t], IsDropped);
  }

  /** What a stage says about the sweep stays true through any access; `queued` leaves room to send. */
  lemma MoverFate(c: Cells, g: Stage, a: Access, queued: nat, swapped: bool, swept: bool, inWindow: bool)
    requires CanAccess(g, a, c.connected, Idle) && FateOf(c.connected, swapped, swept, inWindow, g)
    requires (swapped || inWindow ==> c.closed) && (g.Admitted? ==> queued < c.capacity)
    ensures FateOf(c.connected, swapped, swept, inWindow, NextStage(c, g, a, queued))
  {
  }

  lemma RecordMover(s: State, t: Id, a: Access)
    requires Inv(s) && Enabled(s, Record(t, a))
    ensures FateOf(s.cells.connected, HasSwapped(s), t in s.swept, t in s.sweptWindow, Next(s, Record(t, a)).at[t])
  {
    if s.at[t].Admitted? { QueueHasRoom(s, t); }
    MoverFate(s.cells, s.at[t], a, |Members(s.at, InQueue)|, HasSwapped(s), t in s.swept, t in s.sweptWindow);
  }

  lemma RecordFates(s: State, t: Id, a: Access)
    requires Inv(s) && Enabled(s, Record(t, a))
    ensures FatesAgree(Next(s, Record(t, a)))
  {
    RecordMover(s, t, a);
    var s' := Next(s, Record(t, a));
    assert s'.cells.connected == s.cells.connected;
    assert s' == s.(cells := s'.cells, at := s.at[t := s'.at[t]]);
  }

  lemma OfferKeepsInv(s: State, t: Id)
    requires Inv(s) && Enabled(s, Offer(t))
    ensures Inv(Next(s, Offer(t)))
  {
    Moved(s.at, t, Arrived, HoldsSlot);
    Moved(s.at, t, Arrived, InWindow);
    Moved(s.at, t, Arrived, SdkBound);
    Moved(s.at, t, Arrived, IsDropped);
  }

  // ---- the worker and the shutdown thread keep the invariant ----

  lemma DisconnectCounts(s: State)
    requires Inv(s) && Enabled(s, Disconnect)
    ensures CountsAgree(Next(s, Disconnect)) && ChargesAgree(Next(s, Disconnect))
  {
    SettledWithin(s.at, InSdk, Stranded, HoldsSlot);
    SettledWithin(s.at, InSdk, Stranded, InWindow);
    SettledWithin(s.at, InSdk, Stranded, SdkBound);
    SettledWithin(s.at, InSdk, Stranded, IsDropped);
  }

  lemma DisconnectKeepsInv(s: State)
    requires Inv(s) && Enabled(s, Disconnect)
    ensures Inv(Next(s, Disconnect))
  {
    DisconnectCounts(s);
    forall t | t in s.at
      ensures FateOf(false, HasSwapped(s), t in s.swept, t in s.sweptWindow, Next(s, Disconnect).at[t])
    {
      assert FateOf(s.cells.connected, HasSwapped(s), t in s.swept, t in s.sweptWindow, s.at[t]);
    }
  }

  lemma RefusalKeepsInv(s: State)
    requires Inv(s) && Enabled(s, CheckFinalized) && s.cells.finalized
    ensures Inv(Next(s, CheckFinalized))
  {
    SettledOut(s.at, InBatch, Refused, HoldsSlot);
    SettledWithin(s.at, InBatch, Refused, InWindow);
    SettledOut(s.at, InBatch, Refused, SdkBound);
    SettledWithin(s.at, InBatch, Refused, IsDropped);
  }

  lemma ClaimedCounts(at: map<Id, Stage>)
    ensures var at' := Settle(at, InBatch, Claimed);
      && |Members(at, InBatch)| <= |Members(at, HoldsSlot)|
      && |Members(at', HoldsSlot)| == |Members(at, HoldsSlot)| - |Members(at, InBatch)|
      && |Members(at', InWindow)| == |Members(at, InWindow)|
      && |Members(at', SdkBound)| == |Members(at, SdkBound)| - |Members(at, InBatch)|
      && |Members(at', IsDropped)| == |Members(at, IsDropped)|
  {
    PartIsSmaller(Members(at, InBatch), Members(at, HoldsSlot));
    SettledOut(at, InBatch, Claimed, HoldsSlot);
    SettledWithin(at, InBatch, Claimed, InWindow);
    SettledOut(at, InBatch, Claimed, SdkBound);
    SettledWithin(at, InBatch, Claimed, IsDropped);
  }

  /** Nothing has been swept yet, so being claimed contradicts nothing. */
  lemma ClaimFates(s: State)
    requires FatesAgree(s) && !HasSwapped(s)
    ensures FatesAgree(s.(at := Settle(s.at, InBatch, Claimed)))
  {
    var at' := Settle(s.at, InBatch, Claimed);
    assert at'.Keys == s.at.Keys;
    forall t | t in at'
      ensures FateOf(s.cells.connected, false, false, false, at'[t])
    {
      assert FateOf(s.cells.connected, HasSwapped(s), t in s.swept, t in s.sweptWindow, s.at[t]);
    }
  }

  lemma ClaimKeepsInv(s: State)
    requires Inv(s) && s.exporter == FreeCas(s.cells.pending)
    ensures s.cells.pending >= |Members(s.at, InBatch)|
    ensures Inv(Next(s, FreeStore(false)))
  {
    ClaimedCounts(s.at);
    ClaimFates(s);
  }

  lemma SwapKeepsInv(s: State)
    requires Inv(s) && Enabled(s, SwapPending)
    ensures Inv(Next(s, SwapPending))
  {
    SlotsSplit(s.at);
  }

  lemma ControlKeepsInv(s: State, e: Event)
    requires Inv(s) && Enabled(s, e)
    requires e.BeginExport? || e.FreeLoad? || e.Close? || e.StartShutdown? || e.LockPending?
          || e.SetFinalized? || e.Unlock? || e.AddSwept?
    ensures Inv(Next(s, e))
  {
  }

  lemma StepKeepsInv(s: State, e: Event)
    requires Inv(s) && Enabled(s, e)
    ensures Inv(Next(s, e))
  {
    match e {
      case Offer(t) => OfferKeepsInv(s, t);
      case Record(t, a) => RecordCounts(s, t, a); RecordCharges(s, t, a); RecordFates(s, t, a);
      case Disconnect => DisconnectKeepsInv(s);
      case CheckFinalized => if s.cells.finalized { RefusalKeepsInv(s); }
      case FreeStore(spurious) =>
        if s.exporter.seen == s.cells.pending && !spurious { ClaimKeepsInv(s); }
      case SwapPending => SwapKeepsInv(s);
      case _ => ControlKeepsInv(s, e);
    }
  }

  /** The invariant holds in every reachable state, whatever the interleaving. */
  lemma {:induction false} RunKeepsInv(s: State, es: seq<Event>)
    requires Inv(s) && Runs(s, es)
    ensures Inv(After(s, es))
    decreases |es|
  {
    if es == [] {
    } else {
      StepKeepsInv(s, es[0]);
      RunKeepsInv(Next(s, es[0]), es[1..]);
    }
  }

  // ---- what the invariant means ----

  /** Admission is bounded, the counter is exactly the slots in use until the final sweep, and the
      SDK queue can never overflow, not even after the sweep. */
  lemma CapacityIsRespected(s: State, es: seq<Event>)
    requires Initial(s) && Runs(s, es)
    ensures var f := After(s, es);
      && f.cells.pending <= f.cells.capacity
      && |Members(f.at, InQueue)| <= f.cells.capacity
      && (forall t :: t in f.at ==> !f.at[t].Overflowed?)
      && (!HasSwapped(f) ==> f.cells.pending == |Members(f.at, InWindow)| + |Members(f.at, SdkBound)|)
  {
    RunKeepsInv(s, es);
    var f := After(s, es);
    SlotsSplit(f.at);
    PartIsSmaller(Members(f.at, InQueue), Members(f.at, SdkBound));
  }

  /** Until the final sweep no release ever saturates: each winning CAS subtracts in full. */
  lemma ReleaseNeverSaturates(s: State, es: seq<Event>, e: Event)
    requires Initial(s) && Runs(s, es) && Enabled(After(s, es), e) && !HasSwapped(After(s, es))
    ensures var f := After(s, es);
      && (e.FreeStore? && Next(f, e).exporter.Idle? ==>
          Next(f, e).cells.pending == f.cells.pending - |Members(f.at, InBatch)|)
      && (e.Record? && e.access.ReleaseStore? && Next(f, e).at[e.t].Dropping? ==>
          Next(f, e).cells.pending == f.cells.pending - 1)
  {
    RunKeepsInv(s, es);
    var f := After(s, es);
    if e.FreeStore? && Next(f, e).exporter.Idle? {
      ClaimKeepsInv(f);
    }
    if e.Record? && e.access.ReleaseStore? {
      assert e.t in Members(f.at, HoldsSlot);
    }
  }

  /** Everything the shutdown thread had to do is done and every record has met its fate. */
  predicate Quiescent(s: State) {
    s.shutdown.Finished? && s.exporter.Idle? && forall t :: t in s.at ==> Settled(s.at[t])
  }

  /** The records that were truly lost: swept away, or turned away one by one. */
  function TrulyDropped(s: State): set<Id> { s.swept + Members(s.at, IsDropped) }

  /** Who was charged by the sweep and again by itself. */
  function ChargedTwice(s: State): set<Id> { s.swept * Members(s.at, IsDropped) }

  lemma UnionCount(a: set<Id>, b: set<Id>)
    ensures |a + b| + |a * b| == |a| + |b|
  {
    assert a + b == a + (b - a);
    assert b == (b - a) + a * b;
  }

  lemma DropsOf(f: State)
    requires Inv(f) && f.shutdown.Finished?
    ensures f.cells.charges == |TrulyDropped(f)| + |ChargedTwice(f)|
    ensures ChargedTwice(f) <= f.sweptWindow && |ChargedTwice(f)| <= |f.sweptWindow|
    ensures TrulyDropped(f) !! Members(f.at, IsClaimed)
  {
    UnionCount(f.swept, Members(f.at, IsDropped));
    DropsFate(f);
    PartIsSmaller(ChargedTwice(f), f.sweptWindow);
  }

  lemma DropsFate(f: State)
    requires FatesAgree(f)
    ensures ChargedTwice(f) <= f.sweptWindow && TrulyDropped(f) !! Members(f.at, IsClaimed)
  {
    forall t | t in f.at
      ensures t in ChargedTwice(f) ==> t in f.sweptWindow
      ensures !(t in TrulyDropped(f) && t in Members(f.at, IsClaimed))
    {
      assert FateOf(f.cells.connected, HasSwapped(f), t in f.swept, t in f.sweptWindow, f.at[t]);
    }
  }

  /** Once the sweep has been added, the drop counter is the number of records truly dropped plus
      those charged twice, and only a record caught inside the admission window can be. */
  lemma DropAccounting(s: State, es: seq<Event>)
    requires Initial(s) && Runs(s, es) && After(s, es).shutdown.Finished?
    ensures var f := After(s, es);
      && f.cells.charges == |TrulyDropped(f)| + |ChargedTwice(f)|
      && ChargedTwice(f) <= f.sweptWindow
      && |TrulyDropped(f)| <= f.cells.charges <= |TrulyDropped(f)| + |f.sweptWindow|
      && TrulyDropped(f) !! Members(f.at, IsClaimed)
  {
    RunKeepsInv(s, es);
    DropsOf(After(s, es));
  }

  /** At rest after shutdown: no slot leaks, every offered record was either claimed for export or
      dropped, and the counter overstates the drops by exactly the swept window. */
  lemma QuiescentAccounting(s: State, es: seq<Event>)
    requires Initial(s) && Runs(s, es) && Quiescent(After(s, es))
    ensures var f := After(s, es);
      && f.cells.pending == 0
      && |f.at.Keys| == |Members(f.at, IsClaimed)| + |TrulyDropped(f)|
      && f.cells.charges == |TrulyDropped(f)| + |f.sweptWindow|
      && (f.cells.charges == |TrulyDropped(f)| <==> f.sweptWindow == {})
  {
    RunKeepsInv(s, es);
    var f := After(s, es);
    DropsOf(f);
    assert Members(f.at, InWindow) == {};
    assert f.at.Keys == Members(f.at, IsClaimed) + TrulyDropped(f);
    assert ChargedTwice(f) == f.sweptWindow;
  }

  lemma FinalizedStep(s: State, e: Event)
    requires Inv(s) && s.cells.finalized && Enabled(s, e)
    ensures Members(Next(s, e).at, IsClaimed) == Members(s.at, IsClaimed)
    ensures Next(s, e).cells.finalized
  {
    match e
    case Offer(t) => PutUnclaimed(s.at, t, Arrived);
    case Record(t, a) =>
      UnclaimedAccess(s.cells, s.at[t], a, |Members(s.at, InQueue)|);
      PutUnclaimed(s.at, t, Next(s, e).at[t]);
    case Disconnect => SettledWithin(s.at, InSdk, Stranded, IsClaimed);
    case CheckFinalized => SettledWithin(s.at, InBatch, Refused, IsClaimed);
    case _ =>
  }

  lemma UnclaimedAccess(c: Cells, g: Stage, a: Access, queued: nat)
    requires CanAccess(g, a, true, Idle)
    ensures !IsClaimed(g) && !IsClaimed(NextStage(c, g, a, queued)) && NextCells(c, g, a).finalized == c.finalized
  {
  }

  lemma PutUnclaimed(at: map<Id, Stage>, t: Id, g: Stage)
    requires !IsClaimed(g) && (t in at ==> !IsClaimed(at[t]))
    ensures Members(at[t := g], IsClaimed) == Members(at, IsClaimed)
  {
  }

  /** No batch is claimed once finalization has happened, and what the sweep charged was never
      exported: the two are mutually exclusive for every ordering of the mutex holders. */
  lemma {:induction false} FinalizationEndsExport(s: State, es: seq<Event>)
    requires Inv(s) && s.cells.finalized && Runs(s, es)
    ensures Members(After(s, es).at, IsClaimed) == Members(s.at, IsClaimed)
    ensures After(s, es).swept !! Members(s.at, IsClaimed)
    decreases |es|
  {
    if es == [] {
      forall t | t in Members(s.at, IsClaimed) ensures t !in s.swept {
        assert FateOf(s.cells.connected, HasSwapped(s), t in s.swept, t in s.sweptWindow, s.at[t]);
      }
    } else {
      StepKeepsInv(s, es[0]);
      FinalizedStep(s, es[0]);
      FinalizationEndsExport(Next(s, es[0]), es[1..]);
    }
  }

  /** A disconnected SDK has lost what it had been given and is given no more: nothing is claimed again. */
  lemma DisconnectedStep(s: State, e: Event)
    requires Inv(s) && !s.cells.connected && Enabled(s, e)
    ensures !Next(s, e).cells.connected && Members(Next(s, e).at, IsClaimed) == Members(s.at, IsClaimed)
  {
    NothingInSdk(s);
    match e
    case Offer(t) => PutUnclaimed(s.at, t, Arrived);
    case Record(t, a) =>
      UnclaimedAccess(s.cells, s.at[t], a, |Members(s.at, InQueue)|);
      PutUnclaimed(s.at, t, Next(s, e).at[t]);
    case _ =>
  }

  lemma NothingInSdk(s: State)
    requires Inv(s) && !s.cells.connected
    ensures forall fate :: Settle(s.at, InSdk, fate) == s.at && Settle(s.at, InBatch, fate) == s.at
  {
    forall t | t in s.at
      ensures !InSdk(s.at[t])
    {
      assert FateOf(s.cells.connected, HasSwapped(s), t in s.swept, t in s.sweptWindow, s.at[t]);
    }
  }

  lemma DisconnectEndsExport(s: State, es: seq<Event>)
    requires Inv(s) && Enabled(s, Disconnect) && Runs(Next(s, Disconnect), es)
    ensures Members(After(Next(s, Disconnect), es).at, IsClaimed) == Members(s.at, IsClaimed)
  {
    DisconnectKeepsInv(s);
    SettledWithin(s.at, InSdk, Stranded, IsClaimed);
    DisconnectedRun(Next(s, Disconnect), es);
  }

  lemma {:induction false} DisconnectedRun(s: State, es: seq<Event>)
    requires Inv(s) && !s.cells.connected && Runs(s, es)
    ensures Members(After(s, es).at, IsClaimed) == Members(s.at, IsClaimed)
    decreases |es|
  {
    if es == [] {
    } else {
      DisconnectedStep(s, es[0]);
      StepKeepsInv(s, es[0]);
      DisconnectedRun(Next(s, es[0]), es[1..]);
    }
  }

  // ---- composing runs ----

  lemma {:induction false} RunsCompose(s: State, a: seq<Event>, b: seq<Event>)
    requires Runs(s, a) && Runs(After(s, a), b)
    ensures Runs(s, a + b) && After(s, a + b) == After(After(s, a), b)
    decreases |a|
  {
    if a == [] {
      assert a + b == b;
    } else {
      RunsCompose(Next(s, a[0]), a[1..], b);
      assert (a + b)[0] == a[0] && (a + b)[1..] == a[1..] + b;
    }
  }

  lemma One(s: State, e: Event)
    requires Enabled(s, e)
    ensures Runs(s, [e]) && After(s, [e]) == Next(s, e)
  {
    assert [e][1..] == [];
    assert Runs(Next(s, e), []);
  }

  /** `g` can be reached from `s`. */
  ghost predicate Reaches(s: State, g: State) { exists es :: Runs(s, es) && After(s, es) == g }

  lemma Step(s: State, e: Event, g: State)
    requires Enabled(s, e) && Reaches(Next(s, e), g)
    ensures Reaches(s, g)
  {
    var es :| Runs(Next(s, e), es) && After(Next(s, e), es) == g;
    One(s, e);
    RunsCompose(s, [e], es);
  }

  lemma Here(s: State)
    ensures Reaches(s, s)
  {
    assert Runs(s, []);
  }

  // ---- a whole shutdown while one producer stands in the window ----

  lemma EnterWindow(s: State, t: Id)
    requires t !in s.at && !s.cells.closed && s.cells.pending < s.cells.capacity
    ensures Reaches(s, s.(cells := s.cells.(pending := s.cells.pending + 1), at := s.at[t := Window]))
  {
    var s1 := Next(s, Offer(t));
    var s2 := Next(s1, Record(t, LoadClosed));
    var s3 := Next(s2, Record(t, LoadPending));
    var s4 := Next(s3, Record(t, AdmitCas(false)));
    assert s4.at == s.at[t := Window];
    Here(s4);
    Step(s3, Record(t, AdmitCas(false)), s4);
    Step(s2, Record(t, LoadPending), s4);
    Step(s1, Record(t, LoadClosed), s4);
    Step(s, Offer(t), s4);
  }

  lemma LeaveWindow(s: State, t: Id)
    requires t in s.at && s.at[t].Window? && s.cells.closed
    ensures Reaches(s,
        s.(cells := s.cells.(pending := SaturatingSub(s.cells.pending, 1), charges := s.cells.charges + 1),
                          at := s.at[t := Dropped(PipelineClosed)]))
  {
    var s1 := Next(s, Record(t, Recheck));
    var s2 := Next(s1, Record(t, ReleaseLoad));
    var s3 := Next(s2, Record(t, ReleaseStore(false)));
    var s4 := Next(s3, Record(t, CountDrop));
    assert s4.at == s.at[t := Dropped(PipelineClosed)];
    Here(s4);
    Step(s3, Record(t, CountDrop), s4);
    Step(s2, Record(t, ReleaseStore(false)), s4);
    Step(s1, Record(t, ReleaseLoad), s4);
    Step(s, Record(t, Recheck), s4);
  }

  function Swept(s: State): State {
    var c := s.cells;
    State(c.(pending := 0, charges := c.charges + c.pending, closed := true, finalized := true), Idle, Finished,
          s.at, Members(s.at, HoldsSlot), Members(s.at, InWindow))
  }

  lemma WholeSweep(s: State)
    requires s.shutdown.Gated? && s.exporter.Idle? && s.cells.closed
    ensures Reaches(s, Swept(s))
  {
    var s1 := Next(s, LockPending);
    var s2 := Next(s1, SetFinalized);
    var s3 := Next(s2, SwapPending);
    var s4 := Next(s3, Unlock);
    Here(Swept(s));
    Step(s4, AddSwept, Swept(s));
    Step(s3, Unlock, Swept(s));
    Step(s2, SwapPending, Swept(s));
    Step(s1, SetFinalized, Swept(s));
    Step(s, LockPending, Swept(s));
  }

  lemma Follow(a: State, b: State, c: State)
    requires Reaches(a, b) && Reaches(b, c)
    ensures Reaches(a, c)
  {
    var x :| Runs(a, x) && After(a, x) == b;
    var y :| Runs(b, y) && After(b, y) == c;
    RunsCompose(a, x, y);
  }

  // ---- what is admitted can be exported ----

  /** An admitted record that is handed to a connected SDK enters its queue. */
  lemma SendEnqueues(s: State, t: Id)
    requires Inv(s) && t in s.at && s.at[t].Admitted?
    ensures Enabled(s, Record(t, Send))
    ensures Next(s, Record(t, Send)) == s.(at := s.at[t := if s.cells.connected then Queued else Stranded])
  {
    QueueHasRoom(s, t);
  }

  /** The state in which the current batch has been claimed. */
  function BatchClaimed(s: State): State {
    s.(cells := s.cells.(pending := SaturatingSub(s.cells.pending, |Members(s.at, InBatch)|)),
       at := Settle(s.at, InBatch, Claimed))
  }

  lemma BatchCanBeClaimed(s: State)
    requires MutexFree(s) && !s.cells.finalized
    ensures Reaches(s, BatchClaimed(s))
  {
    var s1 := Next(s, BeginExport);
    var s2 := Next(s1, CheckFinalized);
    var s3 := Next(s2, FreeLoad);
    Here(BatchClaimed(s));
    Step(s3, FreeStore(false), BatchClaimed(s));
    Step(s2, FreeLoad, BatchClaimed(s));
    Step(s1, CheckFinalized, BatchClaimed(s));
    Step(s, BeginExport, BatchClaimed(s));
  }

  /** Before finalization a record that the connected SDK has been given, or is about to be given, can
      always still be exported, charging nothing and disturbing no record outside its batch. */
  lemma AdmittedCanBeClaimed(s: State, t: Id)
    requires Inv(s) && MutexFree(s) && !s.cells.finalized && s.cells.connected
    requires t in s.at && (s.at[t].Admitted? || InSdk(s.at[t]))
    ensures Reaches(s, BatchClaimed(s.(at := s.at[t := Extracted])))
    ensures BatchClaimed(s.(at := s.at[t := Extracted])).at[t].Claimed?
  {
    var e := s.(at := s.at[t := Extracted]);
    BatchCanBeClaimed(e);
    if s.at[t].Admitted? {
      SendEnqueues(s, t);
      var q := Next(s, Record(t, Send));
      assert q.at[t := Extracted] == e.at;
      Step(q, Record(t, Extract), BatchClaimed(e));
      Step(s, Record(t, Send), BatchClaimed(e));
    } else if s.at[t].Queued? {
      Step(s, Record(t, Extract), BatchClaimed(e));
    } else {
      assert e == s;
    }
  }

  lemma OneMoreInBatch(at: map<Id, Stage>, t: Id)
    requires t !in at
    ensures |Members(at[t := Extracted], InBatch)| == |Members(at, InBatch)| + 1
    ensures Settle(at[t := Extracted], InBatch, Claimed) == Settle(at, InBatch, Claimed)[t := Claimed]
  {
    Moved(at, t, Extracted, InBatch);
  }

  /** A record offered to an open gate with a slot to spare can be exported: admitted, queued, taken and
      claimed with the batch that is under way, charging nothing. */
  lemma OfferedCanBeClaimed(s: State, t: Id)
    requires Inv(s) && MutexFree(s) && !s.cells.finalized && s.cells.connected
    requires t !in s.at && !s.cells.closed && s.cells.pending < s.cells.capacity
    ensures Reaches(s, BatchClaimed(s).(at := BatchClaimed(s).at[t := Claimed]))
  {
    EnterOpenGate(s, t);
    var a := s.(cells := s.cells.(pending := s.cells.pending + 1), at := s.at[t := Admitted]);
    ReachKeepsInv(s, a);
    AdmittedCanBeClaimed(a, t);
    assert a.at[t := Extracted] == s.at[t := Extracted];
    OneMoreInBatch(s.at, t);
    Follow(s, a, BatchClaimed(s).(at := BatchClaimed(s).at[t := Claimed]));
  }

  lemma EnterOpenGate(s: State, t: Id)
    requires t !in s.at && !s.cells.closed && s.cells.pending < s.cells.capacity
    ensures Reaches(s, s.(cells := s.cells.(pending := s.cells.pending + 1), at := s.at[t := Admitted]))
  {
    EnterWindow(s, t);
    var w := s.(cells := s.cells.(pending := s.cells.pending + 1), at := s.at[t := Window]);
    var f := Next(w, Record(t, Recheck));
    assert f.at == s.at[t := Admitted];
    Here(f);
    Step(w, Record(t, Recheck), f);
    Follow(s, w, f);
  }

  // ---- what is rejected had a reason ----

  predicate TurnedAwayFull(g: Stage) { g == Dropping(QueueFull) || g == Dropped(QueueFull) }

  predicate TurnedAwayLate(g: Stage) {
    g.Releasing? || g.ReleaseCas? || g == Dropping(PipelineClosed) || g == Dropped(PipelineClosed)
  }

  /** The greatest value the counter has in a run. */
  function Peak(s: State, es: seq<Event>): nat
    requires Runs(s, es)
    decreases |es|
  {
    if es == [] || Peak(Next(s, es[0]), es[1..]) < s.cells.pending then s.cells.pending
    else Peak(Next(s, es[0]), es[1..])
  }

  /** No thread has yet read a full counter. */
  predicate NoneFull(s: State) { forall t :: t in s.at ==> !HasRead(s.at[t], s.cells.capacity) }

  predicate HasRead(g: Stage, capacity: nat) { TurnedAwayFull(g) || (g.Trying? && g.seen >= capacity) }

  lemma RoomyAccess(c: Cells, g: Stage, a: Access, queued: nat)
    requires CanAccess(g, a, true, Idle) && !HasRead(g, c.capacity) && c.pending < c.capacity
    ensures !HasRead(NextStage(c, g, a, queued), c.capacity) && NextCells(c, g, a).capacity == c.capacity
  {
  }

  lemma RoomyStep(s: State, e: Event)
    requires Enabled(s, e) && NoneFull(s) && s.cells.pending < s.cells.capacity
    ensures NoneFull(Next(s, e)) && Next(s, e).cells.capacity == s.cells.capacity
  {
    match e
    case Record(t, a) => RoomyAccess(s.cells, s.at[t], a, |Members(s.at, InQueue)|);
    case _ =>
  }

  /** No record is turned away for want of room in a run whose counter is never full. */
  lemma {:induction false} FullRejectionHasCause(s: State, es: seq<Event>)
    requires Inv(s) && NoneFull(s) && Runs(s, es) && Peak(s, es) < s.cells.capacity
    ensures NoneFull(After(s, es))
    decreases |es|
  {
    if es == [] {
    } else {
      RoomyStep(s, es[0]);
      StepKeepsInv(s, es[0]);
      FullRejectionHasCause(Next(s, es[0]), es[1..]);
    }
  }

  predicate LateOnlyIfClosed(s: State) { forall t :: t in s.at && TurnedAwayLate(s.at[t]) ==> s.cells.closed }

  /** And none is turned away as late while the gate is open. */
  lemma {:induction false} LateRejectionHasCause(s: State, es: seq<Event>)
    requires LateOnlyIfClosed(s) && Runs(s, es)
    ensures LateOnlyIfClosed(After(s, es)) && (s.cells.closed ==> After(s, es).cells.closed)
    decreases |es|
  {
    if es == [] {
    } else {
      LateRejectionHasCause(Next(s, es[0]), es[1..]);
    }
  }

  /** The drop counter is not exact: at every capacity there is a run that offers one record,
      comes to rest, and counts two drops. */
  lemma OvercountHappens(s: State)
    requires Initial(s)
    ensures exists f :: Reaches(s, f) && Quiescent(f) && |f.at.Keys| == 1 && f.cells.charges == 2
  {
    EnterWindow(s, 0);
    var a := s.(cells := s.cells.(pending := 1), at := map[0 := Window]);
    var b := Next(a, StartShutdown);
    WholeSweep(b);
    Step(a, StartShutdown, Swept(b));
    Follow(s, a, Swept(b));
    LeaveWindow(Swept(b), 0);
    Moved(map[], 0, Window, HoldsSlot);
    var f := Swept(b).(cells := Swept(b).cells.(pending := 0, charges := 2), at := map[0 := Dropped(PipelineClosed)]);
    assert Swept(b).at[0 := Dropped(PipelineClosed)] == f.at;
    Follow(s, Swept(b), f);
    assert f.at.Keys == {0};
  }

  // ---- the gate never deadlocks ----

  function Restless(s: State): set<Id> { set t | t in s.at && !Settled(s.at[t]) }

  /** How far a record is from its fate once the gate is closed. */
  function Rank(c: Cells, g: Stage): nat {
    match g
    case Arrived => 9
    case Open => 8
    case Trying(seen) => if seen >= c.capacity || seen == c.pending then 6 else 7
    case Window => 5
    case Releasing => 4
    case ReleaseCas(seen) => if seen == c.pending then 2 else 3
    case Dropping(_) => 1
    case Admitted => 3
    case Queued => 2
    case Extracted => 1
    case _ => 0
  }

  function Nudge(g: Stage): Access
    requires !Settled(g) && !g.Extracted?
  {
    match g
    case Arrived => LoadClosed
    case Open => LoadPending
    case Trying(_) => AdmitCas(false)
    case Window => Recheck
    case Releasing => ReleaseLoad
    case ReleaseCas(_) => ReleaseStore(false)
    case Dropping(_) => CountDrop
    case Admitted => Send
    case Queued => Extract
  }

  lemma NudgeStage(c: Cells, g: Stage, queued: nat)
    requires c.closed && !Settled(g) && !g.Extracted? && (g.Queued? ==> c.connected) && c.pending <= c.capacity
    ensures CanAccess(g, Nudge(g), c.connected, Idle) && NextCells(c, g, Nudge(g)).closed
    ensures Rank(NextCells(c, g, Nudge(g)), NextStage(c, g, Nudge(g), queued)) < Rank(c, g)
  {
  }

  lemma NudgeLowersRank(s: State, t: Id)
    requires Inv(s) && s.exporter.Idle? && s.cells.closed && t in s.at && !Settled(s.at[t]) && !s.at[t].Extracted?
    ensures Enabled(s, Record(t, Nudge(s.at[t])))
    ensures var s' := Next(s, Record(t, Nudge(s.at[t])));
      && s'.at.Keys == s.at.Keys && (forall u :: u in s.at && u != t ==> s'.at[u] == s.at[u])
      && Rank(s'.cells, s'.at[t]) < Rank(s.cells, s.at[t])
      && s'.exporter.Idle? && s'.shutdown == s.shutdown && s'.cells.closed
  {
    assert FateOf(s.cells.connected, HasSwapped(s), t in s.swept, t in s.sweptWindow, s.at[t]);
    NudgeStage(s.cells, s.at[t], |Members(s.at, InQueue)|);
  }

  lemma {:induction false} RecordRests(s: State, t: Id)
    requires Inv(s) && s.exporter.Idle? && s.shutdown.Finished? && t in s.at && !Settled(s.at[t])
    ensures exists f :: Reaches(s, f) && f.exporter.Idle? && f.shutdown.Finished? && Restless(f) < Restless(s)
    decreases Rank(s.cells, s.at[t])
  {
    assert t in Restless(s);
    if s.at[t].Extracted? {
      var s1 := Next(s, BeginExport);
      var f := Next(s1, CheckFinalized);
      Here(f);
      Step(s1, CheckFinalized, f);
      Step(s, BeginExport, f);
      assert t !in Restless(f);
    } else {
      NudgeLowersRank(s, t);
      var e := Record(t, Nudge(s.at[t]));
      var s' := Next(s, e);
      StepKeepsInv(s, e);
      if Settled(s'.at[t]) {
        Here(s');
        Step(s, e, s');
        assert t !in Restless(s');
      } else {
        RecordRests(s', t);
        var f :| Reaches(s', f) && f.exporter.Idle? && f.shutdown.Finished? && Restless(f) < Restless(s');
        Step(s, e, f);
        assert Restless(s') == Restless(s);
      }
    }
  }

  lemma ReachKeepsInv(s: State, f: State)
    requires Inv(s) && Reaches(s, f)
    ensures Inv(f)
  {
    var es :| Runs(s, es) && After(s, es) == f;
    RunKeepsInv(s, es);
  }

  lemma {:induction false} RecordsRest(s: State)
    requires Inv(s) && s.exporter.Idle? && s.shutdown.Finished?
    ensures exists f :: Reaches(s, f) && Quiescent(f)
    decreases Restless(s)
  {
    if t :| t in Restless(s) {
      RecordRests(s, t);
      var m :| Reaches(s, m) && m.exporter.Idle? && m.shutdown.Finished? && Restless(m) < Restless(s);
      ReachKeepsInv(s, m);
      RecordsRest(m);
      var f :| Reaches(m, f) && Quiescent(f);
      Follow(s, m, f);
    } else {
      Here(s);
      assert forall t :: t in s.at && !Settled(s.at[t]) ==> t in Restless(s);
    }
  }

  function ExporterRank(s: State): nat {
    match s.exporter
    case Idle => 0
    case Checking => 4
    case Freeing => 3
    case FreeCas(seen) => if seen == s.cells.pending then 1 else 2
  }

  lemma {:induction false} ExporterRests(s: State)
    ensures exists f :: Reaches(s, f) && f.exporter.Idle?
    decreases ExporterRank(s)
  {
    if s.exporter.Idle? {
      Here(s);
    } else {
      var e :=
        if s.exporter.Checking? then CheckFinalized else if s.exporter.Freeing? then FreeLoad else FreeStore(false);
      ExporterRests(Next(s, e));
      var f :| Reaches(Next(s, e), f) && f.exporter.Idle?;
      Step(s, e, f);
    }
  }

  function ShutdownRank(d: Shutdown): nat {
    match d
    case Running => 6
    case Gated => 5
    case Locked => 4
    case Flagged => 3
    case Swapped(_) => 2
    case Adding(_) => 1
    case Finished => 0
  }

  lemma {:induction false} ShutdownRests(s: State)
    requires s.exporter.Idle?
    ensures exists f :: Reaches(s, f) && f.exporter.Idle? && f.shutdown.Finished?
    decreases ShutdownRank(s.shutdown)
  {
    if s.shutdown.Finished? {
      Here(s);
    } else {
      var e := match s.shutdown
               case Running => StartShutdown
               case Gated => LockPending
               case Locked => SetFinalized
               case Flagged => SwapPending
               case Swapped(_) => Unlock
               case _ => AddSwept;
      ShutdownRests(Next(s, e));
      var f :| Reaches(Next(s, e), f) && f.exporter.Idle? && f.shutdown.Finished?;
      Step(s, e, f);
    }
  }

  /** From every reachable state some schedule brings the gate, the worker and every record to rest:
      no interleaving of the mutex, the CAS loops and the sweep can wedge the pipeline. */
  lemma AlwaysCanQuiesce(s: State, es: seq<Event>)
    requires Initial(s) && Runs(s, es)
    ensures exists f :: Reaches(After(s, es), f) && Quiescent(f)
  {
    var a := After(s, es);
    RunKeepsInv(s, es);
    ExporterRests(a);
    var b :| Reaches(a, b) && b.exporter.Idle?;
    ShutdownRests(b);
    var c :| Reaches(b, c) && c.exporter.Idle? && c.shutdown.Finished?;
    Follow(a, b, c);
    ReachKeepsInv(a, c);
    RecordsRest(c);
    var f :| Reaches(c, f) && Quiescent(f);
    Follow(a, c, f);
  }
}
