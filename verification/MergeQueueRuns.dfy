/** Every run of pull-request events, prunings and restarts over the attempts table and its counters. */
module MergeQueueRuns {
  import opened Text
  import opened QueueTimestamp
  import opened TextBatches
  import opened MergeQueueRows

  datatype Action = EnqueuedAction | DequeuedAction | ClosedAction | OtherAction

  /** One authenticated event.  The two times are what parsing made of the text in the payload and of
      the time of receipt: `None` where there is none or the canonical format cannot write it. */
  datatype Event = Event(pullRequest: bool, action: Action, repository: nat, name: string, number: int,
                         merged: Option<bool>, updatedAt: Option<Instant>, receivedAt: Option<Instant>)

  datatype Plan = Ignore | EnqueueAt(at: Instant) | CompleteAt(how: Completion, at: Instant)

  function Transition(e: Event): Option<Option<Completion>> {
    match e.action
    case EnqueuedAction => Some(None)
    case DequeuedAction => Some(Some(Dequeued))
    case ClosedAction => if e.merged == Some(true) then Some(Some(Merged)) else None
    case OtherAction => None
  }

  function EventTime(e: Event): Option<Instant> { if e.updatedAt.Some? then e.updatedAt else e.receivedAt }

  function PlanOf(e: Event): Plan {
    if !e.pullRequest || e.number <= 0 || Transition(e).None? || EventTime(e).None? then Ignore
    else if Transition(e).value.None? then EnqueueAt(EventTime(e).value)
    else CompleteAt(Transition(e).value.value, EventTime(e).value)
  }

  predicate ValidTimes(e: Event) {
    (e.updatedAt.Some? ==> Valid(e.updatedAt.value)) && (e.receivedAt.Some? ==> Valid(e.receivedAt.value))
  }

  function KeyOf(e: Event): Key { Key(e.repository, e.number) }

  // ---- counters ----

  datatype FailureReason = InvalidDuration | MissingActiveAttempt

  /** A counter is named by its label; its value is the multiplicity of the label. */
  datatype Label = Outcome(name: string, how: Completion) | TransitionFailure(name: string, reason: FailureReason)

  const MAX_ATTEMPT_DURATION: int := 365 * 86_400 * 1_000_000_000

  function CompletionLabel(name: string, how: Completion, duration: int): Label {
    if 0 <= duration <= MAX_ATTEMPT_DURATION then Outcome(name, how) else TransitionFailure(name, InvalidDuration)
  }

  // ---- serving one event ----

  datatype StoreError = Unavailable | Internal

  datatype Result = Ignored | Created | AlreadyActive | Completed(enqueuedAt: Instant) | AlreadyCompleted | Missing
      | StoreFailed(error: StoreError)

  datatype Served = Served(rows: Attempts, tally: Option<Label>, result: Result)

  ghost function ActiveId(rows: Attempts, k: Key): nat
    requires ActiveIds(rows, k) != {}
  {
    var i :| i in ActiveIds(rows, k); i
  }

  ghost function EnqueueRow(rows: Attempts, k: Key, at: Instant, id: nat): Served {
    if ActiveIds(rows, k) != {} then Served(rows, None, AlreadyActive)
    else Served(Enqueued(rows, k, at, id), None, Created)
  }

  /** Completing an attempt, where `reading` is what the stored enqueue time is read as. */
  ghost function CompleteReading(rows: Attempts, k: Key, name: string, how: Completion, at: Instant,
      reading: Option<Instant>): Served
    requires Valid(at) && (reading.Some? ==> Valid(reading.value))
  {
    if ActiveIds(rows, k) == {} then
      if Known(rows, k) then Served(rows, None, AlreadyCompleted)
      else Served(rows, Some(TransitionFailure(name, MissingActiveAttempt)), Missing)
    else if reading.None? then Served(rows, None, StoreFailed(Internal))
    else
      var earned := CompletionLabel(name, how, DurationSince(at, reading.value));
      Served(Finished(rows, k, how, at), Some(earned), Completed(reading.value))
  }

  /** What a reader makes of the active attempt's enqueue time, and what the canonical reader does. */
  ghost function Reading(rows: Attempts, k: Key, read: string -> Option<Instant>): Option<Instant> {
    if ActiveIds(rows, k) == {} then None else read(rows[ActiveId(rows, k)].enqueuedAt)
  }

  ghost function CanonicalReading(rows: Attempts, k: Key): (r: Option<Instant>)
    ensures r.Some? ==> Valid(r.value)
  {
    if ActiveIds(rows, k) == {} then None else ParseCanonical(rows[ActiveId(rows, k)].enqueuedAt)
  }

  /** Where every stored time is canonical, the reader does not matter. */
  lemma ReaderDoesNotMatter(rows: Attempts, k: Key, read: string -> Option<Instant>)
    requires AllShaped(rows) && ReadsCanonical(read)
    ensures Reading(rows, k, read) == CanonicalReading(rows, k)
  {
    if ActiveIds(rows, k) != {} {
      assert Shaped(rows[ActiveId(rows, k)]);
      ReadsAlike(read, rows[ActiveId(rows, k)].enqueuedAt);
    }
  }

  ghost function CompleteRow(rows: Attempts, k: Key, name: string, how: Completion, at: Instant): Served
    requires Valid(at)
  {
    CompleteReading(rows, k, name, how, at, CanonicalReading(rows, k))
  }

  /** How the database can fail a transaction: without effect, or with an error that hides a commit. */
  datatype Fault = NoFault | FailsBefore(e: StoreError) | FailsAfterCommit(e: StoreError)

  function Faulted(rows: Attempts, served: Served, fault: Fault): Served {
    match fault
    case NoFault => served
    case FailsBefore(e) => Served(rows, None, StoreFailed(e))
    case FailsAfterCommit(e) => Served(served.rows, None, StoreFailed(e))
  }

  /** What serving an event does when nothing fails. */
  ghost function Carried(rows: Attempts, e: Event, id: nat, reading: Option<Instant>): Served
    requires ValidTimes(e) && (reading.Some? ==> Valid(reading.value))
  {
    match PlanOf(e)
    case Ignore => Served(rows, None, Ignored)
    case EnqueueAt(at) => EnqueueRow(rows, KeyOf(e), at, id)
    case CompleteAt(how, at) => CompleteReading(rows, KeyOf(e), e.name, how, at, reading)
  }

  ghost function ServeReading(rows: Attempts, e: Event, id: nat, fault: Fault, reading: Option<Instant>): Served
    requires ValidTimes(e) && (reading.Some? ==> Valid(reading.value))
  {
    if PlanOf(e).Ignore? then Served(rows, None, Ignored) else Faulted(rows, Carried(rows, e, id, reading), fault)
  }

  ghost function Serve(rows: Attempts, e: Event, id: nat, fault: Fault): Served
    requires ValidTimes(e)
  {
    ServeReading(rows, e, id, fault, CanonicalReading(rows, KeyOf(e)))
  }

  // ---- an event by its fields ----

  /** The payload's own time if it has a usable one, the time of receipt otherwise. */
  predicate Dates(e: Event, text: string) {
    match e.updatedAt
    case Some(t) => text == Format(t)
    case None => e.receivedAt.Some? && text == Format(e.receivedAt.value)
  }

  /** The events that concern the queue: enqueued, dequeued and merged pull requests, with a usable
      number and time. */
  predicate Concerns(e: Event) {
    && e.pullRequest && e.number > 0 && (e.updatedAt.Some? || e.receivedAt.Some?)
    && (e.action == EnqueuedAction || e.action == DequeuedAction
        || (e.action == ClosedAction && e.merged == Some(true)))
  }

  predicate Named(e: Event, a: Attempt) { a.key.repository == e.repository && a.key.number == e.number }

  /** The pending rows of the pull request an event names. */
  function Own(rows: Attempts, e: Event): set<nat> {
    set i | i in rows && rows[i].completedAt.None? && Named(e, rows[i])
  }

  predicate NewRow(e: Event, a: Attempt) {
    Named(e, a) && Dates(e, a.enqueuedAt) && a.completedAt.None? && a.outcome == Pending && a.reason == NoReason
  }

  predicate ClosedRow(e: Event, before: Attempt, a: Attempt) {
    && a.key == before.key && a.enqueuedAt == before.enqueuedAt && a.completedAt.Some? && Dates(e, a.completedAt.value)
    && (if e.action == ClosedAction then a.outcome == Succeeded && a.reason == PullRequestMerged
        else a.outcome == Unknown && a.reason == UnclassifiedDequeue)
  }

  /** All that an event does to the table: an enqueued one adds a row for its own pull request, if none
      is pending there; a dequeued or merged one closes the pending row of its own pull request, if the
      stored time can be read; and everything else stays. */
  ghost predicate EventEffect(rows: Attempts, rows': Attempts, e: Event, id: nat, fault: Fault, readable: bool) {
    var acts := Concerns(e) && !fault.FailsBefore?;
    && rows'.Keys == rows.Keys + (if acts && e.action == EnqueuedAction && Own(rows, e) == {} then {id} else {})
    && (id in rows' ==> NewRow(e, rows'[id]))
    && forall i :: i in rows ==>
         if acts && e.action != EnqueuedAction && i in Own(rows, e) && readable then ClosedRow(e, rows[i], rows'[i])
         else rows'[i] == rows[i]
  }

  /** And what it is answered, and what it has counted. */
  ghost predicate EventAnswer(rows: Attempts, e: Event, fault: Fault, reading: Option<Instant>, served: Served) {
    var own := Own(rows, e) != {};
    var known := exists i :: i in rows && Named(e, rows[i]);
    && (served.result.Ignored? <==> !Concerns(e))
    && (Concerns(e) && !fault.NoFault? ==> served.result == StoreFailed(fault.e))
    && (served.result.Created? <==> Concerns(e) && fault.NoFault? && e.action == EnqueuedAction && !own)
    && (served.result.AlreadyActive? <==> Concerns(e) && fault.NoFault? && e.action == EnqueuedAction && own)
    && (Concerns(e) && fault.NoFault? && e.action != EnqueuedAction ==>
         && (served.result.Completed? <==> own && reading.Some?)
         && (served.result.Completed? ==> Some(served.result.enqueuedAt) == reading)
         && (served.result == StoreFailed(Internal) <==> own && reading.None?)
         && (served.result.AlreadyCompleted? <==> !own && known)
         && (served.result.Missing? <==> !known))
    && (served.tally.Some? <==> served.result.Completed? || served.result.Missing?)
    && (served.result.Missing? ==> served.tally == Some(TransitionFailure(e.name, MissingActiveAttempt)))
    && (served.result.Completed? ==>
         served.tally == Some(Outcome(e.name, if e.action == ClosedAction then Merged else Dequeued))
         || served.tally == Some(TransitionFailure(e.name, InvalidDuration)))
  }

  lemma OwnIsActive(rows: Attempts, e: Event)
    ensures ActiveIds(rows, KeyOf(e)) == Own(rows, e)
    ensures Known(rows, KeyOf(e)) <==> exists i :: i in rows && Named(e, rows[i])
  {
    if i :| i in rows && Named(e, rows[i]) { assert rows[i].key == KeyOf(e); }
    if i :| i in rows && rows[i].key == KeyOf(e) { assert Named(e, rows[i]); }
  }

  lemma EnqueueEffect(rows: Attempts, e: Event, id: nat, fault: Fault, readable: bool)
    requires id !in rows && Concerns(e) && !fault.FailsBefore? && e.action == EnqueuedAction && Own(rows, e) == {}
    ensures PlanOf(e).EnqueueAt?
    ensures EventEffect(rows, Enqueued(rows, KeyOf(e), PlanOf(e).at, id), e, id, fault, readable)
  {
    PlanByFields(e);
  }

  lemma CloseEffect(rows: Attempts, e: Event, id: nat, fault: Fault)
    requires id !in rows && Concerns(e) && !fault.FailsBefore? && e.action != EnqueuedAction
    ensures PlanOf(e).CompleteAt?
    ensures EventEffect(rows, Finished(rows, KeyOf(e), PlanOf(e).how, PlanOf(e).at), e, id, fault, true)
  {
    PlanByFields(e);
    OwnIsActive(rows, e);
  }

  lemma NoEffect(rows: Attempts, e: Event, id: nat, fault: Fault, readable: bool)
    requires id !in rows
    requires Concerns(e) && !fault.FailsBefore? ==>
      if e.action == EnqueuedAction then Own(rows, e) != {} else Own(rows, e) == {} || !readable
    ensures EventEffect(rows, rows, e, id, fault, readable)
  {
  }

  lemma RowsEnqueued(rows: Attempts, e: Event, id: nat, fault: Fault, reading: Option<Instant>)
    requires ValidTimes(e) && (reading.Some? ==> Valid(reading.value))
    requires Concerns(e) && !fault.FailsBefore? && e.action == EnqueuedAction
    ensures PlanOf(e).EnqueueAt?
    ensures ServeReading(rows, e, id, fault, reading).rows
         == if Own(rows, e) == {} then Enqueued(rows, KeyOf(e), PlanOf(e).at, id) else rows
  {
    PlanByFields(e);
    OwnIsActive(rows, e);
  }

  lemma RowsOfCompletion(rows: Attempts, k: Key, name: string, how: Completion, at: Instant, reading: Option<Instant>)
    requires Valid(at) && (reading.Some? ==> Valid(reading.value))
    ensures CompleteReading(rows, k, name, how, at, reading).rows
         == if ActiveIds(rows, k) == {} || reading.None? then rows else Finished(rows, k, how, at)
  {
  }

  lemma RowsCompleted(rows: Attempts, e: Event, id: nat, fault: Fault, reading: Option<Instant>)
    requires ValidTimes(e) && (reading.Some? ==> Valid(reading.value))
    requires Concerns(e) && !fault.FailsBefore? && e.action != EnqueuedAction
    ensures PlanOf(e).CompleteAt?
    ensures ServeReading(rows, e, id, fault, reading).rows
         == if Own(rows, e) == {} || reading.None? then rows
            else Finished(rows, KeyOf(e), PlanOf(e).how, PlanOf(e).at)
  {
    PlanByFields(e);
    PlanTimes(e);
    OwnIsActive(rows, e);
    RowsOfCompletion(rows, KeyOf(e), e.name, PlanOf(e).how, PlanOf(e).at, reading);
  }

  lemma EffectOfServing(rows: Attempts, e: Event, id: nat, fault: Fault, reading: Option<Instant>)
    requires ValidTimes(e) && (reading.Some? ==> Valid(reading.value)) && id !in rows
    ensures EventEffect(rows, ServeReading(rows, e, id, fault, reading).rows, e, id, fault, reading.Some?)
  {
    if !Concerns(e) || fault.FailsBefore? {
      PlanByFields(e);
      NoEffect(rows, e, id, fault, reading.Some?);
    } else if e.action == EnqueuedAction {
      RowsEnqueued(rows, e, id, fault, reading);
      if Own(rows, e) == {} { EnqueueEffect(rows, e, id, fault, reading.Some?); }
      else { NoEffect(rows, e, id, fault, reading.Some?); }
    } else {
      RowsCompleted(rows, e, id, fault, reading);
      if Own(rows, e) == {} || reading.None? { NoEffect(rows, e, id, fault, reading.Some?); }
      else { CloseEffect(rows, e, id, fault); }
    }
  }

  lemma AnswerOfServing(rows: Attempts, e: Event, id: nat, fault: Fault, reading: Option<Instant>)
    requires ValidTimes(e) && (reading.Some? ==> Valid(reading.value))
    ensures EventAnswer(rows, e, fault, reading, ServeReading(rows, e, id, fault, reading))
  {
    PlanByFields(e);
    if Concerns(e) && fault.NoFault? {
      OwnIsActive(rows, e);
      if PlanOf(e).CompleteAt? { AnswerOfCompletion(rows, e, PlanOf(e).how, PlanOf(e).at, reading); }
    }
  }

  lemma AnswerOfCompletion(rows: Attempts, e: Event, how: Completion, at: Instant, reading: Option<Instant>)
    requires Concerns(e) && e.action != EnqueuedAction && how == (if e.action == ClosedAction then Merged else Dequeued)
    requires Valid(at) && (reading.Some? ==> Valid(reading.value))
    ensures EventAnswer(rows, e, NoFault, reading, CompleteReading(rows, KeyOf(e), e.name, how, at, reading))
  {
    OwnIsActive(rows, e);
    if i :| i in Own(rows, e) { assert Named(e, rows[i]); }
  }

  /** Serving an event, for any reading of the stored time, does that and answers so. */
  lemma ServedByFields(rows: Attempts, e: Event, id: nat, fault: Fault, reading: Option<Instant>)
    requires ValidTimes(e) && (reading.Some? ==> Valid(reading.value)) && id !in rows
    ensures var served := ServeReading(rows, e, id, fault, reading);
      && EventEffect(rows, served.rows, e, id, fault, reading.Some?)
      && EventAnswer(rows, e, fault, reading, served)
  {
    EffectOfServing(rows, e, id, fault, reading);
    AnswerOfServing(rows, e, id, fault, reading);
  }

  lemma PlanByFields(e: Event)
    ensures PlanOf(e).Ignore? <==> !Concerns(e)
    ensures PlanOf(e).EnqueueAt? <==> Concerns(e) && e.action == EnqueuedAction
    ensures PlanOf(e).EnqueueAt? ==> Dates(e, Format(PlanOf(e).at))
    ensures PlanOf(e).CompleteAt? ==>
      Dates(e, Format(PlanOf(e).at)) && PlanOf(e).how == (if e.action == ClosedAction then Merged else Dequeued)
  {
  }

  // ---- runs ----

  /** `owing` are counters a request still has to increment: its table change has committed, and any
      other step may come in between.  The ledgers remember what requests were told: `created` and
      `completed` by pull request, `completedBy` by repository name since the last restart; and the
      hidden ones what commits did of which requests were told an error. */
  datatype World = World(rows: Attempts, counters: multiset<Label>, owing: multiset<Label>,
                         created: multiset<Key>, completed: multiset<Key>, completedBy: multiset<string>,
                         hiddenCreated: multiset<Key>, hiddenCompleted: multiset<Key>)

  datatype Step =
    | Request(e: Event, id: nat, fault: Fault)
    | Count(tally: Label)
    | Prune(batch: set<nat>)
    | Restart

  predicate Enabled(w: World, s: Step) {
    match s
    case Request(e, id, _) => ValidTimes(e) && id !in w.rows
    case Count(tally) => tally in w.owing
    case Prune(batch) => batch <= w.rows.Keys && batch !! PendingIds(w.rows)
    case Restart => true
  }

  function One<T(==)>(o: Option<T>): multiset<T> { if o.None? then multiset{} else multiset{o.value} }

  function When<T(==)>(b: bool, x: T): multiset<T> { if b then multiset{x} else multiset{} }

  ghost function Next(w: World, s: Step): World
    requires Enabled(w, s)
  {
    match s
    case Request(e, id, fault) =>
      var k, served := KeyOf(e), Serve(w.rows, e, id, fault);
      var unseen := if fault.FailsAfterCommit? then Carried(w.rows, e, id, CanonicalReading(w.rows, k)).result
          else Ignored;
      World(served.rows, w.counters, w.owing + One(served.tally),
            w.created + When(served.result.Created?, k), w.completed + When(served.result.Completed?, k),
            w.completedBy + When(served.result.Completed?, e.name),
            w.hiddenCreated + When(unseen.Created?, k), w.hiddenCompleted + When(unseen.Completed?, k))
    case Count(tally) => w.(counters := w.counters + multiset{tally}, owing := w.owing - multiset{tally})
    case Prune(batch) => w.(rows := w.rows - batch)
    case Restart => w.(counters := multiset{}, owing := multiset{}, completedBy := multiset{})
  }

  ghost predicate Runs(w: World, steps: seq<Step>)
    decreases |steps|
  {
    steps == [] || (Enabled(w, steps[0]) && Runs(Next(w, steps[0]), steps[1..]))
  }

  ghost function After(w: World, steps: seq<Step>): World
    requires Runs(w, steps)
    decreases |steps|
  {
    if steps == [] then w else After(Next(w, steps[0]), steps[1..])
  }

  const EMPTY: World :=
    World(map[], multiset{}, multiset{}, multiset{}, multiset{}, multiset{}, multiset{}, multiset{})

  /** Everything created, and everything completed, seen or not. */
  function Openings(w: World): multiset<Key> { w.created + w.hiddenCreated }

  function Closings(w: World): multiset<Key> { w.completed + w.hiddenCompleted }

  /** All counters that completions have earned under one repository name. */
  function CompletionCounts(labels: multiset<Label>, name: string): nat {
    labels[Outcome(name, Merged)] + labels[Outcome(name, Dequeued)] + labels[TransitionFailure(name, InvalidDuration)]
  }

  ghost predicate Balanced(w: World) {
    && Openings(w) == Closings(w) + multiset(PendingKeys(w.rows))
    && forall name :: w.completedBy[name] == CompletionCounts(w.counters + w.owing, name)
  }

  ghost predicate Inv(w: World) { WellFormed(w.rows) && Balanced(w) }

  lemma PlanTimes(e: Event)
    requires ValidTimes(e)
    ensures PlanOf(e).EnqueueAt? || PlanOf(e).CompleteAt? ==> Valid(PlanOf(e).at) && e.number > 0
  {
  }

  lemma AddPending(c: multiset<Key>, d: multiset<Key>, ks: set<Key>, k: Key)
    requires c == d + multiset(ks) && k !in ks
    ensures c + multiset{k} == d + multiset(ks + {k})
  {
    assert multiset(ks + {k}) == multiset(ks) + multiset{k};
  }

  lemma MovePending(c: multiset<Key>, d: multiset<Key>, ks: set<Key>, k: Key)
    requires c == d + multiset(ks) && k in ks
    ensures c == d + multiset{k} + multiset(ks - {k})
  {
    assert multiset(ks) == multiset(ks - {k}) + multiset{k};
  }

  lemma CreationBalanced(w: World, rows: Attempts, k: Key)
    requires Balanced(w) && k !in PendingKeys(w.rows) && PendingKeys(rows) == PendingKeys(w.rows) + {k}
    ensures Balanced(w.(rows := rows, created := w.created + multiset{k}))
    ensures Balanced(w.(rows := rows, hiddenCreated := w.hiddenCreated + multiset{k}))
  {
    AddPending(Openings(w), Closings(w), PendingKeys(w.rows), k);
    assert (w.created + multiset{k}) + w.hiddenCreated == Openings(w) + multiset{k};
    assert w.created + (w.hiddenCreated + multiset{k}) == Openings(w) + multiset{k};
  }

  /** A request that creates an attempt, or finds it there. */
  lemma EnqueueNext(w: World, e: Event, id: nat, fault: Fault)
    requires Enabled(w, Request(e, id, fault)) && !fault.FailsBefore? && PlanOf(e).EnqueueAt?
    ensures var k := KeyOf(e);
      var rows := Enqueued(w.rows, k, PlanOf(e).at, id);
      Next(w, Request(e, id, fault))
        == if ActiveIds(w.rows, k) != {} then w
           else if fault.NoFault? then w.(rows := rows, created := w.created + multiset{k})
           else w.(rows := rows, hiddenCreated := w.hiddenCreated + multiset{k})
  {
  }

  lemma EnqueueStep(w: World, e: Event, id: nat, fault: Fault)
    requires Inv(w) && Enabled(w, Request(e, id, fault)) && !fault.FailsBefore? && PlanOf(e).EnqueueAt?
    ensures Inv(Next(w, Request(e, id, fault)))
  {
    var k := KeyOf(e);
    PlanTimes(e);
    EnqueueNext(w, e, id, fault);
    if ActiveIds(w.rows, k) == {} {
      EnqueueKeepsShape(w.rows, k, PlanOf(e).at, id);
      CreationBalanced(w, Enqueued(w.rows, k, PlanOf(e).at, id), k);
    }
  }

  /** Completing an active attempt of a well-formed table. */
  lemma CompletedRow(rows: Attempts, k: Key, name: string, how: Completion, at: Instant)
    requires WellFormed(rows) && Valid(at) && ActiveIds(rows, k) != {}
    ensures var served := CompleteRow(rows, k, name, how, at);
      && served.result.Completed? && served.rows == Finished(rows, k, how, at)
      && served.tally.Some? && EarnedBy(served.tally.value, name)
  {
    assert Shaped(rows[ActiveId(rows, k)]);
  }

  predicate EarnedBy(t: Label, name: string) {
    t == Outcome(name, Merged) || t == Outcome(name, Dequeued) || t == TransitionFailure(name, InvalidDuration)
  }

  lemma BalanceCompletion(counters: multiset<Label>, owing: multiset<Label>, t: Label, author: string, name: string)
    requires EarnedBy(t, author)
    ensures CompletionCounts(counters + (owing + multiset{t}), name)
         == CompletionCounts(counters + owing, name) + multiset{author}[name]
  {
  }

  lemma BalanceOther(counters: multiset<Label>, owing: multiset<Label>, author: string, name: string)
    ensures var missing := multiset{TransitionFailure(author, MissingActiveAttempt)};
      CompletionCounts(counters + (owing + missing), name) == CompletionCounts(counters + owing, name)
  {
  }

  /** A request that completes an attempt. */
  lemma CompletedNext(w: World, e: Event, id: nat, fault: Fault)
    requires WellFormed(w.rows) && Enabled(w, Request(e, id, fault)) && !fault.FailsBefore?
    requires PlanOf(e).CompleteAt? && ActiveIds(w.rows, KeyOf(e)) != {} && Valid(PlanOf(e).at)
    ensures var k, how, at := KeyOf(e), PlanOf(e).how, PlanOf(e).at;
      var served := CompleteRow(w.rows, k, e.name, how, at);
      && served.tally.Some? && EarnedBy(served.tally.value, e.name)
      && Next(w, Request(e, id, fault))
         == if fault.NoFault? then ToldCompleted(w, Finished(w.rows, k, how, at), k, e.name, served.tally.value)
            else w.(rows := Finished(w.rows, k, how, at), hiddenCompleted := w.hiddenCompleted + multiset{k})
  {
    CompletedRow(w.rows, KeyOf(e), e.name, PlanOf(e).how, PlanOf(e).at);
  }

  function ToldCompleted(w: World, rows: Attempts, k: Key, author: string, t: Label): World {
    w.(rows := rows, owing := w.owing + multiset{t}, completed := w.completed + multiset{k},
       completedBy := w.completedBy + multiset{author})
  }

  lemma CompleteStep(w: World, e: Event, id: nat, fault: Fault)
    requires Inv(w) && Enabled(w, Request(e, id, fault)) && !fault.FailsBefore?
    requires PlanOf(e).CompleteAt? && ActiveIds(w.rows, KeyOf(e)) != {}
    ensures Inv(Next(w, Request(e, id, fault)))
  {
    var k, how, at := KeyOf(e), PlanOf(e).how, PlanOf(e).at;
    PlanTimes(e);
    CompletedNext(w, e, id, fault);
    FinishKeepsShape(w.rows, k, how, at);
    NotActive(w.rows, k);
    CompletionBalanced(w, Finished(w.rows, k, how, at), k, e.name, CompleteRow(w.rows, k, e.name, how, at).tally.value);
  }

  lemma CompletionBalanced(w: World, rows: Attempts, k: Key, author: string, t: Label)
    requires Balanced(w) && EarnedBy(t, author) && k in PendingKeys(w.rows)
        && PendingKeys(rows) == PendingKeys(w.rows) - {k}
    ensures Balanced(ToldCompleted(w, rows, k, author, t))
    ensures Balanced(w.(rows := rows, hiddenCompleted := w.hiddenCompleted + multiset{k}))
  {
    MovePending(Openings(w), Closings(w), PendingKeys(w.rows), k);
    assert (w.completed + multiset{k}) + w.hiddenCompleted == Closings(w) + multiset{k};
    assert w.completed + (w.hiddenCompleted + multiset{k}) == Closings(w) + multiset{k};
    forall name
      ensures (w.completedBy + multiset{author})[name] == CompletionCounts(w.counters + (w.owing + multiset{t}), name)
    {
      BalanceCompletion(w.counters, w.owing, t, author, name);
    }
  }

  lemma MissStep(w: World, e: Event, id: nat, fault: Fault)
    requires Inv(w) && Enabled(w, Request(e, id, fault)) && !fault.FailsBefore?
    requires PlanOf(e).CompleteAt? && ActiveIds(w.rows, KeyOf(e)) == {}
    ensures Inv(Next(w, Request(e, id, fault)))
  {
    PlanTimes(e);
    MissBalanced(w, e.name);
    MissNext(w, e, id, fault);
  }

  lemma MissNext(w: World, e: Event, id: nat, fault: Fault)
    requires Enabled(w, Request(e, id, fault)) && !fault.FailsBefore?
    requires PlanOf(e).CompleteAt? && ActiveIds(w.rows, KeyOf(e)) == {}
    ensures Next(w, Request(e, id, fault))
         == if Known(w.rows, KeyOf(e)) || fault.FailsAfterCommit? then w
            else w.(owing := w.owing + multiset{TransitionFailure(e.name, MissingActiveAttempt)})
  {
    PlanTimes(e);
  }

  lemma MissBalanced(w: World, author: string)
    requires Balanced(w)
    ensures Balanced(w.(owing := w.owing + multiset{TransitionFailure(author, MissingActiveAttempt)}))
  {
    forall name
      ensures w.completedBy[name]
           == CompletionCounts(w.counters + (w.owing + multiset{TransitionFailure(author, MissingActiveAttempt)}), name)
    {
      BalanceOther(w.counters, w.owing, author, name);
    }
  }

  lemma Unserved(w: World, e: Event, id: nat, fault: Fault)
    requires Enabled(w, Request(e, id, fault)) && (fault.FailsBefore? || PlanOf(e).Ignore?)
    ensures Next(w, Request(e, id, fault)) == w
  {
  }

  lemma StepKeepsInv(w: World, s: Step)
    requires Inv(w) && Enabled(w, s)
    ensures Inv(Next(w, s))
  {
    match s
    case Request(e, id, fault) =>
      if fault.FailsBefore? || PlanOf(e).Ignore? { Unserved(w, e, id, fault); }
      else if PlanOf(e).EnqueueAt? { EnqueueStep(w, e, id, fault); }
      else if ActiveIds(w.rows, KeyOf(e)) != {} { CompleteStep(w, e, id, fault); }
      else { MissStep(w, e, id, fault); }
    case Count(tally) =>
      assert (w.counters + multiset{tally}) + (w.owing - multiset{tally}) == w.counters + w.owing;
    case Prune(batch) => PruneKeepsShape(w.rows, batch);
    case Restart =>
  }

  /** At every moment of every run: one pending attempt per pull request and only well-formed rows;
      what was created is what was completed plus what is pending; and under every repository name
      completions and completion counters differ only by increments still owed. */
  lemma {:induction false} RunKeepsInv(w: World, steps: seq<Step>)
    requires Inv(w) && Runs(w, steps)
    ensures Inv(After(w, steps))
    decreases |steps|
  {
    if steps == [] {
    } else {
      StepKeepsInv(w, steps[0]);
      RunKeepsInv(Next(w, steps[0]), steps[1..]);
    }
  }

  lemma Conservation(steps: seq<Step>)
    requires Runs(EMPTY, steps)
    ensures var w := After(EMPTY, steps);
      && OnePending(w.rows) && (forall i :: i in w.rows ==> Shaped(w.rows[i]))
      && |w.created| + |w.hiddenCreated| == |w.completed| + |w.hiddenCompleted| + |PendingIds(w.rows)|
      && (forall k ::
         w.created[k] + w.hiddenCreated[k] == w.completed[k] + w.hiddenCompleted[k] + |ActiveIds(w.rows, k)|)
      && (w.owing == multiset{} ==> forall name :: w.completedBy[name] == CompletionCounts(w.counters, name))
    ensures (forall i :: 0 <= i < |steps| && steps[i].Request? ==> !steps[i].fault.FailsAfterCommit?)
            ==> After(EMPTY, steps).hiddenCreated == After(EMPTY, steps).hiddenCompleted == multiset{}
  {
    StartKeepsInv();
    RunKeepsInv(EMPTY, steps);
    var w := After(EMPTY, steps);
    assert |Openings(w)| == |Closings(w)| + |multiset(PendingKeys(w.rows))|;
    PendingRowsAreKeys(w.rows, PendingIds(w.rows));
    forall k
      ensures w.created[k] + w.hiddenCreated[k] == w.completed[k] + w.hiddenCompleted[k] + |ActiveIds(w.rows, k)|
    {
      ActiveCount(w.rows, k);
      assert Openings(w)[k] == Closings(w)[k] + multiset(PendingKeys(w.rows))[k];
    }
    if w.owing == multiset{} { assert w.counters + w.owing == w.counters; }
    if forall i :: 0 <= i < |steps| && steps[i].Request? ==> !steps[i].fault.FailsAfterCommit? {
      NothingHidden(EMPTY, steps);
    }
  }

  lemma {:induction false} NothingHidden(w: World, steps: seq<Step>)
    requires Runs(w, steps)
    requires forall i :: 0 <= i < |steps| && steps[i].Request? ==> !steps[i].fault.FailsAfterCommit?
    ensures After(w, steps).hiddenCreated == w.hiddenCreated && After(w, steps).hiddenCompleted == w.hiddenCompleted
    decreases |steps|
  {
    if steps == [] {
    } else {
      var v := Next(w, steps[0]);
      assert v.hiddenCreated == w.hiddenCreated && v.hiddenCompleted == w.hiddenCompleted;
      NothingHidden(v, steps[1..]);
    }
  }

  lemma StartKeepsInv()
    ensures Inv(EMPTY)
  {
    assert PendingKeys(map[]) == {};
  }

  lemma ActiveCount(rows: Attempts, k: Key)
    requires OnePending(rows)
    ensures |ActiveIds(rows, k)| == multiset(PendingKeys(rows))[k]
  {
    NotActive(rows, k);
    if ActiveIds(rows, k) != {} {
      var i :| i in ActiveIds(rows, k);
      assert i in PendingIds(rows);
      assert ActiveIds(rows, k) == {i};
    }
  }

  // ---- what an event finds ----

  /** The three answers to a completion say exactly what the table held; repeating a request that went
      through changes nothing. */
  lemma AnswersAreExact(w: World, e: Event, id: nat)
    requires Inv(w) && Enabled(w, Request(e, id, NoFault)) && PlanOf(e).CompleteAt?
    ensures var served := Serve(w.rows, e, id, NoFault);
      && (served.result.Completed? <==> KeyOf(e) in PendingKeys(w.rows))
      && (served.result.AlreadyCompleted? <==> KeyOf(e) !in PendingKeys(w.rows) && Known(w.rows, KeyOf(e)))
      && (served.result.Missing? <==> !Known(w.rows, KeyOf(e)))
      && (served.result.Completed? ==>
         Serve(served.rows, e, id, NoFault) == Served(served.rows, None, AlreadyCompleted))
  {
    var k := KeyOf(e);
    NotActive(w.rows, k);
    if ActiveIds(w.rows, k) != {} {
      var i := ActiveId(w.rows, k);
      assert i in w.rows && w.rows[i].key == k && Shaped(w.rows[i]);
      var rows' := Serve(w.rows, e, id, NoFault).rows;
      assert i in rows' && rows'[i].key == k;
      assert ActiveIds(rows', k) == {};
    }
  }

  /** What retention has deleted is forgotten: a repeated completion is then answered, and counted, as one
      that misses its attempt. */
  lemma PrunedIsForgotten(w: World, batch: set<nat>, e: Event, id: nat)
    requires Enabled(w, Prune(batch)) && ValidTimes(e) && Concerns(e) && e.action != EnqueuedAction
    requires forall i :: i in w.rows && Named(e, w.rows[i]) ==> i in batch
    ensures var served := Serve(Next(w, Prune(batch)).rows, e, id, NoFault);
      served.result == Missing && served.tally == Some(TransitionFailure(e.name, MissingActiveAttempt))
  {
    var rows := Next(w, Prune(batch)).rows;
    AnswerOfServing(rows, e, id, NoFault, CanonicalReading(rows, KeyOf(e)));
  }

  lemma EnqueueIsIdempotent(w: World, e: Event, id: nat, later: Event, id': nat)
    requires Inv(w) && Enabled(w, Request(e, id, NoFault)) && PlanOf(e).EnqueueAt?
    requires ValidTimes(later) && PlanOf(later).EnqueueAt? && KeyOf(later) == KeyOf(e)
    ensures var served := Serve(w.rows, e, id, NoFault);
      && (served.result.Created? <==> KeyOf(e) !in PendingKeys(w.rows)) && served.tally.None?
      && Serve(served.rows, later, id', NoFault) == Served(served.rows, None, AlreadyActive)
  {
    var k := KeyOf(e);
    NotActive(w.rows, k);
    var rows' := Serve(w.rows, e, id, NoFault).rows;
    if ActiveIds(w.rows, k) == {} {
      assert id in ActiveIds(rows', k);
    }
  }

  // ---- the evidence for every row ----

  predicate Starts(e: Event, a: Attempt) {
    e.pullRequest && e.action == EnqueuedAction && KeyOf(e) == a.key && Dates(e, a.enqueuedAt)
  }

  predicate Ends(e: Event, a: Attempt) {
    && e.pullRequest && KeyOf(e) == a.key && a.completedAt.Some? && Dates(e, a.completedAt.value)
    && (if e.action == ClosedAction then e.merged == Some(true) && a.outcome == Succeeded
       && a.reason == PullRequestMerged
        else e.action == DequeuedAction && a.outcome == Unknown && a.reason == UnclassifiedDequeue)
  }

  ghost predicate Started(past: seq<Step>, a: Attempt) {
    exists n :: 0 <= n < |past| && past[n].Request? && Starts(past[n].e, a)
  }

  ghost predicate Ended(past: seq<Step>, a: Attempt) {
    exists n :: 0 <= n < |past| && past[n].Request? && Ends(past[n].e, a)
  }

  ghost predicate Backed(past: seq<Step>, a: Attempt) { Started(past, a) && (IsPending(a) || Ended(past, a)) }

  lemma BackedLater(past: seq<Step>, s: Step, a: Attempt)
    requires Backed(past, a)
    ensures Backed(past + [s], a)
  {
    var n :| 0 <= n < |past| && past[n].Request? && Starts(past[n].e, a);
    assert (past + [s])[n] == past[n];
    if !IsPending(a) {
      var m :| 0 <= m < |past| && past[m].Request? && Ends(past[m].e, a);
      assert (past + [s])[m] == past[m];
    }
  }

  lemma CreatedIsBacked(past: seq<Step>, s: Step, a: Attempt)
    requires s.Request? && Starts(s.e, a) && IsPending(a)
    ensures Backed(past + [s], a)
  {
    assert (past + [s])[|past|] == s;
  }

  lemma CompletionEnds(e: Event, a: Attempt)
    requires PlanOf(e).CompleteAt? && KeyOf(e) == a.key
    ensures Ends(e, Closed(a, PlanOf(e).how, PlanOf(e).at))
  {
  }

  lemma ClosedIsBacked(past: seq<Step>, s: Step, a: Attempt, how: Completion, at: Instant)
    requires s.Request? && Backed(past, a) && Ends(s.e, Closed(a, how, at))
    ensures Backed(past + [s], Closed(a, how, at))
  {
    BackedLater(past, s, a);
    var n :| 0 <= n < |past + [s]| && (past + [s])[n].Request? && Starts((past + [s])[n].e, a);
    assert Starts((past + [s])[n].e, Closed(a, how, at));
    assert (past + [s])[|past|] == s;
  }

  ghost predicate AllBacked(past: seq<Step>, rows: Attempts) { forall i :: i in rows ==> Backed(past, rows[i]) }

  lemma SameBacked(past: seq<Step>, s: Step, rows: Attempts, rows': Attempts)
    requires AllBacked(past, rows) && forall i :: i in rows' ==> i in rows && rows'[i] == rows[i]
    ensures AllBacked(past + [s], rows')
  {
    forall i | i in rows'
      ensures Backed(past + [s], rows'[i])
    {
      BackedLater(past, s, rows[i]);
    }
  }

  lemma CompletionBacked(past: seq<Step>, w: World, s: Step)
    requires AllBacked(past, w.rows) && WellFormed(w.rows) && Enabled(w, s) && s.Request? && !s.fault.FailsBefore?
    requires PlanOf(s.e).CompleteAt? && ActiveIds(w.rows, KeyOf(s.e)) != {}
    ensures AllBacked(past + [s], Next(w, s).rows)
  {
    var k, how, at := KeyOf(s.e), PlanOf(s.e).how, PlanOf(s.e).at;
    PlanTimes(s.e);
    CompletedNext(w, s.e, s.id, s.fault);
    forall i | i in w.rows
      ensures Backed(past + [s], Finished(w.rows, k, how, at)[i])
    {
      BackedLater(past, s, w.rows[i]);
      if i in ActiveIds(w.rows, k) {
        CompletionEnds(s.e, w.rows[i]);
        ClosedIsBacked(past, s, w.rows[i], how, at);
      }
    }
  }

  lemma PutBacked(past: seq<Step>, rows: Attempts, id: nat, a: Attempt)
    requires AllBacked(past, rows) && Backed(past, a)
    ensures AllBacked(past, rows[id := a])
  {
  }

  lemma CreationBacked(past: seq<Step>, rows: Attempts, s: Step, at: Instant, id: nat)
    requires AllBacked(past, rows) && s.Request? && s.e.pullRequest && s.e.action == EnqueuedAction
        && Dates(s.e, Format(at))
    ensures AllBacked(past + [s], Enqueued(rows, KeyOf(s.e), at, id))
  {
    SameBacked(past, s, rows, rows);
    var a := Attempt(KeyOf(s.e), Format(at), None, Pending, NoReason);
    CreatedIsBacked(past, s, a);
    PutBacked(past + [s], rows, id, a);
  }

  lemma RequestBacked(past: seq<Step>, w: World, s: Step)
    requires AllBacked(past, w.rows) && Inv(w) && Enabled(w, s) && s.Request? && !s.fault.FailsBefore?
        && !PlanOf(s.e).Ignore?
    ensures AllBacked(past + [s], Next(w, s).rows)
  {
    if PlanOf(s.e).EnqueueAt? {
      EnqueueBacked(past, w, s);
    } else if ActiveIds(w.rows, KeyOf(s.e)) != {} {
      CompletionBacked(past, w, s);
    } else {
      MissNext(w, s.e, s.id, s.fault);
      SameBacked(past, s, w.rows, w.rows);
    }
  }

  lemma EnqueueBacked(past: seq<Step>, w: World, s: Step)
    requires AllBacked(past, w.rows) && Enabled(w, s) && s.Request? && !s.fault.FailsBefore? && PlanOf(s.e).EnqueueAt?
    ensures AllBacked(past + [s], Next(w, s).rows)
  {
    EnqueueNext(w, s.e, s.id, s.fault);
    if ActiveIds(w.rows, KeyOf(s.e)) != {} {
      SameBacked(past, s, w.rows, w.rows);
    } else {
      CreationBacked(past, w.rows, s, PlanOf(s.e).at, s.id);
    }
  }

  lemma StepBacked(past: seq<Step>, w: World, s: Step)
    requires AllBacked(past, w.rows) && Inv(w) && Enabled(w, s)
    ensures AllBacked(past + [s], Next(w, s).rows)
  {
    if s.Request? {
      if s.fault.FailsBefore? || PlanOf(s.e).Ignore? {
        Unserved(w, s.e, s.id, s.fault);
        SameBacked(past, s, w.rows, w.rows);
      } else {
        RequestBacked(past, w, s);
      }
    } else {
      SameBacked(past, s, w.rows, Next(w, s).rows);
    }
  }

  /** Every row of the table goes back to the events that made it: an enqueued event set its start, and
      it counts as succeeded only on a merged close, as unknown only on a dequeue. */
  lemma {:induction false} EveryRowHasEvidence(past: seq<Step>, w: World, steps: seq<Step>)
    requires AllBacked(past, w.rows) && Inv(w) && Runs(w, steps)
    ensures AllBacked(past + steps, After(w, steps).rows)
    decreases |steps|
  {
    if steps == [] {
      assert past + steps == past;
    } else {
      StepBacked(past, w, steps[0]);
      StepKeepsInv(w, steps[0]);
      EveryRowHasEvidence(past + [steps[0]], Next(w, steps[0]), steps[1..]);
      assert past + [steps[0]] + steps[1..] == past + steps;
    }
  }

  // ---- the recorded duration ----

  predicate Holding(rows: Attempts, i: nat, a: Attempt) { i in rows && rows[i] == a }

  lemma PendingRowStays(w: World, s: Step, i: nat)
    requires Inv(w) && Enabled(w, s) && i in PendingIds(w.rows)
    ensures Closings(Next(w, s))[w.rows[i].key] == Closings(w)[w.rows[i].key] ==> Holding(Next(w, s).rows, i, w.rows[i])
  {
    match s
    case Request(e, id, fault) =>
      if fault.FailsBefore? || PlanOf(e).Ignore? { Unserved(w, e, id, fault); }
      else if PlanOf(e).CompleteAt? { PendingRowPassed(w, e, id, fault, i); }
      else { PendingRowBeside(w, e, id, fault, i); }
    case _ =>
  }

  lemma PendingRowPassed(w: World, e: Event, id: nat, fault: Fault, i: nat)
    requires Inv(w) && Enabled(w, Request(e, id, fault)) && !fault.FailsBefore?
    requires PlanOf(e).CompleteAt? && i in PendingIds(w.rows)
    ensures var v := Next(w, Request(e, id, fault));
      Closings(v)[w.rows[i].key] == Closings(w)[w.rows[i].key] ==> Holding(v.rows, i, w.rows[i])
  {
    if ActiveIds(w.rows, KeyOf(e)) == {} { MissNext(w, e, id, fault); }
    else { PendingRowCompleted(w, e, id, fault, i); }
  }

  lemma PendingRowBeside(w: World, e: Event, id: nat, fault: Fault, i: nat)
    requires Enabled(w, Request(e, id, fault)) && !fault.FailsBefore? && PlanOf(e).EnqueueAt? && i in w.rows
    ensures Holding(Next(w, Request(e, id, fault)).rows, i, w.rows[i])
  {
    EnqueueNext(w, e, id, fault);
  }

  lemma PendingRowCompleted(w: World, e: Event, id: nat, fault: Fault, i: nat)
    requires Inv(w) && Enabled(w, Request(e, id, fault)) && !fault.FailsBefore?
    requires PlanOf(e).CompleteAt? && i in PendingIds(w.rows) && ActiveIds(w.rows, KeyOf(e)) != {}
    ensures var v := Next(w, Request(e, id, fault));
      if KeyOf(e) == w.rows[i].key then Closings(v)[KeyOf(e)] == Closings(w)[KeyOf(e)] + 1
          else Holding(v.rows, i, w.rows[i])
  {
    PlanTimes(e);
    CompletedNext(w, e, id, fault);
  }

  lemma StepCloses(w: World, s: Step)
    requires Enabled(w, s)
    ensures Closings(w) <= Closings(Next(w, s))
  {
  }

  lemma {:induction false} CompletedGrows(w: World, steps: seq<Step>)
    requires Runs(w, steps)
    ensures Closings(w) <= Closings(After(w, steps))
    decreases |steps|
  {
    if steps == [] {
    } else {
      StepCloses(w, steps[0]);
      CompletedGrows(Next(w, steps[0]), steps[1..]);
    }
  }

  /** As long as nobody completes it, a pending attempt stays as it was enqueued, through any prunings,
      restarts, failures and repeated enqueueings. */
  lemma {:induction false} PendingSurvives(w: World, steps: seq<Step>, i: nat)
    requires Inv(w) && Runs(w, steps) && i in PendingIds(w.rows)
    requires Closings(After(w, steps))[w.rows[i].key] == Closings(w)[w.rows[i].key]
    ensures Holding(After(w, steps).rows, i, w.rows[i])
    decreases |steps|
  {
    if steps == [] {
    } else {
      var next := Next(w, steps[0]);
      PendingRowStays(w, steps[0], i);
      CompletedGrows(next, steps[1..]);
      StepCloses(w, steps[0]);
      assert Closings(next)[w.rows[i].key] == Closings(w)[w.rows[i].key];
      StepKeepsInv(w, steps[0]);
      PendingSurvives(next, steps[1..], i);
    }
  }

  /** The counter an attempt deserves by its true times: the stored enqueue time lost `excess`. */
  function TrueLabel(name: string, how: Completion, enqueued: Instant, done: Instant): Label
    requires Valid(enqueued) && Valid(done)
  {
    var excess := enqueued.nano % NANOS_PER_MILLI;
    if -excess <= DurationSince(done, enqueued) <= MAX_ATTEMPT_DURATION - excess then Outcome(name, how)
    else TransitionFailure(name, InvalidDuration)
  }

  /** From creation to completion, whatever lies between: the completion is counted under its outcome
      exactly when the true duration, plus what truncating the enqueue time to milliseconds added,
      lies between zero and a year. */
  lemma AttemptDuration(w: World, first: Event, id: nat, fault: Fault, between: seq<Step>, last: Event, id': nat)
    requires Inv(w) && Enabled(w, Request(first, id, fault)) && !fault.FailsBefore? && PlanOf(first).EnqueueAt?
    requires KeyOf(first) !in PendingKeys(w.rows)
    requires Runs(Next(w, Request(first, id, fault)), between)
    requires PlanOf(last).CompleteAt? && KeyOf(last) == KeyOf(first)
    requires var v := After(Next(w, Request(first, id, fault)), between);
      Enabled(v, Request(last, id', NoFault)) && Closings(v)[KeyOf(first)] == Closings(w)[KeyOf(first)]
    ensures var v := After(Next(w, Request(first, id, fault)), between);
      var enqueued, done := PlanOf(first).at, PlanOf(last).at;
      var served := Serve(v.rows, last, id', NoFault);
      && Valid(enqueued) && Valid(done) && served.result == Completed(Truncate(enqueued))
      && served.tally == Some(TrueLabel(last.name, PlanOf(last).how, enqueued, done))
  {
    var u := Next(w, Request(first, id, fault));
    FirstCreates(w, first, id, fault);
    PendingSurvives(u, between, id);
    RunKeepsInv(u, between);
    CompletionOf(After(u, between).rows, id, PlanOf(first).at, last, id');
  }

  lemma FirstCreates(w: World, first: Event, id: nat, fault: Fault)
    requires Inv(w) && Enabled(w, Request(first, id, fault)) && !fault.FailsBefore? && PlanOf(first).EnqueueAt?
    requires KeyOf(first) !in PendingKeys(w.rows)
    ensures var u, at := Next(w, Request(first, id, fault)), PlanOf(first).at;
      Inv(u) && Valid(at) && Closings(u) == Closings(w) && id in PendingIds(u.rows)
      && u.rows[id].key == KeyOf(first) && u.rows[id].enqueuedAt == Format(at)
  {
    PlanTimes(first);
    NotActive(w.rows, KeyOf(first));
    EnqueueNext(w, first, id, fault);
    StepKeepsInv(w, Request(first, id, fault));
  }

  lemma CompletionOf(rows: Attempts, id: nat, enqueued: Instant, last: Event, id': nat)
    requires WellFormed(rows) && id in PendingIds(rows) && Valid(enqueued) && rows[id].enqueuedAt == Format(enqueued)
    requires ValidTimes(last) && PlanOf(last).CompleteAt? && KeyOf(last) == rows[id].key
    ensures var served, done := Serve(rows, last, id', NoFault), PlanOf(last).at;
      && Valid(done) && served.result == Completed(Truncate(enqueued))
      && served.tally == Some(TrueLabel(last.name, PlanOf(last).how, enqueued, done))
  {
    PlanTimes(last);
    OnlyActive(rows, id);
    FormatIsStamp(enqueued);
    StoredExcess(enqueued, PlanOf(last).at);
  }

  lemma OnlyActive(rows: Attempts, id: nat)
    requires OnePending(rows) && id in PendingIds(rows)
    ensures ActiveIds(rows, rows[id].key) == {id} && ActiveId(rows, rows[id].key) == id
  {
  }

  lemma StoredExcess(enqueued: Instant, done: Instant)
    requires Valid(enqueued) && Valid(done)
    ensures Valid(Truncate(enqueued))
    ensures DurationSince(done, Truncate(enqueued)) == DurationSince(done, enqueued) + enqueued.nano % NANOS_PER_MILLI
  {
    TruncationCost(enqueued);
  }
}
