/** Shutting down the telemetry providers within one shared deadline. */
module ShutdownTasks {

  datatype Kind = Trace | Log | Sentry

  datatype Reason = ShutdownFailed | DeadlinePassed

  datatype Issue = Issue(kind: Kind, reason: Reason)

  datatype Outcome = Completed | Failed | TimedOut

  datatype Message = Message(kind: Kind, succeeded: bool)

  const KINDS: seq<Kind> := [Trace, Log, Sentry]

  function Slot(k: Kind): (i: nat)
    ensures i < 3 && KINDS[i] == k
  {
    match k
    case Trace => 0
    case Log => 1
    case Sentry => 2
  }

  predicate Distinct(tasks: seq<Kind>) {
    forall i, j :: 0 <= i < j < |tasks| ==> tasks[i] != tasks[j]
  }

  /** The threads that were really started. */
  function Spawned(tasks: seq<Kind>, spawns: seq<bool>): set<Kind>
    requires |tasks| == |spawns|
  {
    set i | 0 <= i < |tasks| && spawns[i] :: tasks[i]
  }

  /** What a channel can deliver before the deadline: at most one message from each started thread. */
  predicate Delivered(messages: seq<Message>, spawned: set<Kind>) {
    && (forall i :: 0 <= i < |messages| ==> messages[i].kind in spawned)
    && (forall i, j :: 0 <= i < j < |messages| ==> messages[i].kind != messages[j].kind)
  }

  predicate Reported(messages: seq<Message>, k: Kind) {
    exists i :: 0 <= i < |messages| && messages[i].kind == k
  }

  predicate Succeeded(messages: seq<Message>, k: Kind) { Message(k, true) in messages }

  /** The one diagnostic a task deserves, if any. */
  function Deserved(tasks: seq<Kind>, spawned: set<Kind>, messages: seq<Message>, k: Kind): seq<Issue> {
    if k !in tasks || Succeeded(messages, k) then []
    else if k in spawned && !Reported(messages, k) then [Issue(k, DeadlinePassed)]
    else [Issue(k, ShutdownFailed)]
  }

  function About(issues: seq<Issue>, k: Kind): seq<Issue> {
    if issues == [] then []
    else About(issues[..|issues| - 1], k) + (if issues[|issues| - 1].kind == k then [issues[|issues| - 1]] else [])
  }

  lemma AboutAppend(issues: seq<Issue>, x: Issue, k: Kind)
    ensures About(issues + [x], k) == About(issues, k) + (if x.kind == k then [x] else [])
  {
    assert (issues + [x])[..|issues|] == issues;
  }

  function PendingCount(pending: seq<bool>): nat {
    if pending == [] then 0 else PendingCount(pending[..|pending| - 1]) + (if pending[|pending| - 1] then 1 else 0)
  }

  lemma PendingOf(p: seq<bool>)
    requires |p| == 3
    ensures PendingCount(p) == (if p[0] then 1 else 0) + (if p[1] then 1 else 0) + (if p[2] then 1 else 0)
  {
    assert p[..2][..1] == p[..1] && p[..1][..0] == [];
    assert PendingCount(p[..1]) == if p[0] then 1 else 0;
  }

  /** `pending` marks exactly the tasks of `waiting`. */
  predicate Marks(pending: seq<bool>, waiting: set<Kind>) {
    |pending| == 3 && forall k :: pending[Slot(k)] <==> k in waiting
  }

  /** The tasks started but not heard from. */
  function Waiting(spawned: set<Kind>, messages: seq<Message>): set<Kind> {
    set k | k in spawned && !Reported(messages, k)
  }

  function Unspawned(tasks: seq<Kind>, spawned: set<Kind>, k: Kind): seq<Issue> {
    if k in tasks && k !in spawned then [Issue(k, ShutdownFailed)] else []
  }

  /** The diagnostics written before the late tasks are swept up. */
  function EarlyIssues(tasks: seq<Kind>, spawned: set<Kind>, messages: seq<Message>, k: Kind): seq<Issue> {
    if k in tasks && (k !in spawned || Message(k, false) in messages) then [Issue(k, ShutdownFailed)] else []
  }

  lemma NewFailure(tasks: seq<Kind>, spawned: set<Kind>, i: nat, issues: seq<Issue>)
    requires Distinct(tasks) && i < |tasks| && tasks[i] !in spawned
    requires forall k :: About(issues, k) == Unspawned(tasks[..i], spawned, k)
    ensures forall k :: About(issues + [Issue(tasks[i], ShutdownFailed)], k) == Unspawned(tasks[..i + 1], spawned, k)
  {
    forall k
      ensures About(issues + [Issue(tasks[i], ShutdownFailed)], k) == Unspawned(tasks[..i + 1], spawned, k)
    {
      AboutAppend(issues, Issue(tasks[i], ShutdownFailed), k);
      assert tasks[..i + 1] == tasks[..i] + [tasks[i]];
    }
  }

  method SpawnTasks(tasks: seq<Kind>, spawns: seq<bool>, pending: array<bool>)
    returns (remaining: nat, failed: bool, issues: seq<Issue>)
    requires Distinct(tasks) && |spawns| == |tasks| && pending[..] == [false, false, false]
    modifies pending
    ensures Marks(pending[..], Spawned(tasks, spawns)) && remaining == PendingCount(pending[..])
    ensures forall k :: About(issues, k) == Unspawned(tasks, Spawned(tasks, spawns), k)
    ensures failed <==> issues != []
  {
    ghost var spawned := Spawned(tasks, spawns);
    remaining, failed, issues := 0, false, [];
    PendingOf(pending[..]);
    for i := 0 to |tasks|
      invariant pending.Length == 3 && remaining == PendingCount(pending[..])
      invariant forall k :: pending[Slot(k)] <==> k in tasks[..i] && k in spawned
      invariant forall k :: About(issues, k) == Unspawned(tasks[..i], spawned, k)
      invariant failed <==> issues != []
    {
      var kind := tasks[i];
      NewTask(tasks, spawns, i);
      if spawns[i] {
        PendingOf(pending[..]);
        pending[Slot(kind)] := true;
        PendingOf(pending[..]);
        remaining := remaining + 1;
      } else {
        failed := true;
        NewFailure(tasks, spawned, i, issues);
        issues := issues + [Issue(kind, ShutdownFailed)];
      }
    }
    assert tasks[..|tasks|] == tasks;
    assert forall k :: k in spawned ==> k in tasks;
  }

  method ReceiveResults(tasks: seq<Kind>, ghost spawned: set<Kind>, messages: seq<Message>,
                        pending: array<bool>, remaining0: nat, failed0: bool, issues0: seq<Issue>)
    returns (failed: bool, issues: seq<Issue>)
    requires Delivered(messages, spawned) && Marks(pending[..], spawned) && remaining0 == PendingCount(pending[..])
    requires forall k :: k in spawned ==> k in tasks
    requires forall k :: About(issues0, k) == Unspawned(tasks, spawned, k)
    requires failed0 <==> issues0 != []
    modifies pending
    ensures Marks(pending[..], Waiting(spawned, messages))
    ensures forall k :: About(issues, k) == EarlyIssues(tasks, spawned, messages, k)
    ensures failed <==> issues != []
  {
    failed, issues := failed0, issues0;
    var remaining, received := remaining0, 0;
    NothingNoted(tasks, spawned, messages, issues);
    while remaining > 0 && received < |messages|
      invariant received <= |messages| && remaining == PendingCount(pending[..])
      invariant Marks(pending[..], Waiting(spawned, messages[..received]))
      invariant Noted(tasks, spawned, messages[..received], issues) && (failed <==> issues != [])
    {
      var m := messages[received];
      EarlyIssuesGrow(tasks, spawned, messages, received, issues);
      OneReceived(spawned, messages, received, pending[..]);
      ghost var marked := pending[..];
      if pending[Slot(m.kind)] {
        pending[Slot(m.kind)] := false;
        remaining := remaining - 1;
      }
      assert pending[..] == marked[Slot(m.kind) := false];
      if !m.succeeded {
        failed := true;
        issues := issues + [Issue(m.kind, ShutdownFailed)];
      }
      received := received + 1;
    }
    AllReceived(spawned, messages, received, pending[..]);
    assert messages[..received] == messages;
  }

  method SweepLate(pending: array<bool>, issues0: seq<Issue>) returns (timedOut: bool, issues: seq<Issue>)
    requires pending.Length == 3
    ensures timedOut <==> exists k :: pending[Slot(k)]
    ensures issues == issues0 || timedOut
    ensures forall k ::
        About(issues, k) == About(issues0, k) + (if pending[Slot(k)] then [Issue(k, DeadlinePassed)] else [])
  {
    timedOut, issues := false, issues0;
    for slot := 0 to 3
      invariant forall k ::
        About(issues, k)
            == About(issues0, k) + (if Slot(k) < slot && pending[Slot(k)] then [Issue(k, DeadlinePassed)] else [])
      invariant timedOut <==> exists k :: Slot(k) < slot && pending[Slot(k)]
      invariant issues == issues0 || timedOut
    {
      if pending[slot] {
        timedOut := true;
        forall k { AboutAppend(issues, Issue(KINDS[slot], DeadlinePassed), k); }
        issues := issues + [Issue(KINDS[slot], DeadlinePassed)];
        assert Slot(KINDS[slot]) == slot;
      }
    }
  }

  /** `messages` are those received before the deadline passes or the channel closes.  Every task ends
      in exactly one of success, a shutdown diagnostic or a timeout diagnostic. */
  method RunShutdownTasks(tasks: seq<Kind>, spawns: seq<bool>, messages: seq<Message>)
    returns (outcome: Outcome, issues: seq<Issue>)
    requires Distinct(tasks) && |spawns| == |tasks| && Delivered(messages, Spawned(tasks, spawns))
    ensures forall k :: About(issues, k) == Deserved(tasks, Spawned(tasks, spawns), messages, k)
    ensures outcome.TimedOut? <==> Waiting(Spawned(tasks, spawns), messages) != {}
    ensures outcome.Completed? <==> forall k :: k in tasks ==> Succeeded(messages, k)
  {
    ghost var spawned := Spawned(tasks, spawns);
    var pending := new bool[3](_ => false);
    assert pending[..] == [false, false, false];
    var remaining, failed;
    remaining, failed, issues := SpawnTasks(tasks, spawns, pending);
    failed, issues := ReceiveResults(tasks, spawned, messages, pending, remaining, failed, issues);
    var timedOut;
    timedOut, issues := SweepLate(pending, issues);
    outcome := if timedOut then TimedOut else if failed then Failed else Completed;
    forall k ensures About(issues, k) == Deserved(tasks, spawned, messages, k) {
      FateIsUnique(tasks, spawned, messages, k);
    }
    NoIssueAboutAnyone(issues);
    forall k ensures k in tasks ==> (Succeeded(messages, k) <==> About(issues, k) == []) {
    }
  }

  lemma Unmark(pending: seq<bool>, waiting: set<Kind>, k: Kind)
    requires Marks(pending, waiting)
    ensures Marks(pending[Slot(k) := false], waiting - {k})
    ensures PendingCount(pending[Slot(k) := false]) == PendingCount(pending) - (if k in waiting then 1 else 0)
  {
    PendingOf(pending);
    PendingOf(pending[Slot(k) := false]);
    assert pending[Slot(k)] <==> k in waiting;
  }

  lemma OneReceived(spawned: set<Kind>, messages: seq<Message>, i: nat, pending: seq<bool>)
    requires Delivered(messages, spawned) && i < |messages| && Marks(pending, Waiting(spawned, messages[..i]))
    ensures var slot := Slot(messages[i].kind);
      && pending[slot] && Marks(pending[slot := false], Waiting(spawned, messages[..i + 1]))
      && PendingCount(pending[slot := false]) == PendingCount(pending) - 1
  {
    WaitingShrinks(spawned, messages, i);
    Unmark(pending, Waiting(spawned, messages[..i]), messages[i].kind);
  }

  lemma WaitingShrinks(spawned: set<Kind>, messages: seq<Message>, i: nat)
    requires Delivered(messages, spawned) && i < |messages|
    ensures messages[i].kind in Waiting(spawned, messages[..i])
    ensures Waiting(spawned, messages[..i + 1]) == Waiting(spawned, messages[..i]) - {messages[i].kind}
  {
    NewMessage(messages, i);
  }

  lemma NoIssueAboutAnyone(issues: seq<Issue>)
    ensures issues == [] <==> forall k :: About(issues, k) == []
  {
    if issues != [] {
      assert About(issues, issues[|issues| - 1].kind) != [];
    }
  }

  lemma FateIsUnique(tasks: seq<Kind>, spawned: set<Kind>, messages: seq<Message>, k: Kind)
    requires Delivered(messages, spawned) && (forall j :: j in spawned ==> j in tasks)
    ensures EarlyIssues(tasks, spawned, messages, k)
            + (if k in Waiting(spawned, messages) then [Issue(k, DeadlinePassed)] else [])
         == Deserved(tasks, spawned, messages, k)
  {
    if Reported(messages, k) {
      var i :| 0 <= i < |messages| && messages[i].kind == k;
      assert messages[i] == Message(k, messages[i].succeeded);
    } else {
      assert forall b :: Message(k, b) !in messages;
    }
  }

  lemma EarlyIssuesGrowFor(tasks: seq<Kind>, spawned: set<Kind>, messages: seq<Message>, i: nat, k: Kind)
    requires Delivered(messages, spawned) && i < |messages| && (k in spawned ==> k in tasks)
    ensures EarlyIssues(tasks, spawned, messages[..i + 1], k)
         == EarlyIssues(tasks, spawned, messages[..i], k)
             + (if messages[i] == Message(k, false) then [Issue(k, ShutdownFailed)] else [])
  {
    var x := Message(k, false);
    assert messages[..i + 1] == messages[..i] + [messages[i]];
    assert x in messages[..i + 1] <==> x in messages[..i] || messages[i] == x;
    if messages[i] == x { assert messages[i].kind == k; }
  }

  /** The diagnostics written are those due after these messages. */
  ghost predicate Noted(tasks: seq<Kind>, spawned: set<Kind>, messages: seq<Message>, issues: seq<Issue>) {
    forall k :: About(issues, k) == EarlyIssues(tasks, spawned, messages, k)
  }

  lemma NothingNoted(tasks: seq<Kind>, spawned: set<Kind>, messages: seq<Message>, issues: seq<Issue>)
    requires forall k :: About(issues, k) == Unspawned(tasks, spawned, k)
    ensures Noted(tasks, spawned, messages[..0], issues) && Waiting(spawned, messages[..0]) == spawned
  {
  }

  lemma EarlyIssuesGrow(tasks: seq<Kind>, spawned: set<Kind>, messages: seq<Message>, i: nat, issues: seq<Issue>)
    requires Delivered(messages, spawned) && i < |messages| && (forall k :: k in spawned ==> k in tasks)
    requires Noted(tasks, spawned, messages[..i], issues)
    ensures Noted(tasks, spawned, messages[..i + 1],
        if messages[i].succeeded then issues else issues + [Issue(messages[i].kind, ShutdownFailed)])
  {
    var issues' := if messages[i].succeeded then issues else issues + [Issue(messages[i].kind, ShutdownFailed)];
    forall k
      ensures About(issues', k) == EarlyIssues(tasks, spawned, messages[..i + 1], k)
    {
      AboutAppend(issues, Issue(messages[i].kind, ShutdownFailed), k);
      EarlyIssuesGrowFor(tasks, spawned, messages, i, k);
    }
  }

  /** The loop never stops early: when nothing is pending any more, every message has been read. */
  lemma AllReceived(spawned: set<Kind>, messages: seq<Message>, received: nat, pending: seq<bool>)
    requires Delivered(messages, spawned) && received <= |messages|
    requires Marks(pending, Waiting(spawned, messages[..received]))
    requires PendingCount(pending) == 0 || received == |messages|
    ensures received == |messages|
  {
    PendingOf(pending);
    if received < |messages| {
      WaitingShrinks(spawned, messages, received);
    }
  }

  lemma NewTask(tasks: seq<Kind>, spawns: seq<bool>, i: nat)
    requires Distinct(tasks) && |spawns| == |tasks| && i < |tasks|
    ensures tasks[..i + 1] == tasks[..i] + [tasks[i]] && tasks[i] !in tasks[..i]
    ensures tasks[i] in Spawned(tasks, spawns) <==> spawns[i]
  {
  }

  lemma NewMessage(messages: seq<Message>, i: nat)
    requires i < |messages|
    ensures messages[..i + 1] == messages[..i] + [messages[i]]
    ensures forall k :: Reported(messages[..i + 1], k) <==> Reported(messages[..i], k) || messages[i].kind == k
  {
    assert messages[..i + 1] == messages[..i] + [messages[i]];
    forall k | Reported(messages[..i], k) || messages[i].kind == k ensures Reported(messages[..i + 1], k) {
      if messages[i].kind == k {
        assert messages[..i + 1][i].kind == k;
      } else {
        var j :| 0 <= j < i && messages[..i][j].kind == k;
        assert messages[..i + 1][j].kind == k;
      }
    }
  }
}
