/** Whole histories of an output directory: preparations, commits and cleanups for any number of
    requests, each undisturbed, failed or killed, with outsiders at work between them. */
module OutputHistory {
  import opened OutputTree
  import opened OutputCommit
  import opened OutputPrepare
  import opened Text

  /** One operation as far as it got, or what outsiders did in between. */
  datatype Action =
    | Prepare(q: Identity, name: string, made: Identity, contents: map<string, Entry>)
    | CommitOnce(r: Request, fault: Fault)
    | Clean(q: Identity, name: string, target: Identity)
    | Outsider

  ghost predicate IsTree(d: Table) { exists sh :: Tree(d, sh) }

  /** All a preparation may do: nothing, leave a new directory without subdirectories, or leave part
      of one it was taking away again. */
  predicate PrepareStep(d: Table, d': Table, sh: Shape, q: Identity, name: string, made: Identity,
                        contents: map<string, Entry>)
    requires Tree(d, sh)
  {
    d' == d
    || (&& q in d && name !in d[q] && Unused(d, sh, made) && (forall n :: n in contents ==> !contents[n].Directory?)
        && (d' == Staged(d, q, name, made, contents)
            || PartlyRemoved(Staged(d, q, name, made, contents), d', Grown(sh, q, made), made)))
  }

  predicate Does(a: Action, d: Table, d': Table, sh: Shape)
    requires Tree(d, sh)
  {
    match a
    case Prepare(q, name, made, contents) => PrepareStep(d, d', sh, q, name, made, contents)
    case CommitOnce(r, fault) => d' == CommitRun(d, r, fault).0
    case Clean(q, name, target) => CleanupStep(d, d', sh, q, name, target)
    case Outsider => true
  }

  // ---- the commands are such actions ----

  /** However a preparation ends, it is an action of a history. */
  lemma PrepareIsAnAction(d: Table, d': Table, sh: Shape, p: Identity, name: string, made: Identity, markerId: Identity,
                          kind: string, upset: Upset, can: bool, ending: Ending)
    requires Tree(d, sh) && p in d && name !in d[p] && made !in d
    requires PrepareOutcome(d, d', Trimmed(d, sh), p, name, made, markerId, kind, upset, can, ending)
    ensures Tree(d, Trimmed(d, sh))
    ensures Does(Prepare(p, name, made, Left(upset, markerId, kind)), d, d', Trimmed(d, sh))
  {
    TrimmedIsTree(d, sh);
  }

  /** And so is each of the three cleanup commands. */
  lemma CleanupIsAnAction(d: Table, d': Table, sh: Shape, p: Identity, name: string, target: Identity, ending: Ending)
    requires Tree(d, sh) && p in d
    requires d' == d || RemovalOutcome(d, d', sh, p, name, target, target.device, ending)
    ensures Does(Clean(p, name, target), d, d', sh)
  {
  }

  // ---- the destination stays present ----

  /** The callers' side of the bargain: a stage never has the destination's name, nothing that contains
      the destination's parent is given for cleanup, and outsiders leave the destination present. */
  ghost predicate Apart(a: Action, d: Table, d': Table, sh: Shape, p: Identity, dest: string) {
    match a
    case Prepare(_, _, _, _) => true
    case CommitOnce(r, _) => r.approved.parent == p ==> r.stage != dest
    case Clean(q, name, target) => if q == p then name != dest else !Under(sh, p, target)
    case Outsider => EntryAt(d', p, dest).Some? && IsTree(d')
  }

  ghost predicate Step(a: Action, d: Table, d': Table, p: Identity, dest: string) {
    exists sh :: Tree(d, sh) && Does(a, d, d', sh) && Apart(a, d, d', sh, p, dest)
  }

  lemma PrepareKeepsOthers(d: Table, d': Table, sh: Shape, q: Identity, name: string, made: Identity,
                           contents: map<string, Entry>)
    requires Tree(d, sh) && PrepareStep(d, d', sh, q, name, made, contents)
    ensures IsTree(d')
    ensures forall x, n :: EntryAt(d, x, n).Some? ==> EntryAt(d', x, n) == EntryAt(d, x, n)
    ensures forall x :: x in d && x != q ==> x in d' && d'[x] == d[x]
  {
    if d' != d {
      StagedIsTree(d, sh, q, name, made, contents);
      NothingBelowTheStage(d, sh, q, name, made, contents);
      PartOfStage(d, d', Grown(sh, q, made), q, name, made, contents);
      StagedEntries(d, d', q, name, made, contents);
    }
  }

  lemma PartOfStage(d: Table, d': Table, sh: Shape, q: Identity, name: string, made: Identity,
      contents: map<string, Entry>)
    requires q in d && made !in d && forall x :: x in d ==> !Under(sh, x, made)
    requires d' == Staged(d, q, name, made, contents) || PartlyRemoved(Staged(d, q, name, made, contents), d', sh, made)
    ensures forall x :: x in d ==> x in d' && d'[x] == Staged(d, q, name, made, contents)[x]
  {
  }

  lemma StagedEntries(d: Table, d': Table, q: Identity, name: string, made: Identity, contents: map<string, Entry>)
    requires q in d && name !in d[q] && made !in d
    requires forall x :: x in d ==> x in d' && d'[x] == Staged(d, q, name, made, contents)[x]
    ensures forall x, n :: EntryAt(d, x, n).Some? ==> EntryAt(d', x, n) == EntryAt(d, x, n)
    ensures forall x :: x in d && x != q ==> x in d' && d'[x] == d[x]
  {
  }

  lemma CommitKeepsOthers(d: Table, sh: Shape, r: Request, fault: Fault)
    requires Tree(d, sh)
    ensures Tree(CommitRun(d, r, fault).0, sh)
    ensures forall x ::
        x in d && x != r.approved.parent ==> x in CommitRun(d, r, fault).0 && CommitRun(d, r, fault).0[x] == d[x]
  {
    CommitMeaning(d, sh, r, fault);
    if Judge(d, r).Rename? { RenamedIsTree(d, sh, r); }
  }

  lemma StepKeepsDestination(a: Action, d: Table, d': Table, p: Identity, dest: string)
    requires Step(a, d, d', p, dest) && EntryAt(d, p, dest).Some?
    ensures EntryAt(d', p, dest).Some? && IsTree(d')
  {
    var sh :| Tree(d, sh) && Does(a, d, d', sh) && Apart(a, d, d', sh, p, dest);
    match a
    case Prepare(q, name, made, contents) => PrepareKeepsOthers(d, d', sh, q, name, made, contents);
    case CommitOnce(r, fault) =>
      CommitMeaning(d, sh, r, fault);
      CommitKeepsOthers(d, sh, r, fault);
    case Clean(q, name, target) => CleanupKeepsOthers(d, d', sh, q, name, target);
    case Outsider =>
  }

  /** Over every sequence of preparations, commits, kills, failures, retries and cleanups, for any
      requests, this program never makes a present destination disappear. */
  lemma {:induction false} DestinationNeverVanishes(history: seq<Table>, actions: seq<Action>, p: Identity,
      dest: string)
    requires |history| == |actions| + 1 && IsTree(history[0]) && EntryAt(history[0], p, dest).Some?
    requires forall i :: 0 <= i < |actions| ==> Step(actions[i], history[i], history[i + 1], p, dest)
    ensures forall i :: 0 <= i < |history| ==> EntryAt(history[i], p, dest).Some? && IsTree(history[i])
    decreases |actions|
  {
    if actions == [] {
    } else {
      var k := |actions| - 1;
      DestinationNeverVanishes(history[..k + 1], actions[..k], p, dest);
      assert history[..k + 1][k] == history[k];
      StepKeepsDestination(actions[k], history[k], history[k + 1], p, dest);
      forall i | 0 <= i < |history|
        ensures EntryAt(history[i], p, dest).Some? && IsTree(history[i])
      {
        if i <= k { assert history[..k + 1][i] == history[i]; }
      }
    }
  }

  // ---- the committed output stays whole ----

  /** The output `out` under its name, and all directories that were below it in `d0` as they were. */
  predicate Intact(d0: Table, sh0: Shape, d: Table, p: Identity, dest: string, out: Identity) {
    && Holds(d, p, dest, Directory(out))
    && forall x :: x in d0 && Under(sh0, x, out) ==> x in d && d[x] == d0[x]
  }

  /** No one works inside the output or removes what contains it; no request but those that approved
      `out` itself is committed to its name; and outsiders leave it alone. */
  ghost predicate Respects(a: Action, d: Table, d': Table, sh: Shape, p: Identity, dest: string, out: Identity) {
    match a
    case Prepare(q, _, _, _) => !Under(sh, q, out)
    case CommitOnce(r, _) =>
      && !Under(sh, r.approved.parent, out)
      && (r.approved.parent == p ==> r.stage != dest && (r.dest == dest ==> r.approved.stage == out))
    case Clean(q, name, target) => if q == p then name != dest else !Under(sh, q, out) && !Under(sh, out, target)
    case Outsider => Intact(d, sh, d', p, dest, out) && IsTree(d')
  }

  ghost predicate RespectfulStep(a: Action, d: Table, d': Table, p: Identity, dest: string, out: Identity) {
    exists sh :: Tree(d, sh) && Does(a, d, d', sh) && Respects(a, d, d', sh, p, dest, out)
  }

  /** What lies below a directory is written in the table, so every shape of the table agrees. */
  lemma {:induction false} SameBelow(d0: Table, sh0: Shape, d: Table, sh: Shape, p: Identity, dest: string,
      out: Identity, x: Identity)
    requires Tree(d0, sh0) && Tree(d, sh) && Intact(d0, sh0, d, p, dest, out) && out in d0
    requires x in d0 && Under(sh0, x, out)
    ensures Under(sh, x, out)
    decreases if x in sh0.depth then sh0.depth[x] else 0
  {
    if x == out {
    } else {
      var q := sh0.up[x];
      assert HoldsDirectory(d0, q, x);
      SameBelow(d0, sh0, d, sh, p, dest, out, q);
      var n :| n in d0[q] && d0[q][n] == Directory(x);
      assert d[q][n] == Directory(x);
      assert ChildFits(d, sh, q, x);
    }
  }

  /** Of two directories above the same one, one is above the other. */
  lemma {:induction false} Comparable(sh: Shape, x: Identity, a: Identity, b: Identity)
    requires Under(sh, x, a) && Under(sh, x, b)
    ensures Under(sh, a, b) || Under(sh, b, a)
    decreases if x in sh.depth then sh.depth[x] else 0
  {
    if x == a || x == b {
    } else {
      Comparable(sh, sh.up[x], a, b);
    }
  }

  /** A cleanup elsewhere, or of another name beside it, takes nothing from below the output. */
  lemma CleanupSparesOutput(d: Table, sh: Shape, p: Identity, dest: string, out: Identity, q: Identity, name: string,
                            target: Identity, x: Identity)
    requires Tree(d, sh) && Holds(d, p, dest, Directory(out)) && Holds(d, q, name, Directory(target))
    requires if q == p then name != dest else !Under(sh, q, out) && !Under(sh, out, target)
    requires Under(sh, x, out)
    ensures !Under(sh, x, target)
  {
    assert ChildFits(d, sh, p, out) && ChildFits(d, sh, q, target);
    if Under(sh, x, target) {
      if q == p {
        SiblingsDisjoint(sh, x, out, target);
      } else {
        Comparable(sh, x, out, target);
      }
    }
  }

  lemma CleanStepKeepsOutput(d0: Table, sh0: Shape, d: Table, d': Table, sh: Shape, p: Identity, dest: string,
      out: Identity, q: Identity, name: string, target: Identity)
    requires Tree(d0, sh0) && out in d0 && Tree(d, sh) && Intact(d0, sh0, d, p, dest, out)
    requires CleanupStep(d, d', sh, q, name, target)
    requires if q == p then name != dest else !Under(sh, q, out) && !Under(sh, out, target)
    ensures Intact(d0, sh0, d', p, dest, out) && IsTree(d')
  {
    CleanupKeepsOthers(d, d', sh, q, name, target);
    ParentNotUnder(d, sh, p, dest, out);
    if d' != d {
      forall x | x in d0 && Under(sh0, x, out)
        ensures x in d' && d'[x] == d0[x]
      {
        SameBelow(d0, sh0, d, sh, p, dest, out, x);
        CleanupSparesOutput(d, sh, p, dest, out, q, name, target, x);
      }
      CleanupSparesOutput(d, sh, p, dest, out, q, name, target, out);
      assert ChildFits(d, sh, p, out);
      if q != p && Under(sh, p, target) { UnderTransitive(sh, out, p, target); }
    }
  }

  lemma PrepareStepKeepsOutput(d0: Table, sh0: Shape, d: Table, d': Table, sh: Shape, p: Identity, dest: string,
      out: Identity, q: Identity, name: string, made: Identity, contents: map<string, Entry>)
    requires Tree(d0, sh0) && out in d0 && Tree(d, sh) && Intact(d0, sh0, d, p, dest, out)
    requires PrepareStep(d, d', sh, q, name, made, contents) && !Under(sh, q, out)
    ensures Intact(d0, sh0, d', p, dest, out) && IsTree(d')
  {
    PrepareKeepsOthers(d, d', sh, q, name, made, contents);
    assert EntryAt(d', p, dest) == EntryAt(d, p, dest);
    forall x | x in d0 && Under(sh0, x, out)
      ensures x in d' && d'[x] == d0[x]
    {
      SameBelow(d0, sh0, d, sh, p, dest, out, x);
    }
  }

  lemma CommitStepKeepsOutput(d0: Table, sh0: Shape, d: Table, sh: Shape, p: Identity, dest: string, out: Identity,
                              r: Request, fault: Fault)
    requires Tree(d0, sh0) && out in d0 && Tree(d, sh) && Intact(d0, sh0, d, p, dest, out)
    requires !Under(sh, r.approved.parent, out)
    requires r.approved.parent == p ==> r.stage != dest && (r.dest == dest ==> r.approved.stage == out)
    ensures Intact(d0, sh0, CommitRun(d, r, fault).0, p, dest, out) && IsTree(CommitRun(d, r, fault).0)
  {
    CommitKeepsOthers(d, sh, r, fault);
    CommitKeepsEntry(d, sh, r, fault, p, dest, out);
    forall x | x in d0 && Under(sh0, x, out)
      ensures x in CommitRun(d, r, fault).0 && CommitRun(d, r, fault).0[x] == d0[x]
    {
      SameBelow(d0, sh0, d, sh, p, dest, out, x);
    }
  }

  lemma CommitKeepsEntry(d: Table, sh: Shape, r: Request, fault: Fault, p: Identity, dest: string, out: Identity)
    requires Tree(d, sh) && Holds(d, p, dest, Directory(out))
    requires r.approved.parent == p ==> r.stage != dest && (r.dest == dest ==> r.approved.stage == out)
    ensures Holds(CommitRun(d, r, fault).0, p, dest, Directory(out))
  {
    CommitMeaning(d, sh, r, fault);
    if r.approved.parent == p {
      if r.dest == dest {
        AlreadyThere(d, sh, r);
      } else {
        assert EntryAt(CommitRun(d, r, fault).0, p, dest) == EntryAt(d, p, dest);
      }
    }
  }

  lemma RespectfulStepKeepsOutput(a: Action, d0: Table, sh0: Shape, d: Table, d': Table, p: Identity, dest: string,
      out: Identity)
    requires Tree(d0, sh0) && out in d0 && Intact(d0, sh0, d, p, dest, out)
    requires RespectfulStep(a, d, d', p, dest, out)
    ensures Intact(d0, sh0, d', p, dest, out) && IsTree(d')
  {
    var sh :| Tree(d, sh) && Does(a, d, d', sh) && Respects(a, d, d', sh, p, dest, out);
    match a
    case Prepare(q, name, made, contents) =>
      PrepareStepKeepsOutput(d0, sh0, d, d', sh, p, dest, out, q, name, made, contents);
    case CommitOnce(r, fault) => CommitStepKeepsOutput(d0, sh0, d, sh, p, dest, out, r, fault);
    case Clean(q, name, target) => CleanStepKeepsOutput(d0, sh0, d, d', sh, p, dest, out, q, name, target);
    case Outsider => OutsiderKeepsOutput(d0, sh0, d, d', sh, p, dest, out);
  }

  lemma OutsiderKeepsOutput(d0: Table, sh0: Shape, d: Table, d': Table, sh: Shape, p: Identity, dest: string,
      out: Identity)
    requires Tree(d0, sh0) && out in d0 && Tree(d, sh) && Intact(d0, sh0, d, p, dest, out)
        && Intact(d, sh, d', p, dest, out)
    ensures Intact(d0, sh0, d', p, dest, out)
  {
    forall x | x in d0 && Under(sh0, x, out)
      ensures x in d' && d'[x] == d0[x]
    {
      SameBelow(d0, sh0, d, sh, p, dest, out, x);
    }
  }

  /** A request whose stage is already the destination has nothing left to rename. */
  lemma AlreadyThere(d: Table, sh: Shape, r: Request)
    requires Tree(d, sh) && r.stage != r.dest && Holds(d, r.approved.parent, r.dest, Directory(r.approved.stage))
    ensures !Judge(d, r).Rename?
  {
  }

  /** After a commit no history of preparations, commits and cleanups, for this request and any others,
      can harm the committed output: its entry and its whole subtree stay as they are. */
  lemma {:induction false} CommittedOutputSurvives(history: seq<Table>, sh0: Shape, actions: seq<Action>, p: Identity,
                                                   dest: string, out: Identity)
    requires |history| == |actions| + 1 && Tree(history[0], sh0) && Holds(history[0], p, dest, Directory(out))
    requires forall i :: 0 <= i < |actions| ==> RespectfulStep(actions[i], history[i], history[i + 1], p, dest, out)
    ensures Intact(history[0], sh0, history[|actions|], p, dest, out)
    decreases |actions|
  {
    assert ChildFits(history[0], sh0, p, out);
    if actions == [] {
    } else {
      var k := |actions| - 1;
      assert history[..k + 1][k] == history[k] && history[..k + 1][0] == history[0];
      CommittedOutputSurvives(history[..k + 1], sh0, actions[..k], p, dest, out);
      RespectfulStepKeepsOutput(actions[k], history[0], sh0, history[k], history[k + 1], p, dest, out);
    }
  }
}
