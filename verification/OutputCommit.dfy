/** Preparing, committing and cleaning up a generated output directory.

    Every operation opens and locks the parent directory, so cooperating runs exclude each other and
    one operation reads an unchanging table; between operations anyone may have changed it.
    `found` is the identity at the parent path, `None` when it cannot be opened.
 */
module OutputCommit {
  import opened OutputTree
  import opened Text

  const GENERATED_MARKER := ".gwe-generated-output"
  const ROOT_MARKER := ".gwe-generated-root"
  const ROOT_MARKER_VALUE := "gwe-generated-root"
  const MARKER_LIMIT := 128
  const STAGE_ATTEMPTS := 128

  datatype Snapshot = Snapshot(parent: Identity, destination: Option<Identity>, stage: Identity)

  datatype Request = Request(
    found: Option<Identity>, dest: string, stage: string, kind: string, allowRoot: bool, approved: Snapshot)

  predicate ValidName(name: string) {
    name != "" && name != "." && name != ".." && '/' !in name && '\0' !in name
  }

  /** Names of entries and nothing else: never a path, and never the directory itself or its parent. */
  lemma NamesAllowed(name: string, a: string, b: string)
    ensures !ValidName("") && !ValidName(".") && !ValidName("..")
    ensures !ValidName(a + "/" + b) && !ValidName(a + "\0" + b)
    ensures ValidName(name) || name in ["", ".", ".."] || exists i :: 0 <= i < |name| && name[i] in ['/', '\0']
  {
    assert (a + "/" + b)[|a|] == '/' && (a + "\0" + b)[|a|] == '\0';
    if '/' in name {
      var i :| 0 <= i < |name| && name[i] == '/';
    } else if '\0' in name {
      var i :| 0 <= i < |name| && name[i] == '\0';
    }
  }

  function EntryAt(d: Table, p: Identity, name: string): Option<Entry> {
    if p in d && name in d[p] then Some(d[p][name]) else None
  }

  predicate MarkerMatches(d: Table, dir: Identity, marker: string, value: string) {
    match EntryAt(d, dir, marker)
    case Some(Regular(_, content)) => |content| <= MARKER_LIMIT && content == value + "\n"
    case _ => false
  }

  predicate Owned(d: Table, p: Identity, name: string, id: Identity, kind: string, allowRoot: bool) {
    && Holds(d, p, name, Directory(id)) && id in d
    && (MarkerMatches(d, id, GENERATED_MARKER, kind)
       || (allowRoot && MarkerMatches(d, id, ROOT_MARKER, ROOT_MARKER_VALUE)))
  }

  // ---- commit ----

  datatype Verdict = Reject | Already | Rename

  /** What a commit finds: the stage still to be moved, an earlier commit to be recognised, or
      something that was not approved. */
  function Judge(d: Table, r: Request): Verdict {
    var p, a := r.approved.parent, r.approved;
    if !ValidName(r.dest) || !ValidName(r.stage) || r.found != Some(p) || p !in d then Reject
    else match a.destination
      case None =>
        if EntryAt(d, p, r.stage).None? && Owned(d, p, r.dest, a.stage, r.kind, false) then Already
        else if Owned(d, p, r.stage, a.stage, r.kind, false) && EntryAt(d, p, r.dest).None? then Rename
        else Reject
      case Some(prior) =>
        if Holds(d, p, r.dest, Directory(a.stage)) && Holds(d, p, r.stage, Directory(prior)) then
          if Owned(d, p, r.dest, a.stage, r.kind, false) && Owned(d, p, r.stage, prior, r.kind, r.allowRoot)
          then Already else Reject
        else if Owned(d, p, r.stage, a.stage, r.kind, false) && Owned(d, p, r.dest, prior, r.kind, r.allowRoot)
        then Rename else Reject
  }

  /** The atomic rename: it moves the stage in, or exchanges the two names. */
  function Renamed(d: Table, r: Request): Table
    requires Judge(d, r).Rename?
  {
    var p := r.approved.parent;
    var moved := d[p][r.dest := d[p][r.stage]];
    d[p := if r.approved.destination.None? then Without(moved, r.stage) else moved[r.stage := d[p][r.dest]]]
  }

  /** How a commit can be disturbed. */
  datatype Fault = NoFault | RenameFails | KilledBefore | KilledAfter

  function CommitRun(d: Table, r: Request, fault: Fault): (Table, Ending) {
    if fault.KilledBefore? then (d, Stopped)
    else
      var d' := if Judge(d, r).Rename? && !fault.RenameFails? then Renamed(d, r) else d;
      var ending := if fault.KilledAfter? then Stopped
                    else if Judge(d, r).Reject? || (Judge(d, r).Rename? && fault.RenameFails?) then Rejected
                    else Done;
      (d', ending)
  }

  /** The earlier name of an entry; the renaming is its own inverse on names. */
  function RenamedFrom(r: Request, q: Identity, n: string): string {
    if q != r.approved.parent then n else if n == r.dest then r.stage else if n == r.stage then r.dest else n
  }

  /** Entries have only changed their names. */
  ghost predicate OnlyNamesChanged(d: Table, d': Table, r: Request) {
    && d'.Keys == d.Keys
    && forall q, n :: q in d ==> EntryAt(d', q, n) == EntryAt(d, q, RenamedFrom(r, q, n))
  }

  lemma RenamedOnlyNames(d: Table, r: Request)
    requires Judge(d, r).Rename?
    ensures OnlyNamesChanged(d, Renamed(d, r), r)
  {
  }

  // ---- a commit by its entries ----

  /** A file that holds exactly `text`, small enough to be read as a marker. */
  ghost predicate TextFile(d: Table, dir: Identity, name: string, text: string) {
    |text| <= MARKER_LIMIT && exists i :: EntryAt(d, dir, name) == Some(Regular(i, text))
  }

  /** A directory this program may put in place or take away for outputs of this kind. */
  ghost predicate Marked(d: Table, id: Identity, kind: string, allowRoot: bool) {
    || TextFile(d, id, GENERATED_MARKER, kind + "\n")
    || (allowRoot && TextFile(d, id, ROOT_MARKER, ROOT_MARKER_VALUE + "\n"))
  }

  /** The approved stage is at `stageAt`; what it replaces, if anything, is at `otherAt`; and both carry
      their markers. */
  ghost predicate Laid(d: Table, r: Request, stageAt: string, otherAt: string) {
    var p, a := r.approved.parent, r.approved;
    && EntryAt(d, p, stageAt) == Some(Directory(a.stage)) && Marked(d, a.stage, r.kind, false)
    && match a.destination
       case None => EntryAt(d, p, otherAt).None?
       case Some(prior) => EntryAt(d, p, otherAt) == Some(Directory(prior)) && Marked(d, prior, r.kind, r.allowRoot)
  }

  ghost predicate Addressed(d: Table, r: Request) {
    ValidName(r.dest) && ValidName(r.stage) && r.found == Some(r.approved.parent) && r.approved.parent in d
  }

  lemma OwnedIsMarked(d: Table, p: Identity, name: string, id: Identity, kind: string, allowRoot: bool)
    ensures Owned(d, p, name, id, kind, allowRoot)
        <==> EntryAt(d, p, name) == Some(Directory(id)) && Marked(d, id, kind, allowRoot)
  {
  }

  lemma JudgeByEntries(d: Table, r: Request)
    ensures Judge(d, r).Already? <==> Addressed(d, r) && Laid(d, r, r.dest, r.stage)
    ensures Judge(d, r).Rename? <==> Addressed(d, r) && Laid(d, r, r.stage, r.dest) && !Laid(d, r, r.dest, r.stage)
  {
    var p, a := r.approved.parent, r.approved;
    OwnedIsMarked(d, p, r.dest, a.stage, r.kind, false);
    OwnedIsMarked(d, p, r.stage, a.stage, r.kind, false);
    if a.destination.Some? {
      OwnedIsMarked(d, p, r.dest, a.destination.value, r.kind, r.allowRoot);
      OwnedIsMarked(d, p, r.stage, a.destination.value, r.kind, r.allowRoot);
    }
  }

  /** Exactly when a commit succeeds: the two names lead to what was approved, or already do so the
      other way round, and every directory involved carries its marker; and exactly when and how it
      changes the table: it lets the two names trade their entries. */
  ghost predicate CommitOutcome(d: Table, d': Table, r: Request, fault: Fault, ending: Ending) {
    var before, done := Laid(d, r, r.stage, r.dest), Laid(d, r, r.dest, r.stage);
    && (ending.Stopped? <==> fault.KilledBefore? || fault.KilledAfter?)
    && (ending.Done? <==> Addressed(d, r) && ((fault.NoFault? && before) || (!ending.Stopped? && done)))
    && (if Addressed(d, r) && before && !done && (fault.NoFault? || fault.KilledAfter?)
        then OnlyNamesChanged(d, d', r) else d' == d)
  }

  lemma CommitExactly(d: Table, r: Request, fault: Fault)
    ensures CommitOutcome(d, CommitRun(d, r, fault).0, r, fault, CommitRun(d, r, fault).1)
  {
    JudgeByEntries(d, r);
    if Judge(d, r).Rename? { RenamedOnlyNames(d, r); }
  }

  method Commit(fs: FileSystem, r: Request, fault: Fault) returns (ending: Ending)
    modifies fs
    ensures (fs.dirs, ending) == CommitRun(old(fs.dirs), r, fault)
    ensures CommitOutcome(old(fs.dirs), fs.dirs, r, fault, ending)
  {
    CommitExactly(fs.dirs, r, fault);
    if fault.KilledBefore? { return Stopped; }
    var refusal := if fault.KilledAfter? then Stopped else Rejected;
    var success := if fault.KilledAfter? then Stopped else Done;
    if !ValidName(r.dest) || !ValidName(r.stage) { return refusal; }
    if r.found != Some(r.approved.parent) || r.approved.parent !in fs.dirs { return refusal; }
    var d, p, a := fs.dirs, r.approved.parent, r.approved;
    var stageStatus, destStatus := EntryAt(d, p, r.stage), EntryAt(d, p, r.dest);
    if a.destination.None? {
      if stageStatus.None? && destStatus == Some(Directory(a.stage)) {
        return if Owned(d, p, r.dest, a.stage, r.kind, false) then success else refusal;
      }
      if stageStatus != Some(Directory(a.stage)) || destStatus.Some? { return refusal; }
      if !Owned(d, p, r.stage, a.stage, r.kind, false) || fault.RenameFails? { return refusal; }
      fs.dirs := d[p := Without(d[p][r.dest := d[p][r.stage]], r.stage)];
      return success;
    }
    var previous := a.destination.value;
    if destStatus == Some(Directory(a.stage)) && stageStatus == Some(Directory(previous)) {
      var both := Owned(d, p, r.dest, a.stage, r.kind, false) && Owned(d, p, r.stage, previous, r.kind, r.allowRoot);
      return if both then success else refusal;
    }
    if stageStatus != Some(Directory(a.stage)) || destStatus != Some(Directory(previous)) { return refusal; }
    if !Owned(d, p, r.stage, a.stage, r.kind, false) || !Owned(d, p, r.dest, previous, r.kind, r.allowRoot)
       || fault.RenameFails? { return refusal; }
    fs.dirs := d[p := d[p][r.dest := d[p][r.stage]][r.stage := d[p][r.dest]]];
    return success;
  }

  /** Success means the destination is the approved, owned stage; a refusal changes nothing; and a
      commit changes no directory but the parent, and there no name but the two it was given. */
  lemma CommitMeaning(d: Table, sh: Shape, r: Request, fault: Fault)
    requires Tree(d, sh)
    ensures var (d', ending) := CommitRun(d, r, fault); var p := r.approved.parent;
      && (ending.Done? ==> Owned(d', p, r.dest, r.approved.stage, r.kind, false))
      && (ending.Rejected? ==> d' == d)
      && (ending.Done? <==> !Judge(d, r).Reject? && (fault.NoFault? || (fault.RenameFails? && Judge(d, r).Already?)))
      && d'.Keys == d.Keys && (forall x :: x in d && x != p ==> d'[x] == d[x])
      && (forall n :: n != r.dest && n != r.stage ==> EntryAt(d', p, n) == EntryAt(d, p, n))
      && (EntryAt(d, p, r.dest).Some? && r.dest != r.stage ==> EntryAt(d', p, r.dest).Some?)
  {
    if Judge(d, r).Rename? {
      RenamedIsAlready(d, sh, r);
    }
  }

  lemma RenameApart(d: Table, sh: Shape, r: Request)
    requires Tree(d, sh) && Judge(d, r).Rename?
    ensures r.dest != r.stage && r.approved.stage != r.approved.parent
    ensures r.approved.destination.Some? ==> r.approved.destination.value != r.approved.parent
  {
    var p, a := r.approved.parent, r.approved;
    assert ChildFits(d, sh, p, a.stage);
    if a.destination.Some? { assert ChildFits(d, sh, p, a.destination.value); }
  }

  /** A finished rename is recognised by every later attempt. */
  lemma RenamedIsAlready(d: Table, sh: Shape, r: Request)
    requires Tree(d, sh) && Judge(d, r).Rename?
    ensures r.dest != r.stage && Judge(Renamed(d, r), r).Already?
    ensures Owned(Renamed(d, r), r.approved.parent, r.dest, r.approved.stage, r.kind, false)
  {
    var p, a, d' := r.approved.parent, r.approved, Renamed(d, r);
    RenameApart(d, sh, r);
    assert forall x :: x != p ==> (x in d' <==> x in d) && (x in d ==> d'[x] == d[x]);
    SameMarkers(d, d', a.stage);
    assert Holds(d', p, r.dest, Directory(a.stage));
    if a.destination.Some? {
      SameMarkers(d, d', a.destination.value);
      assert Holds(d', p, r.stage, Directory(a.destination.value));
    } else {
      assert EntryAt(d', p, r.stage).None?;
    }
  }

  lemma SameMarkers(d: Table, d': Table, x: Identity)
    requires (x in d' <==> x in d) && (x in d ==> d'[x] == d[x])
    ensures forall marker, value :: MarkerMatches(d', x, marker, value) == MarkerMatches(d, x, marker, value)
  {
  }

  function Attempts(d: Table, r: Request, faults: seq<Fault>): Table
    decreases |faults|
  {
    if faults == [] then d else Attempts(CommitRun(d, r, faults[0]).0, r, faults[1..])
  }

  lemma {:induction false} AttemptsOf(d: Table, sh: Shape, r: Request, faults: seq<Fault>)
    requires Tree(d, sh)
    ensures Attempts(d, r, faults) == d || (Judge(d, r).Rename? && Attempts(d, r, faults) == Renamed(d, r))
    decreases |faults|
  {
    if faults == [] {
    } else {
      var d1 := CommitRun(d, r, faults[0]).0;
      if d1 == d {
        AttemptsOf(d, sh, r, faults[1..]);
      } else {
        RenamedIsAlready(d, sh, r);
        RenamedIsTree(d, sh, r);
        AttemptsOf(d1, sh, r, faults[1..]);
      }
    }
  }

  lemma RenamedIsTree(d: Table, sh: Shape, r: Request)
    requires Tree(d, sh) && Judge(d, r).Rename?
    ensures Tree(Renamed(d, r), sh)
  {
    RenamedOnlyNames(d, r);
    NamesAreNoShape(d, Renamed(d, r), sh, r);
  }

  lemma NamesAreNoShape(d: Table, d': Table, sh: Shape, r: Request)
    requires Tree(d, sh) && OnlyNamesChanged(d, d', r)
    ensures Tree(d', sh)
  {
    forall q, n | q in d' && n in d'[q] && d'[q][n].Directory? ensures ChildFits(d', sh, q, d'[q][n].id) {
      assert EntryAt(d', q, n) == EntryAt(d, q, RenamedFrom(r, q, n));
      assert ChildFits(d, sh, q, d'[q][n].id);
    }
    forall q, n, m
      | q in d' && n in d'[q] && m in d'[q] && d'[q][n].Directory? && d'[q][n] == d'[q][m] ensures n == m
    {
      assert EntryAt(d', q, n) == EntryAt(d, q, RenamedFrom(r, q, n));
      assert EntryAt(d', q, m) == EntryAt(d, q, RenamedFrom(r, q, m));
    }
    forall c | c in d' && c in sh.up ensures HoldsDirectory(d', sh.up[c], c) {
      assert HoldsDirectory(d, sh.up[c], c);
      var n :| n in d[sh.up[c]] && d[sh.up[c]][n] == Directory(c);
      var m := RenamedFrom(r, sh.up[c], n);
      assert EntryAt(d', sh.up[c], m) == EntryAt(d, sh.up[c], n);
    }
  }

  /** Crash safety: however often a commit is killed or its rename fails, at whatever points, the
      next undisturbed attempt ends exactly where a single undisturbed commit would have. */
  lemma RetriesConverge(d: Table, sh: Shape, r: Request, faults: seq<Fault>)
    requires Tree(d, sh)
    ensures CommitRun(Attempts(d, r, faults), r, NoFault) == CommitRun(d, r, NoFault)
  {
    AttemptsOf(d, sh, r, faults);
    if Judge(d, r).Rename? {
      RenamedIsAlready(d, sh, r);
    }
  }

  // ---- cleanup ----

  /** How a cleanup can end.  Without a name to remove it is already done; undisturbed it is never
      left half-way; and only the expected directory is ever touched. */
  predicate CleanupOutcome(d: Table, d': Table, sh: Shape, found: Option<Identity>, name: string, parent: Identity,
                           target: Identity, life: Life, ending: Ending)
  {
    if !ValidName(name) || found != Some(parent) || parent !in d then ending.Rejected? && d' == d
    else if EntryAt(d, parent, name).None? then ending.Done? && d' == d
    else
      && RemovalOutcome(d, d', sh, parent, name, target, target.device, ending)
      && (life.Unhindered? ==> !ending.Stopped?)
  }

  /** Exactly when an undisturbed cleanup succeeds; and that success means the name is gone, with all
      that was below the expected directory and nothing else.  A wrong address, or anything else under
      the name, is refused and left alone. */
  lemma CleanupSucceedsExactly(d: Table, d': Table, sh: Shape, found: Option<Identity>, name: string,
                               parent: Identity, target: Identity, life: Life, ending: Ending)
    requires Tree(d, sh) && CleanupOutcome(d, d', sh, found, name, parent, target, life, ending)
    ensures ending.Done? ==>
      && parent in d' && d'[parent] == Without(d[parent], name)
      && (forall x :: x in d' ==> x in d && (x != parent ==> d'[x] == d[x]))
      && (forall x :: x in d ==> (x in d' <==> !(Holds(d, parent, name, Directory(target)) && Under(sh, x, target))))
    ensures !ValidName(name) || found != Some(parent) || parent !in d
            || (EntryAt(d, parent, name).Some? && EntryAt(d, parent, name) != Some(Directory(target)))
            ==> ending.Rejected? && d' == d
    ensures life.Unhindered? ==>
      (ending.Done? <==>
        && ValidName(name) && found == Some(parent) && parent in d
        && (EntryAt(d, parent, name).None?
            || (EntryAt(d, parent, name) == Some(Directory(target)) && OneDevice(d, sh, target, target.device))))
  {
    if Holds(d, parent, name, Directory(target)) { ParentNotUnder(d, sh, parent, name, target); }
  }

  /** However it ends, a cleanup adds nothing and alters nothing: every entry there afterwards was there
      before, and every directory that is not below the expected one keeps all entries but the name. */
  lemma CleanupOnlyLoses(d: Table, d': Table, sh: Shape, found: Option<Identity>, name: string, parent: Identity,
                         target: Identity, life: Life, ending: Ending)
    requires Tree(d, sh) && CleanupOutcome(d, d', sh, found, name, parent, target, life, ending)
    ensures forall x, n :: EntryAt(d', x, n).Some? ==> EntryAt(d', x, n) == EntryAt(d, x, n)
    ensures forall x, n :: x in d && !Under(sh, x, target) && !(x == parent && n == name) ==>
      EntryAt(d', x, n) == EntryAt(d, x, n)
  {
  }

  method CleanupIdentity(fs: FileSystem, found: Option<Identity>, stage: string, parent: Identity, target: Identity,
                         life: Life, ghost sh: Shape)
    returns (ending: Ending)
    requires Tree(fs.dirs, sh)
    modifies fs
    ensures CleanupOutcome(old(fs.dirs), fs.dirs, sh, found, stage, parent, target, life, ending)
  {
    if !ValidName(stage) || found != Some(parent) || parent !in fs.dirs { return Rejected; }
    var status := EntryAt(fs.dirs, parent, stage);
    if status.None? { return Done; }
    if status.value != Directory(target) { return Rejected; }
    var left;
    ending, left := fs.RemoveDirectoryTree(parent, stage, target, target.device, life, sh);
  }

  method Cleanup(fs: FileSystem, found: Option<Identity>, stage: string, approved: Snapshot, life: Life,
      ghost sh: Shape)
    returns (ending: Ending)
    requires Tree(fs.dirs, sh)
    modifies fs
    ensures CleanupOutcome(old(fs.dirs), fs.dirs, sh, found, stage, approved.parent, approved.stage, life, ending)
    ensures CleanupStep(old(fs.dirs), fs.dirs, sh, approved.parent, stage, approved.stage)
  {
    ending := CleanupIdentity(fs, found, stage, approved.parent, approved.stage, life, sh);
  }

  method CleanupCommitted(fs: FileSystem, found: Option<Identity>, stage: string, approved: Snapshot, life: Life,
      ghost sh: Shape)
    returns (ending: Ending)
    requires Tree(fs.dirs, sh)
    modifies fs
    ensures approved.destination.None? ==> ending.Rejected? && fs.dirs == old(fs.dirs)
    ensures approved.destination.Some? ==>
      && CleanupOutcome(old(fs.dirs), fs.dirs, sh, found, stage, approved.parent, approved.destination.value, life,
                        ending)
      && CleanupStep(old(fs.dirs), fs.dirs, sh, approved.parent, stage, approved.destination.value)
  {
    if approved.destination.None? { return Rejected; }
    ending := CleanupIdentity(fs, found, stage, approved.parent, approved.destination.value, life, sh);
  }

  /** All a cleanup may do: nothing, or remove what `name` leads to, wholly or in part, provided it
      leads to `target`. */
  predicate CleanupStep(d: Table, d': Table, sh: Shape, p: Identity, name: string, target: Identity) {
    d' == d || (Holds(d, p, name, Directory(target))
                && (d' == Pruned(d, sh, p, name, target) || PartlyRemoved(d, d', sh, target)))
  }

  lemma CleanupKeepsOthers(d: Table, d': Table, sh: Shape, p: Identity, name: string, target: Identity)
    requires Tree(d, sh) && CleanupStep(d, d', sh, p, name, target)
    ensures Tree(d', sh)
    ensures forall n :: n != name ==> EntryAt(d', p, n) == EntryAt(d, p, n)
    ensures forall x :: x in d && x != p && !Under(sh, x, target) ==> x in d' && d'[x] == d[x]
  {
    if d' != d {
      ParentNotUnder(d, sh, p, name, target);
      PrunedIsTree(d, sh, p, name, target);
    }
  }

  /** A replacement in full: after the exchange and the cleanup the destination is the approved
      stage, the stage name and everything that was below the prior output are gone, and nothing
      else in the file system has changed. */
  lemma ReplacementComplete(d: Table, sh: Shape, r: Request, prior: Identity)
    requires Tree(d, sh) && Judge(d, r).Rename? && r.approved.destination == Some(prior)
    ensures var p := r.approved.parent; var f := Pruned(Renamed(d, r), sh, p, r.stage, prior);
      && p in f && f[p] == Without(d[p], r.stage)[r.dest := Directory(r.approved.stage)]
      && (forall x :: x in f <==> x in d && !Under(sh, x, prior))
      && (forall x :: x in f && x != p ==> f[x] == d[x])
  {
    ParentNotUnder(d, sh, r.approved.parent, r.dest, prior);
    RenamedIsAlready(d, sh, r);
  }
}
