/** Preparing a stage, and carrying its snapshot through the shell as text. */
module OutputPrepare {
  import opened OutputTree
  import opened OutputCommit
  import opened Text

  function StageName(dest: string, token: string): string { "." + dest + ".stage." + token }

  predicate ValidKind(kind: string) { kind != "" && '\n' !in kind && '\r' !in kind }

  /** The index of the first token whose stage name is free; `|tokens|` when all are taken. */
  function FirstFree(d: Table, p: Identity, dest: string, tokens: seq<string>): (i: nat)
    ensures i <= |tokens|
    ensures i < |tokens| ==> EntryAt(d, p, StageName(dest, tokens[i])).None?
    ensures forall k :: 0 <= k < i ==> EntryAt(d, p, StageName(dest, tokens[k])).Some?
  {
    if tokens == [] || EntryAt(d, p, StageName(dest, tokens[0])).None? then 0
    else 1 + FirstFree(d, p, dest, tokens[1..])
  }

  /** The identities approved for a commit, or `None` when something is not an owned directory. */
  function SnapshotAt(d: Table, p: Identity, dest: string, stage: string, kind: string, allowRoot: bool)
      : Option<Snapshot>
  {
    match EntryAt(d, p, stage)
    case Some(Directory(s)) =>
      if !Owned(d, p, stage, s, kind, false) then None
      else (match EntryAt(d, p, dest)
            case None => Some(Snapshot(p, None, s))
            case Some(Directory(c)) =>
              if Owned(d, p, dest, c, kind, allowRoot) then Some(Snapshot(p, Some(c), s)) else None
            case _ => None)
    case _ => None
  }

  /** A snapshot is granted exactly for a marked stage and an absent or marked destination, and names
      what it found. */
  lemma SnapshotExactly(d: Table, p: Identity, dest: string, stage: string, kind: string, allowRoot: bool)
    ensures var s, at := SnapshotAt(d, p, dest, stage, kind, allowRoot), EntryAt(d, p, dest);
      && (s.Some? <==>
            && (exists x :: EntryAt(d, p, stage) == Some(Directory(x)) && Marked(d, x, kind, false))
            && (at.None? || exists c :: at == Some(Directory(c)) && Marked(d, c, kind, allowRoot)))
      && (s.Some? ==> s.value.parent == p && EntryAt(d, p, stage) == Some(Directory(s.value.stage))
                      && (at.None? <==> s.value.destination.None?)
                      && (at.Some? ==> at == Some(Directory(s.value.destination.value))))
  {
    match EntryAt(d, p, stage)
    case Some(Directory(x)) =>
      OwnedIsMarked(d, p, stage, x, kind, false);
      match EntryAt(d, p, dest) {
        case Some(Directory(c)) => OwnedIsMarked(d, p, dest, c, kind, allowRoot);
        case _ =>
      }
    case _ =>
  }

  /** What a snapshot approves is what a commit looks for. */
  lemma SnapshotIsLaid(d: Table, p: Identity, dest: string, stage: string, kind: string, allowRoot: bool)
    requires SnapshotAt(d, p, dest, stage, kind, allowRoot).Some?
    ensures var s := SnapshotAt(d, p, dest, stage, kind, allowRoot).value;
      s.parent == p && forall found :: Laid(d, Request(found, dest, stage, kind, allowRoot, s), stage, dest)
  {
    SnapshotExactly(d, p, dest, stage, kind, allowRoot);
  }

  function Staged(d: Table, p: Identity, name: string, made: Identity, contents: map<string, Entry>): Table
    requires p in d
  {
    d[p := d[p][name := Directory(made)]][made := contents]
  }

  function Grown(sh: Shape, p: Identity, made: Identity): Shape
    requires p in sh.depth
  {
    var level := sh.depth[p] + 1;
    Shape(sh.up[made := p], sh.depth[made := level], if sh.height < level then level else sh.height)
  }

  predicate Unused(d: Table, sh: Shape, id: Identity) { id !in d && id !in sh.up && id !in sh.depth }

  lemma StagedIsTree(d: Table, sh: Shape, p: Identity, name: string, made: Identity, contents: map<string, Entry>)
    requires Tree(d, sh) && p in d && name !in d[p] && Unused(d, sh, made)
    requires forall n :: n in contents ==> !contents[n].Directory?
    ensures Tree(Staged(d, p, name, made, contents), Grown(sh, p, made))
  {
    var d': Table := Staged(d, p, name, made, contents);
    var sh' := Grown(sh, p, made);
    forall q, n | q in d' && n in d'[q] && d'[q][n].Directory? ensures ChildFits(d', sh', q, d'[q][n].id) {
      if q != p || n != name {
        assert ChildFits(d, sh, q, d[q][n].id);
      }
    }
    forall q, n, m
      | q in d' && n in d'[q] && m in d'[q] && d'[q][n].Directory? && d'[q][n] == d'[q][m] ensures n == m
    {
      if q == p && n != name { assert n in d[q] && d'[q][n] == d[q][n]; }
    }
    forall c | c in d' && c in sh'.up ensures HoldsDirectory(d', sh'.up[c], c) {
      if c == made {
        assert name in d'[p] && d'[p][name] == Directory(made);
      } else {
        assert HoldsDirectory(d, sh.up[c], c);
        var n :| n in d[sh.up[c]] && d[sh.up[c]][n] == Directory(c);
        assert n in d'[sh.up[c]] && d'[sh.up[c]][n] == Directory(c);
      }
    }
  }

  /** Removing a stage that was just made restores the table exactly. */
  lemma UnstagedIsOriginal(d: Table, sh: Shape, p: Identity, name: string, made: Identity, contents: map<string, Entry>)
    requires Tree(d, sh) && p in d && name !in d[p] && Unused(d, sh, made)
    requires forall n :: n in contents ==> !contents[n].Directory?
    ensures var d', sh' := Staged(d, p, name, made, contents), Grown(sh, p, made);
      Pruned(d', sh', p, name, made) == d && OneDevice(d', sh', made, made.device)
  {
    NothingBelowTheStage(d, sh, p, name, made, contents);
    PruneStaged(d, Grown(sh, p, made), p, name, made, contents);
  }

  lemma PruneStaged(d: Table, sh: Shape, p: Identity, name: string, made: Identity, contents: map<string, Entry>)
    requires p in d && name !in d[p] && made !in d
    requires forall x :: x in d ==> !Under(sh, x, made)
    ensures var d' := Staged(d, p, name, made, contents);
      Pruned(d', sh, p, name, made) == d && OneDevice(d', sh, made, made.device)
  {
    assert Without(Staged(d, p, name, made, contents)[p], name) == d[p];
  }

  lemma NothingBelowTheStage(d: Table, sh: Shape, p: Identity, name: string, made: Identity,
      contents: map<string, Entry>)
    requires Tree(d, sh) && p in d && name !in d[p] && Unused(d, sh, made)
    requires forall n :: n in contents ==> !contents[n].Directory?
    ensures forall x :: x in d ==> !Under(Grown(sh, p, made), x, made)
  {
    StagedIsTree(d, sh, p, name, made, contents);
    forall x | x in d ensures !Under(Grown(sh, p, made), x, made) {
      if Under(Grown(sh, p, made), x, made) {
        LeafHasNothingBelow(Staged(d, p, name, made, contents), Grown(sh, p, made), made, x);
      }
    }
  }

  /** Exactly when a stage can be prepared, if nothing disturbs it: a usable name and kind, a free
      stage name, a marker that fits its limit, nothing but an owned directory at the destination, and
      the parent path still leading to the parent. */
  predicate CanPrepare(d: Table, found: Option<Identity>, dest: string, kind: string, allowRoot: bool,
                       tokens: seq<string>, pathStill: bool)
  {
    && Admissible(d, found, dest, kind, tokens) && |kind| + 1 <= MARKER_LIMIT && pathStill
    && match EntryAt(d, found.value, dest)
       case None => true
       case Some(Directory(c)) => Owned(d, found.value, dest, c, kind, allowRoot)
       case _ => false
  }

  /** What is settled before the stage directory is made. */
  predicate Admissible(d: Table, found: Option<Identity>, dest: string, kind: string, tokens: seq<string>) {
    && ValidName(dest) && ValidKind(kind) && found.Some? && found.value in d
    && FirstFree(d, found.value, dest, tokens) < |tokens|
  }

  /** The same on names, entries and markers alone. */
  lemma PreparableExactly(d: Table, found: Option<Identity>, dest: string, kind: string, allowRoot: bool,
                          tokens: seq<string>, pathStill: bool)
    ensures CanPrepare(d, found, dest, kind, allowRoot, tokens, pathStill) <==>
      && dest !in ["", ".", ".."] && '/' !in dest && '\0' !in dest
      && 0 < |kind| <= 127 && '\n' !in kind && '\r' !in kind
      && pathStill && found.Some? && found.value in d
      && (exists i :: 0 <= i < |tokens| && EntryAt(d, found.value, "." + dest + ".stage." + tokens[i]).None?)
      && (EntryAt(d, found.value, dest).None?
          || exists c :: EntryAt(d, found.value, dest) == Some(Directory(c)) && Marked(d, c, kind, allowRoot))
  {
    if found.Some? {
      var i := FirstFree(d, found.value, dest, tokens);
      if i < |tokens| { assert EntryAt(d, found.value, "." + dest + ".stage." + tokens[i]).None?; }
      if j :| 0 <= j < |tokens| && EntryAt(d, found.value, "." + dest + ".stage." + tokens[j]).None? {
        assert EntryAt(d, found.value, StageName(dest, tokens[j])).None?;
      }
      match EntryAt(d, found.value, dest)
      case Some(Directory(c)) => OwnedIsMarked(d, found.value, dest, c, kind, allowRoot);
      case _ =>
    }
  }

  /** What can disturb a preparation once the stage directory is made: reading its status, opening it,
      creating its marker or writing it whole may fail, and the process may be killed with the
      directory bare or with any text in the marker. */
  datatype Upset =
    | Smooth
    | StatFails
    | OpenFails
    | MarkerFails
    | ShortWrite(text: string)
    | KilledBare
    | KilledMarked(text: string)

  /** What the stage holds when the disturbance strikes. */
  function Left(upset: Upset, markerId: Identity, kind: string): map<string, Entry> {
    match upset
    case Smooth => map[GENERATED_MARKER := Regular(markerId, kind + "\n")]
    case ShortWrite(text) => map[GENERATED_MARKER := Regular(markerId, text)]
    case KilledMarked(text) => map[GENERATED_MARKER := Regular(markerId, text)]
    case _ => map[]
  }

  /** Nobody removes the stage then: the process is gone, or has not learned the stage's identity. */
  predicate Abandoned(upset: Upset) { upset.StatFails? || upset.KilledBare? || upset.KilledMarked? }

  /** A shape of the same tree that knows only what is in the table, so that identities once deleted
      can be used again. */
  function Trimmed(d: Table, sh: Shape): Shape {
    Shape(map x | x in sh.up && x in d :: sh.up[x], map x | x in sh.depth && x in d :: sh.depth[x], sh.height)
  }

  lemma TrimmedIsTree(d: Table, sh: Shape)
    requires Tree(d, sh)
    ensures Tree(d, Trimmed(d, sh)) && forall x :: x !in d ==> Unused(d, Trimmed(d, sh), x)
  {
    var sh' := Trimmed(d, sh);
    forall p, n | p in d && n in d[p] && d[p][n].Directory?
      ensures ChildFits(d, sh', p, d[p][n].id)
    {
      assert ChildFits(d, sh, p, d[p][n].id);
    }
  }

  /** How preparing can end once a stage of that name has been made: undisturbed; abandoned as it was;
      or removed again, all of it unless the process is stopped there as well. */
  predicate PrepareOutcome(d: Table, d': Table, sh: Shape, p: Identity, name: string, made: Identity,
                           markerId: Identity, kind: string, upset: Upset, can: bool, ending: Ending)
    requires p in d && p in sh.depth
  {
    var staged := Staged(d, p, name, made, Left(upset, markerId, kind));
    if Abandoned(upset) then d' == staged && ending == (if upset.StatFails? then Rejected else Stopped)
    else if upset.Smooth? && can then d' == staged && ending.Done?
    else (d' == d && ending.Rejected?) || (PartlyRemoved(staged, d', Grown(sh, p, made), made) && ending.Stopped?)
  }

  /** What the endings mean: the stage is there afterwards if the preparation succeeded, was killed, or could
      not read the stage's status; a refusal for any other reason has left no trace. */
  lemma PreparationLeaves(d: Table, d': Table, sh: Shape, p: Identity, name: string, made: Identity,
                          markerId: Identity, kind: string, upset: Upset, can: bool, ending: Ending)
    requires p in d && p in sh.depth && made !in d
    requires PrepareOutcome(d, d', sh, p, name, made, markerId, kind, upset, can, ending)
    ensures ending.Done? <==> upset.Smooth? && can
    ensures ending.Done? || upset.StatFails? || upset.KilledBare? || upset.KilledMarked? ==>
      && EntryAt(d', p, name) == Some(Directory(made)) && d'.Keys == d.Keys + {made}
      && (forall x, n :: x in d && !(x == p && n == name) ==> EntryAt(d', x, n) == EntryAt(d, x, n))
    ensures upset.StatFails? ==> ending.Rejected?
    ensures upset.KilledBare? || upset.KilledMarked? ==> ending.Stopped?
    ensures ending.Rejected? && !upset.StatFails? ==> d' == d
  {
  }

  /** `upset` is what disturbs the preparation, `life` what stops the removal that follows a failure,
      and `pathStill` says whether the parent path leads to the same directory at the end.  The
      identity of a new directory is one not in use. */
  method CreateStage(fs: FileSystem, found: Option<Identity>, dest: string, kind: string, allowRoot: bool,
                     tokens: seq<string>, made: Identity, markerId: Identity, upset: Upset, life: Life,
                     pathStill: bool, ghost sh: Shape)
    returns (ending: Ending, r: Option<(string, Snapshot)>)
    requires Tree(fs.dirs, sh) && made !in fs.dirs && |tokens| == STAGE_ATTEMPTS
    modifies fs
    ensures r.Some? <==> ending.Done?
    ensures ending.Done? <==> upset.Smooth? && CanPrepare(old(fs.dirs), found, dest, kind, allowRoot, tokens, pathStill)
    ensures !Admissible(old(fs.dirs), found, dest, kind, tokens) ==> ending.Rejected? && fs.dirs == old(fs.dirs)
    ensures Admissible(old(fs.dirs), found, dest, kind, tokens) ==>
      var p := found.value;
      var name := StageName(dest, tokens[FirstFree(old(fs.dirs), p, dest, tokens)]);
      && PrepareOutcome(old(fs.dirs), fs.dirs, Trimmed(old(fs.dirs), sh), p, name, made, markerId, kind, upset,
                        CanPrepare(old(fs.dirs), found, dest, kind, allowRoot, tokens, pathStill), ending)
      && (r.Some? ==> r.value == (name, Approved(old(fs.dirs), p, dest, made)))
    ensures Admissible(old(fs.dirs), found, dest, kind, tokens) && ending.Done? ==>
      Laid(fs.dirs, Request(found, dest, r.value.0, kind, allowRoot, r.value.1), r.value.0, dest)
    ensures life.Unhindered? && ending.Rejected? && !upset.StatFails? ==> fs.dirs == old(fs.dirs)
    ensures life.Unhindered? && ending.Stopped? ==> upset.KilledBare? || upset.KilledMarked?
  {
    if !ValidName(dest) || !ValidKind(kind) || found.None? || found.value !in fs.dirs { return Rejected, None; }
    var p := found.value;
    ghost var d0 := fs.dirs;
    var i := 0;
    while i < |tokens| && StageName(dest, tokens[i]) in fs.dirs[p]
      invariant i <= |tokens| && forall k :: 0 <= k < i ==> EntryAt(d0, p, StageName(dest, tokens[k])).Some?
    {
      i := i + 1;
    }
    if i == |tokens| { return Rejected, None; }
    assert EntryAt(d0, p, StageName(dest, tokens[i])).None?;
    assert i == FirstFree(d0, p, dest, tokens);
    var name := StageName(dest, tokens[i]);
    TrimmedIsTree(d0, sh);
    fs.dirs := Staged(fs.dirs, p, name, made, Left(upset, markerId, kind));
    if upset.StatFails? { return Rejected, None; }
    if upset.KilledBare? || upset.KilledMarked? { return Stopped, None; }
    if upset.Smooth? {
      var snapshot := SnapshotAt(fs.dirs, p, dest, name, kind, allowRoot);
      StageNameDiffers(dest, tokens[i]);
      SnapshotOfStaged(d0, p, name, made, markerId, dest, kind, allowRoot, sh);
      if snapshot.Some? && pathStill {
        SnapshotIsLaid(fs.dirs, p, dest, name, kind, allowRoot);
        return Done, Some((name, snapshot.value));
      }
    }
    ending := RemoveStage(fs, p, name, made, Left(upset, markerId, kind), life, d0, Trimmed(d0, sh));
    r := None;
  }

  /** The snapshot of a stage just made. */
  function Approved(d: Table, p: Identity, dest: string, made: Identity): Snapshot {
    Snapshot(p, match EntryAt(d, p, dest) case Some(e) => Some(e.id) case None => None, made)
  }

  /** A failed preparation takes its stage away again. */
  method RemoveStage(fs: FileSystem, p: Identity, name: string, made: Identity, ghost contents: map<string, Entry>,
                     life: Life, ghost d: Table, ghost sh: Shape)
    returns (ending: Ending)
    requires Tree(d, sh) && p in d && name !in d[p] && Unused(d, sh, made)
    requires forall n :: n in contents ==> !contents[n].Directory?
    requires fs.dirs == Staged(d, p, name, made, contents)
    modifies fs
    ensures (ending.Rejected? && fs.dirs == d)
         || (ending.Stopped? && PartlyRemoved(Staged(d, p, name, made, contents), fs.dirs, Grown(sh, p, made), made))
    ensures life.Unhindered? ==> ending.Rejected?
  {
    StagedIsTree(d, sh, p, name, made, contents);
    UnstagedIsOriginal(d, sh, p, name, made, contents);
    var left;
    ending, left := fs.RemoveDirectoryTree(p, name, made, made.device, life, Grown(sh, p, made));
    if ending.Done? { ending := Rejected; }
  }

  lemma StageNameDiffers(dest: string, token: string)
    ensures StageName(dest, token) != dest
  {
    assert |StageName(dest, token)| > |dest|;
  }

  lemma SnapshotOfStaged(d: Table, p: Identity, name: string, made: Identity, markerId: Identity,
                         dest: string, kind: string, allowRoot: bool, sh: Shape)
    requires Tree(d, sh) && p in d && name !in d[p] && made !in d && name != dest
    ensures var contents := map[GENERATED_MARKER := Regular(markerId, kind + "\n")];
      SnapshotAt(Staged(d, p, name, made, contents), p, dest, name, kind, allowRoot)
      == (if |kind| + 1 > MARKER_LIMIT then None
          else match EntryAt(d, p, dest)
               case None => Some(Snapshot(p, None, made))
               case Some(Directory(c)) =>
                 if Owned(d, p, dest, c, kind, allowRoot) then Some(Snapshot(p, Some(c), made)) else None
               case _ => None)
  {
    StagedMarker(d, p, name, made, markerId, kind);
    match EntryAt(d, p, dest)
    case Some(Directory(c)) => StagedKeepsOwned(d, sh, p, name, made, markerId, dest, c, kind, allowRoot);
    case _ =>
  }

  lemma StagedMarker(d: Table, p: Identity, name: string, made: Identity, markerId: Identity, kind: string)
    requires p in d && name !in d[p] && made !in d
    ensures var d' := Staged(d, p, name, made, map[GENERATED_MARKER := Regular(markerId, kind + "\n")]);
      Owned(d', p, name, made, kind, false) <==> |kind| + 1 <= MARKER_LIMIT
  {
  }

  lemma StagedKeepsOwned(d: Table, sh: Shape, p: Identity, name: string, made: Identity, markerId: Identity,
                         dest: string, c: Identity, kind: string, allowRoot: bool)
    requires Tree(d, sh) && p in d && name !in d[p] && made !in d && name != dest
    requires EntryAt(d, p, dest) == Some(Directory(c))
    ensures var d' := Staged(d, p, name, made, map[GENERATED_MARKER := Regular(markerId, kind + "\n")]);
      Owned(d', p, dest, c, kind, allowRoot) <==> Owned(d, p, dest, c, kind, allowRoot)
  {
    assert ChildFits(d, sh, p, c);
  }

  /** What was just prepared can be committed: the snapshot's request is judged ready to rename. */
  lemma PreparedIsCommittable(d: Table, sh: Shape, p: Identity, dest: string, kind: string, allowRoot: bool,
                              token: string, made: Identity, markerId: Identity)
    requires Tree(d, sh) && p in d && Unused(d, sh, made) && ValidName(dest) && '/' !in token && '\0' !in token
    requires EntryAt(d, p, StageName(dest, token)).None?
    requires var contents := map[GENERATED_MARKER := Regular(markerId, kind + "\n")];
      SnapshotAt(Staged(d, p, StageName(dest, token), made, contents), p, dest, StageName(dest, token), kind,
          allowRoot).Some?
    ensures var contents := map[GENERATED_MARKER := Regular(markerId, kind + "\n")];
      var d' := Staged(d, p, StageName(dest, token), made, contents);
      var approved := SnapshotAt(d', p, dest, StageName(dest, token), kind, allowRoot).value;
      Judge(d', Request(Some(p), dest, StageName(dest, token), kind, allowRoot, approved)).Rename?
  {
    var name := StageName(dest, token);
    StageNameDiffers(dest, token);
    StageNameValid(dest, token);
    SnapshotOfStaged(d, p, name, made, markerId, dest, kind, allowRoot, sh);
    match EntryAt(d, p, dest)
    case Some(Directory(c)) => assert ChildFits(d, sh, p, c);
    case _ =>
  }

  lemma StageNameValid(dest: string, token: string)
    requires ValidName(dest) && '/' !in token && '\0' !in token
    ensures ValidName(StageName(dest, token))
  {
    assert |StageName(dest, token)| > 2;
  }

  // ---- the snapshot as text ----

  function FieldsOf(s: Snapshot): seq<string> {
    var c := if s.destination.Some? then s.destination.value else Identity(0, 0);
    [Decimal(s.parent.device), Decimal(s.parent.inode), Decimal(if s.destination.Some? then 1 else 0),
     Decimal(c.device), Decimal(c.inode), Decimal(s.stage.device), Decimal(s.stage.inode)]
  }

  function Serialize(s: Snapshot): string { Join(FieldsOf(s), ' ') }

  function ParseIdentity(device: string, inode: string): Option<Identity> {
    if device == "" || inode == "" || !AllDigits(device) || !AllDigits(inode) then None
    else if Value(device) == 0 || Value(inode) == 0 then None
    else Some(Identity(Value(device), Value(inode)))
  }

  function ParseSnapshot(f: seq<string>): Option<Snapshot> {
    if |f| != 7 || (f[2] != "0" && f[2] != "1") then None
    else
      var parent, stage := ParseIdentity(f[0], f[1]), ParseIdentity(f[5], f[6]);
      var destination := ParseIdentity(f[3], f[4]);
      if parent.None? || stage.None? || (f[2] == "1" && destination.None?) then None
      else Some(Snapshot(parent.value, if f[2] == "1" then destination else None, stage.value))
  }

  predicate Positive(id: Identity) { id.device > 0 && id.inode > 0 }

  predicate Genuine(s: Snapshot) {
    Positive(s.parent) && Positive(s.stage) && (s.destination.Some? ==> Positive(s.destination.value))
  }

  /** The text survives word splitting and is read back exactly when every identity is genuine. */
  lemma SnapshotRoundTrip(s: Snapshot)
    ensures ParseSnapshot(Split(Serialize(s), ' ')) == if Genuine(s) then Some(s) else None
  {
    var f := FieldsOf(s);
    forall i | 0 <= i < |f| ensures ' ' !in f[i] {
      assert AllDigits(f[i]);
    }
    SplitJoin(f, ' ');
    assert Decimal(0) == "0" && Decimal(1) == "1";
  }

  /** Nothing but a genuine snapshot is ever accepted from the command line. */
  lemma ParsedIsGenuine(f: seq<string>)
    requires ParseSnapshot(f).Some?
    ensures Genuine(ParseSnapshot(f).value)
  {
  }

  predicate Number(text: string) { text != "" && AllDigits(text) && Value(text) > 0 }

  /** Exactly seven fields are accepted, all positive numbers but for the third, which says whether the
      fourth and fifth count; and each is read into its own place. */
  lemma ParsedExactly(f: seq<string>)
    ensures ParseSnapshot(f).Some? <==>
      && |f| == 7 && Number(f[0]) && Number(f[1]) && Number(f[5]) && Number(f[6])
      && (f[2] == "0" || (f[2] == "1" && Number(f[3]) && Number(f[4])))
    ensures ParseSnapshot(f).Some? ==>
      var s := ParseSnapshot(f).value;
      && s.parent == Identity(Value(f[0]), Value(f[1])) && s.stage == Identity(Value(f[5]), Value(f[6]))
      && s.destination == if f[2] == "1" then Some(Identity(Value(f[3]), Value(f[4]))) else None
  {
  }

  /** A snapshot without destination has zeros in its place. */
  lemma NoDestinationIsZeros(s: Snapshot)
    requires s.destination.None?
    ensures FieldsOf(s)[2..5] == ["0", "0", "0"]
  {
    assert Decimal(0) == "0";
  }
}
