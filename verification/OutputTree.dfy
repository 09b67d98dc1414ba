/** Directories as a table of identities, and the identity-checked removal of one subtree.

    A directory is named by its device and inode and holds entries by name, so a rename moves an
    identity and never copies contents.  `Shape` is the tree the table forms: who is above whom.
 */
module OutputTree {

  datatype Identity = Identity(device: nat, inode: nat)

  datatype Entry =
    | Directory(id: Identity)
    | Regular(id: Identity, content: string)
    | Other(id: Identity)

  type Table = map<Identity, map<string, Entry>>

  datatype Shape = Shape(up: map<Identity, Identity>, depth: map<Identity, nat>, height: nat)

  predicate Holds(d: Table, p: Identity, name: string, e: Entry) {
    p in d && name in d[p] && d[p][name] == e
  }

  predicate HoldsDirectory(d: Table, p: Identity, c: Identity) {
    p in d && exists n :: n in d[p] && d[p][n] == Directory(c)
  }

  predicate ChildFits(d: Table, sh: Shape, p: Identity, c: Identity) {
    c in d && c in sh.up && sh.up[c] == p && p in sh.depth && c in sh.depth && sh.depth[c] == sh.depth[p] + 1
  }

  /** The table is a forest of the given shape: every directory entry leads one level down, no
      directory has two entries, and a directory that has a parent is found in it. */
  predicate Tree(d: Table, sh: Shape) {
    && (forall p :: p in d ==> p in sh.depth && sh.depth[p] <= sh.height)
    && (forall p, n :: p in d && n in d[p] && d[p][n].Directory? ==> ChildFits(d, sh, p, d[p][n].id))
    && (forall p, n, m :: p in d && n in d[p] && m in d[p] && d[p][n].Directory? && d[p][n] == d[p][m] ==> n == m)
    && (forall c :: c in d && c in sh.up ==> HoldsDirectory(d, sh.up[c], c))
  }

  /** `x` is `root` or lies below it. */
  predicate Under(sh: Shape, x: Identity, root: Identity)
    decreases if x in sh.depth then sh.depth[x] else 0
  {
    x == root
    || (x in sh.up && x in sh.depth && sh.up[x] in sh.depth && sh.depth[sh.up[x]] < sh.depth[x]
        && Under(sh, sh.up[x], root))
  }

  lemma {:induction false} UnderIsDeeper(sh: Shape, x: Identity, root: Identity)
    requires Under(sh, x, root) && root in sh.depth && x != root
    ensures x in sh.depth && sh.depth[root] < sh.depth[x]
    decreases if x in sh.depth then sh.depth[x] else 0
  {
    if sh.up[x] == root {
    } else {
      UnderIsDeeper(sh, sh.up[x], root);
    }
  }

  lemma {:induction false} UnderTransitive(sh: Shape, x: Identity, mid: Identity, root: Identity)
    requires Under(sh, x, mid) && Under(sh, mid, root)
    ensures Under(sh, x, root)
    decreases if x in sh.depth then sh.depth[x] else 0
  {
    if x == mid {
    } else {
      UnderTransitive(sh, sh.up[x], mid, root);
    }
  }

  /** Subtrees of different directories on one level share nothing. */
  lemma {:induction false} SiblingsDisjoint(sh: Shape, x: Identity, a: Identity, b: Identity)
    requires a in sh.depth && b in sh.depth && sh.depth[a] == sh.depth[b]
    requires Under(sh, x, a) && Under(sh, x, b)
    ensures a == b
    decreases if x in sh.depth then sh.depth[x] else 0
  {
    if x != a && x != b {
      SiblingsDisjoint(sh, sh.up[x], a, b);
    } else if x != a {
      UnderIsDeeper(sh, x, a);
    } else if x != b {
      UnderIsDeeper(sh, x, b);
    }
  }

  /** Nothing in the table lies below a directory without subdirectories. */
  lemma {:induction false} LeafHasNothingBelow(d: Table, sh: Shape, root: Identity, x: Identity)
    requires Tree(d, sh) && root in d && x in d && Under(sh, x, root)
    requires forall n :: n in d[root] ==> !d[root][n].Directory?
    ensures x == root
    decreases if x in sh.depth then sh.depth[x] else 0
  {
    if x == root {
    } else {
      assert HoldsDirectory(d, sh.up[x], x);
      LeafHasNothingBelow(d, sh, root, sh.up[x]);
    }
  }

  datatype Ending = Done | Rejected | Stopped

  /** How many more deletions there are before the process is killed or the operating system refuses to
      go on: an entry that cannot be deleted, no descriptor left, a recursion too deep. */
  datatype Life = Unhindered | Halted(after: nat)

  function OneLess(life: Life): Life {
    if life.Unhindered? || life.after == 0 then life else Halted(life.after - 1)
  }

  // ---- what removal leaves behind ----

  function Without(entries: map<string, Entry>, name: string): map<string, Entry> {
    map n | n in entries && n != name :: entries[n]
  }

  function Removed(d: Table, x: Identity): Table { map y | y in d && y != x :: d[y] }

  /** The table after `name`, which leads to `root`, has been removed with everything below it. */
  function Pruned(d: Table, sh: Shape, p: Identity, name: string, root: Identity): Table
    requires p in d
  {
    map x | x in d && !Under(sh, x, root) :: if x == p then Without(d[p], name) else d[x]
  }

  /** A removal in progress: only entries below `root` have disappeared, `root` itself is still there. */
  predicate PartlyRemoved(d: Table, d': Table, sh: Shape, root: Identity) {
    && Tree(d', sh) && root in d'
    && (forall x :: x in d' ==> x in d)
    && (forall x :: x in d && !Under(sh, x, root) ==> x in d' && d'[x] == d[x])
    && (forall x, n :: x in d' && n in d'[x] ==> n in d[x] && d'[x][n] == d[x][n])
  }

  /** Everything below `root` is on one device. */
  predicate OneDevice(d: Table, sh: Shape, root: Identity, device: nat) {
    forall x :: x in d && x != root && Under(sh, x, root) ==> x.device == device
  }

  predicate LostOnly(d: Table, d': Table, device: nat) {
    forall x :: x in d && x !in d' ==> x.device == device
  }

  /** How a removal can end: completely, and only if nothing below is foreign; refused, either at once
      or because something is foreign; or stopped.  What is outside the subtree is never touched. */
  predicate RemovalOutcome(d: Table, d': Table, sh: Shape, p: Identity, name: string, root: Identity, device: nat,
      ending: Ending)
    requires p in d
  {
    if !Holds(d, p, name, Directory(root)) then ending.Rejected? && d' == d
    else match ending
      case Done => OneDevice(d, sh, root, device) && d' == Pruned(d, sh, p, name, root)
      case Rejected => !OneDevice(d, sh, root, device) && PartlyRemoved(d, d', sh, root)
      case Stopped => PartlyRemoved(d, d', sh, root)
  }

  lemma PartlyRemovedTwice(d: Table, d1: Table, d2: Table, sh: Shape, root: Identity)
    requires PartlyRemoved(d, d1, sh, root) && PartlyRemoved(d1, d2, sh, root)
    ensures PartlyRemoved(d, d2, sh, root)
  {
  }

  /** Finishing an interrupted removal gives what an uninterrupted one would have given. */
  lemma RetriedRemovalConverges(d: Table, d': Table, sh: Shape, p: Identity, name: string, root: Identity)
    requires Tree(d, sh) && Holds(d, p, name, Directory(root)) && PartlyRemoved(d, d', sh, root)
    ensures Holds(d', p, name, Directory(root)) && Pruned(d', sh, p, name, root) == Pruned(d, sh, p, name, root)
  {
    ParentNotUnder(d, sh, p, name, root);
  }

  lemma ParentNotUnder(d: Table, sh: Shape, p: Identity, name: string, root: Identity)
    requires Tree(d, sh) && Holds(d, p, name, Directory(root))
    ensures !Under(sh, p, root)
  {
    assert ChildFits(d, sh, p, root);
    if Under(sh, p, root) {
      UnderIsDeeper(sh, p, root);
    }
  }

  lemma PrunedIsTree(d: Table, sh: Shape, p: Identity, name: string, root: Identity)
    requires Tree(d, sh) && Holds(d, p, name, Directory(root))
    ensures Tree(Pruned(d, sh, p, name, root), sh)
  {
    var d': Table := Pruned(d, sh, p, name, root);
    ParentNotUnder(d, sh, p, name, root);
    forall q: Identity, n: string | q in d' && n in d'[q] && d'[q][n].Directory?
      ensures ChildFits(d', sh, q, d'[q][n].id)
    {
      var c := d'[q][n].id;
      assert d[q][n] == Directory(c) && ChildFits(d, sh, q, c);
      assert ChildFits(d, sh, p, root);
    }
    forall c | c in d' && c in sh.up ensures HoldsDirectory(d', sh.up[c], c) {
      assert HoldsDirectory(d, sh.up[c], c);
      var n :| n in d[sh.up[c]] && d[sh.up[c]][n] == Directory(c);
      assert ChildFits(d, sh, sh.up[c], c);
      assert n in d'[sh.up[c]] && d'[sh.up[c]][n] == Directory(c);
    }
  }

  lemma EntryUnlinked(d: Table, sh: Shape, p: Identity, name: string, root: Identity, child: string)
    requires Tree(d, sh) && Holds(d, p, name, Directory(root)) && root in d
    requires child in d[root] && !d[root][child].Directory?
    ensures var d' := d[root := Without(d[root], child)];
      PartlyRemoved(d, d', sh, root) && Holds(d', p, name, Directory(root)) && LostOnly(d, d', 0)
      && d'[root].Keys == d[root].Keys - {child}
  {
    var d': Table := d[root := Without(d[root], child)];
    ParentNotUnder(d, sh, p, name, root);
    forall c | c in d' && c in sh.up ensures HoldsDirectory(d', sh.up[c], c) {
      assert HoldsDirectory(d, sh.up[c], c);
      var n :| n in d[sh.up[c]] && d[sh.up[c]][n] == Directory(c);
      assert n in d'[sh.up[c]] && d'[sh.up[c]][n] == Directory(c);
    }
    forall q: Identity, n: string | q in d' && n in d'[q] && d'[q][n].Directory?
      ensures ChildFits(d', sh, q, d'[q][n].id)
    {
      assert d[q][n] == d'[q][n] && ChildFits(d, sh, q, d[q][n].id);
    }
  }

  lemma InnerRemoved(d: Table, sh: Shape, p: Identity, name: string, root: Identity, child: string, c: Identity)
    requires Tree(d, sh) && Holds(d, p, name, Directory(root)) && Holds(d, root, child, Directory(c))
    ensures var d' := Pruned(d, sh, root, child, c);
      PartlyRemoved(d, d', sh, root) && Holds(d', p, name, Directory(root)) && root in d'
          && d'[root] == Without(d[root], child)
    ensures forall x :: Under(sh, x, c) ==> Under(sh, x, root)
  {
    BelowChild(d, sh, root, child, c);
    ParentNotUnder(d, sh, p, name, root);
    ParentNotUnder(d, sh, root, child, c);
    PrunedIsTree(d, sh, root, child, c);
  }

  lemma BelowChild(d: Table, sh: Shape, root: Identity, child: string, c: Identity)
    requires Tree(d, sh) && Holds(d, root, child, Directory(c))
    ensures forall x :: Under(sh, x, c) ==> Under(sh, x, root)
  {
    assert ChildFits(d, sh, root, c);
    assert Under(sh, c, root);
    forall x | Under(sh, x, c) ensures Under(sh, x, root) {
      UnderTransitive(sh, x, c, root);
    }
  }

  lemma InnerStopped(d: Table, d': Table, sh: Shape, p: Identity, name: string, root: Identity, child: string,
      c: Identity)
    requires Tree(d, sh) && Holds(d, p, name, Directory(root)) && Holds(d, root, child, Directory(c))
    requires d' == d || PartlyRemoved(d, d', sh, c)
    ensures PartlyRemoved(d, d', sh, root) && Holds(d', p, name, Directory(root))
    ensures Under(sh, c, root)
  {
    BelowChild(d, sh, root, child, c);
    assert Under(sh, c, c);
    ParentNotUnder(d, sh, p, name, root);
    ParentNotUnder(d, sh, root, child, c);
    assert ChildFits(d, sh, p, root);
  }

  lemma ForeignBelow(d: Table, d': Table, sh: Shape, root: Identity, c: Identity, device: nat)
    requires PartlyRemoved(d, d', sh, root) && c in d' && c != root && Under(sh, c, root) && root in sh.depth
    requires !OneDevice(d', sh, c, device)
    ensures !OneDevice(d, sh, root, device)
  {
    var x :| x in d' && x != c && Under(sh, x, c) && x.device != device;
    UnderTransitive(sh, x, c, root);
    UnderIsDeeper(sh, c, root);
    if x == root {
      UnderIsDeeper(sh, x, c);
    }
  }

  lemma LastStep(d0: Table, d: Table, sh: Shape, p: Identity, name: string, root: Identity, device: nat)
    requires Tree(d0, sh) && PartlyRemoved(d0, d, sh, root) && Holds(d0, p, name, Directory(root)) && d[root] == map[]
    requires LostOnly(d0, d, device)
    ensures p in d && Removed(d, root)[p := Without(d[p], name)] == Pruned(d0, sh, p, name, root)
    ensures OneDevice(d0, sh, root, device)
  {
    ParentNotUnder(d0, sh, p, name, root);
    forall x | x in d && Under(sh, x, root) ensures x == root {
      LeafHasNothingBelow(d, sh, root, x);
    }
  }

  lemma ForeignChild(d: Table, sh: Shape, p: Identity, name: string, root: Identity, child: string, c: Identity)
    requires Tree(d, sh) && Holds(d, p, name, Directory(root)) && Holds(d, root, child, Directory(c))
    ensures PartlyRemoved(d, d, sh, root) && c != root && ChildFits(d, sh, root, c)
    ensures forall device :: OneDevice(d, sh, root, device) ==> c.device == device
  {
    assert ChildFits(d, sh, p, root) && ChildFits(d, sh, root, c);
    assert Under(sh, c, root);
  }

  lemma RemovedChild(d: Table, d': Table, sh: Shape, p: Identity, name: string, root: Identity, child: string,
                     c: Identity, device: nat)
    requires Tree(d, sh) && Holds(d, p, name, Directory(root)) && Holds(d, root, child, Directory(c))
    requires c.device == device && OneDevice(d, sh, c, device) && d' == Pruned(d, sh, root, child, c)
    ensures PartlyRemoved(d, d', sh, root) && Holds(d', p, name, Directory(root))
    ensures d'[root].Keys == d[root].Keys - {child} && LostOnly(d, d', device)
  {
    InnerRemoved(d, sh, p, name, root, child, c);
  }

  lemma StoppedChild(d: Table, d': Table, sh: Shape, p: Identity, name: string, root: Identity, child: string,
                     c: Identity, device: nat)
    requires Tree(d, sh) && Holds(d, p, name, Directory(root)) && Holds(d, root, child, Directory(c))
    requires PartlyRemoved(d, d', sh, c)
    ensures PartlyRemoved(d, d', sh, root) && Holds(d', p, name, Directory(root))
    ensures !OneDevice(d, sh, c, device) ==> !OneDevice(d, sh, root, device)
  {
    InnerStopped(d, d', sh, p, name, root, child, c);
    ForeignChild(d, sh, p, name, root, child, c);
    if !OneDevice(d, sh, c, device) { ForeignBelow(d, d, sh, root, c, device); }
  }

  lemma ChildRemoval(d: Table, d': Table, sh: Shape, p: Identity, name: string, root: Identity, child: string,
                     c: Identity, device: nat, ending: Ending)
    requires Tree(d, sh) && Holds(d, p, name, Directory(root)) && Holds(d, root, child, Directory(c))
    requires c.device == device && c != root && RemovalOutcome(d, d', sh, root, child, c, device, ending)
    ensures PartlyRemoved(d, d', sh, root) && Holds(d', p, name, Directory(root))
    ensures ending.Done? ==> d'[root].Keys == d[root].Keys - {child} && LostOnly(d, d', device)
    ensures ending.Rejected? ==> !OneDevice(d, sh, root, device)
  {
    if ending.Done? {
      RemovedChild(d, d', sh, p, name, root, child, c, device);
    } else {
      StoppedChild(d, d', sh, p, name, root, child, c, device);
    }
  }

  class FileSystem {
    var dirs: Table

    constructor (dirs: Table)
      ensures this.dirs == dirs
    {
      this.dirs := dirs;
    }

    /** Deletes `name` if it is still the directory `expected`, refusing to cross onto another
        device.  `life` says after how many deletions it is stopped, if it is. */
    method RemoveDirectoryTree(p: Identity, name: string, expected: Identity, device: nat, life: Life, ghost sh: Shape)
      returns (ending: Ending, left: Life)
      requires Tree(dirs, sh) && p in dirs
      modifies this
      ensures RemovalOutcome(old(dirs), dirs, sh, p, name, expected, device, ending)
      ensures life.Unhindered? ==> left.Unhindered? && !ending.Stopped?
      decreases sh.height - sh.depth[p], 0
    {
      left := life;
      if name !in dirs[p] || dirs[p][name] != Directory(expected) {
        return Rejected, left;
      }
      assert ChildFits(dirs, sh, p, expected);
      ghost var d0 := dirs;
      ParentNotUnder(d0, sh, p, name, expected);
      var names := dirs[expected].Keys;
      while names != {}
        invariant PartlyRemoved(d0, dirs, sh, expected) && Holds(dirs, p, name, Directory(expected))
        invariant dirs[expected].Keys == names && LostOnly(d0, dirs, device)
        invariant life.Unhindered? ==> left.Unhindered?
        decreases names
      {
        var child :| child in names;
        ghost var d1 := dirs;
        ending, left := RemoveChild(expected, child, device, left, p, name, sh);
        PartlyRemovedTwice(d0, d1, dirs, sh, expected);
        if !ending.Done? { return; }
        names := names - {child};
      }
      if left == Halted(0) { return Stopped, left; }
      left := OneLess(left);
      LastStep(d0, dirs, sh, p, name, expected, device);
      dirs := Removed(dirs, expected)[p := Without(dirs[p], name)];
      return Done, left;
    }

    /** One turn of the loop over a directory's listing. */
    method RemoveChild(root: Identity, child: string, device: nat, life: Life, ghost p: Identity, ghost name: string,
        ghost sh: Shape)
      returns (ending: Ending, left: Life)
      requires Tree(dirs, sh) && Holds(dirs, p, name, Directory(root)) && root in dirs && child in dirs[root]
      modifies this
      ensures PartlyRemoved(old(dirs), dirs, sh, root) && Holds(dirs, p, name, Directory(root))
      ensures ending.Done? ==> dirs[root].Keys == old(dirs)[root].Keys - {child} && LostOnly(old(dirs), dirs, device)
      ensures ending.Rejected? ==> !OneDevice(old(dirs), sh, root, device)
      ensures life.Unhindered? ==> left.Unhindered? && !ending.Stopped?
      decreases sh.height - sh.depth[root], 1
    {
      left := life;
      ghost var d1 := dirs;
      if dirs[root][child].Directory? {
        var c := dirs[root][child].id;
        ForeignChild(d1, sh, p, name, root, child, c);
        if c.device != device { return Rejected, left; }
        ending, left := RemoveDirectoryTree(root, child, c, device, left, sh);
        ChildRemoval(d1, dirs, sh, p, name, root, child, c, device, ending);
      } else {
        if left == Halted(0) { return Stopped, left; }
        EntryUnlinked(d1, sh, p, name, root, child);
        left := OneLess(left);
        dirs := dirs[root := Without(dirs[root], child)];
        return Done, left;
      }
    }
  }
}
