/**
 Directory entries and mounts. A place is a mount together with a directory entry of the file system
 mounted there. Entries and mounts are numbered; mounts in the order in which they are made, so that a
 mount is younger than the one it sits on.
 */
module VfsTree {
  import opened Common

  type DentryId = nat
  type MountId = nat
  type FsId = nat

  datatype Place = Place(mount: MountId, dentry: DentryId)

  /** An entry with the two flags of its inode. `children` lists the entry's hash table in the order in
      which a search meets them. `depth`, for the specification, counts the steps to the root of the file
      system. */
  datatype Dentry = Dentry(
    name: string, fs: FsId, parent: Option<DentryId>, children: seq<DentryId>, directory: bool, mountpoint: bool,
    depth: nat)

  /** A mount of a file system; `on` joins the source's `parent` and `mountpoint`. */
  datatype Mount = Mount(fs: FsId, on: Option<Place>)

  /** `roots` gives the root entry of each file system; `over` is the mount table, keyed by where a mount
      sits. */
  datatype Tree = Tree(
    dentries: map<DentryId, Dentry>, roots: map<FsId, DentryId>,
    mounts: map<MountId, Mount>, over: map<Place, MountId>, root: MountId)

  /** The entry has a parent or is the root of its file system. */
  predicate Linked(v: Tree, d: DentryId) {
    d in v.dentries && (v.dentries[d].parent.Some? || IsRoot(v, d))
  }

  predicate IsRoot(v: Tree, d: DentryId) {
    d in v.dentries && v.dentries[d].fs in v.roots && v.roots[v.dentries[d].fs] == d
  }

  ghost predicate DentryOk(v: Tree, d: DentryId)
    requires d in v.dentries
  {
    var e := v.dentries[d];
    && (e.parent.Some? ==>
          && Linked(v, e.parent.value)
          && var p := v.dentries[e.parent.value];
             d in p.children && p.fs == e.fs && e.depth == p.depth + 1)
    && (IsRoot(v, d) ==> e.parent.None? && e.directory && e.name == "")
    && (forall c :: c in e.children ==> c in v.dentries && v.dentries[c].parent == Some(d))
    && (e.mountpoint ==> e.directory)
  }

  ghost predicate MountOk(v: Tree, m: MountId)
    requires m in v.mounts
  {
    var e := v.mounts[m];
    && e.fs in v.roots
    && (e.on.Some? ==> && InTree(v, e.on.value) && e.on.value.mount < m
                       && e.on.value in v.over && v.over[e.on.value] == m)
  }

  /** The entry belongs to the file system of the mount: it is its root, or below a directory of it. */
  predicate InTree(v: Tree, p: Place) {
    && p.mount in v.mounts && p.dentry in v.dentries
    && v.dentries[p.dentry].fs == v.mounts[p.mount].fs
    && Linked(v, p.dentry)
  }

  predicate Flagged(v: Tree, p: Place) {
    p.dentry in v.dentries && v.dentries[p.dentry].mountpoint
  }

  /** Entries and their parents agree, mounts and the mount table agree, a file system is mounted once, and
      an entry is flagged as a mountpoint exactly where a mount sits on it. */
  ghost predicate TreeOk(v: Tree) {
    && v.root in v.mounts && v.mounts[v.root].on.None?
    && RootsOk(v)
    && (forall d :: d in v.dentries ==> DentryOk(v, d))
    && (forall m :: m in v.mounts ==> MountOk(v, m))
    && (forall m, n :: m in v.mounts && n in v.mounts && v.mounts[m].fs == v.mounts[n].fs ==> m == n)
    && (forall p :: p in v.over ==> v.over[p] in v.mounts && v.mounts[v.over[p]].on == Some(p))
    && (forall p :: InTree(v, p) ==> (Flagged(v, p) <==> p in v.over))
    && (forall d :: d in v.dentries && v.dentries[d].mountpoint ==> HasMount(v, d))
  }

  ghost predicate RootsOk(v: Tree) {
    forall f :: f in v.roots ==> v.roots[f] in v.dentries && v.dentries[v.roots[f]].fs == f
  }

  ghost predicate HasMount(v: Tree, d: DentryId) {
    exists m: MountId :: Place(m, d) in v.over
  }

  // ---------------------------------------------------------------------------------------------
  // Moving about

  /** The root of a mount. */
  function MntRoot(v: Tree, m: MountId): Place
    requires m in v.mounts && v.mounts[m].fs in v.roots
  {
    Place(m, v.roots[v.mounts[m].fs])
  }

  /** One step towards the root: to the parent entry, or off the root of a mount to where it sits. */
  function Up(v: Tree, p: Place): Option<Place>
    requires InTree(v, p)
  {
    if v.dentries[p.dentry].parent.Some? then Some(Place(p.mount, v.dentries[p.dentry].parent.value))
    else v.mounts[p.mount].on
  }

  /** The mount hangs, through the mounts it sits on, from the root mount. */
  predicate Attached(v: Tree, m: MountId)
    decreases m
  {
    && m in v.mounts
    && (m == v.root || (v.mounts[m].on.Some? && v.mounts[m].on.value.mount < m
                        && Attached(v, v.mounts[m].on.value.mount)))
  }

  lemma UpInTree(v: Tree, p: Place)
    requires TreeOk(v) && InTree(v, p) && Up(v, p).Some?
    ensures InTree(v, Up(v, p).value)
  {
    assert DentryOk(v, p.dentry) && MountOk(v, p.mount);
    if v.dentries[p.dentry].parent.Some? {
      assert DentryOk(v, v.dentries[p.dentry].parent.value);
    }
  }

  /** Down to a child is undone by up. */
  lemma ChildUp(v: Tree, p: Place, c: DentryId)
    requires TreeOk(v) && InTree(v, p) && c in v.dentries[p.dentry].children
    ensures var q := Place(p.mount, c);
            InTree(v, q) && Up(v, q) == Some(p)
  {
    assert DentryOk(v, p.dentry);
    assert DentryOk(v, c);
  }

  /** Down into a mount is undone by up. */
  lemma MountUp(v: Tree, p: Place)
    requires TreeOk(v) && InTree(v, p) && Flagged(v, p)
    ensures p in v.over && v.over[p] in v.mounts && p.mount < v.over[p] && v.mounts[v.over[p]].fs in v.roots
    ensures var q := MntRoot(v, v.over[p]);
            InTree(v, q) && Up(v, q) == Some(p)
  {
    assert MountOk(v, v.over[p]);
    assert DentryOk(v, MntRoot(v, v.over[p]).dentry);
  }

  lemma RootInTree(v: Tree)
    requires TreeOk(v)
    ensures v.mounts[v.root].fs in v.roots
    ensures InTree(v, MntRoot(v, v.root)) && Up(v, MntRoot(v, v.root)).None?
  {
    assert MountOk(v, v.root);
    assert DentryOk(v, MntRoot(v, v.root).dentry);
  }

  // ---------------------------------------------------------------------------------------------
  // Growing the tree

  /** `dentry_alloc`: an entry that is in no tree */
  function NewDentry(v: Tree, d: DentryId, name: string, directory: bool): Tree {
    v.(dentries := v.dentries[d := Dentry(name, 0, None, [], directory, false, 0)])
  }

  /** `vfs_fs_create`: a file system with its root entry */
  function NewFs(v: Tree, f: FsId, d: DentryId): Tree {
    v.(dentries := v.dentries[d := Dentry("", f, None, [], true, false, 0)], roots := v.roots[f := d])
  }

  /** `vfs_mount_create` */
  function NewMount(v: Tree, m: MountId, f: FsId): Tree {
    v.(mounts := v.mounts[m := Mount(f, None)])
  }

  /** `dentry_activate` below a directory: insertion at the head of the hash chain */
  function Activate(v: Tree, child: DentryId, parent: DentryId): Tree
    requires child in v.dentries && parent in v.dentries && child != parent
  {
    var p := v.dentries[parent];
    v.(dentries := v.dentries[child := v.dentries[child].(parent := Some(parent), fs := p.fs, depth := p.depth + 1)]
                             [parent := p.(children := [child] + p.children)])
  }

  /** `vfs_mount_add`, once its two tests have passed */
  function MountOver(v: Tree, m: MountId, p: Place): Tree
    requires m in v.mounts && p.dentry in v.dentries
  {
    v.(mounts := v.mounts[m := v.mounts[m].(on := Some(p))],
       over := v.over[p := m],
       dentries := v.dentries[p.dentry := v.dentries[p.dentry].(mountpoint := true)])
  }

  // ---------------------------------------------------------------------------------------------
  // Every way of growing keeps the tree in order

  /** Where an entry is put that was not there: nothing refers to it. */
  lemma NewDentryKeeps(v: Tree, d: DentryId, name: string, directory: bool)
    requires TreeOk(v) && d !in v.dentries
    ensures TreeOk(NewDentry(v, d, name, directory)) && Loose(NewDentry(v, d, name, directory), d)
  {
    var w := NewDentry(v, d, name, directory);
    EntryAdded(v, w, d);
  }

  lemma NewFsKeeps(v: Tree, f: FsId, d: DentryId)
    requires TreeOk(v) && d !in v.dentries && f !in v.roots
    ensures TreeOk(NewFs(v, f, d))
  {
    hide MountOk;
    var w := NewFs(v, f, d);
    EntryAdded(v, w, d);
  }

  /** One entry more, without parent or children, and perhaps a file system of which it is the root. */
  lemma EntryAdded(v: Tree, w: Tree, d: DentryId)
    requires TreeOk(v) && Added(v, w, d)
    ensures TreeOk(w)
  {
    hide DentryOk, MountOk, InTree, Flagged;
    forall x | x in w.dentries
      ensures DentryOk(w, x)
    {
      EntryAddedDentry(v, w, d, x);
    }
    forall m | m in w.mounts
      ensures MountOk(w, m)
    {
      EntryAddedMount(v, w, d, m);
    }
    forall p | InTree(w, p)
      ensures Flagged(w, p) <==> p in w.over
    {
      PlaceMount(w, p);
      EntryAddedPlace(v, w, d, p);
    }
    forall x | x in w.dentries && w.dentries[x].mountpoint
      ensures HasMount(w, x)
    {
      assert HasMount(v, x);
    }
  }

  lemma PlaceMount(v: Tree, p: Place)
    requires InTree(v, p)
    ensures p.mount in v.mounts
  {
  }

  /** The tree as before but for one entry that nothing refers to. */
  ghost predicate Added(v: Tree, w: Tree, d: DentryId) {
    && d !in v.dentries && d in w.dentries
    && w == v.(dentries := v.dentries[d := w.dentries[d]], roots := w.roots)
    && (w.roots == v.roots || (w.dentries[d].fs !in v.roots && w.roots == v.roots[w.dentries[d].fs := d]))
    && var e := w.dentries[d];
       e.parent.None? && e.children == [] && !e.mountpoint && ((e.directory && e.name == "") || w.roots == v.roots)
  }

  lemma EntryAddedDentry(v: Tree, w: Tree, d: DentryId, x: DentryId)
    requires RootsOk(v) && Added(v, w, d) && x in w.dentries && (x != d ==> DentryOk(v, x))
    ensures DentryOk(w, x)
  {
  }

  lemma EntryAddedMount(v: Tree, w: Tree, d: DentryId, m: MountId)
    requires Added(v, w, d) && m in v.mounts && MountOk(v, m)
    ensures MountOk(w, m)
  {
  }

  lemma EntryAddedPlace(v: Tree, w: Tree, d: DentryId, p: Place)
    requires RootsOk(v) && Added(v, w, d) && InTree(w, p) && MountOk(v, p.mount)
    requires InTree(v, p) ==> (Flagged(v, p) <==> p in v.over)
    ensures Flagged(w, p) <==> p in w.over
  {
  }

  /** The entry is not in use: it is not in the tree of a file system and has no mount on it. */
  predicate Loose(v: Tree, child: DentryId) {
    child in v.dentries && !Linked(v, child) && !v.dentries[child].mountpoint
  }

  lemma ActivateDentry(v: Tree, child: DentryId, parent: DentryId, d: DentryId)
    requires RootsOk(v) && forall x :: x in v.dentries ==> DentryOk(v, x)
    requires child in v.dentries && parent in v.dentries && child != parent && d in v.dentries
    requires Loose(v, child) && Linked(v, parent)
    ensures DentryOk(Activate(v, child, parent), d)
  {
    var w := Activate(v, child, parent);
    assert DentryOk(v, d) && DentryOk(v, parent);
    assert w.dentries[parent].children[0] == child;
    forall c | c in w.dentries[d].children
      ensures c in w.dentries && w.dentries[c].parent == Some(d)
    {
      if c != child {
        assert c in v.dentries[d].children;
      }
    }
    if w.dentries[d].parent.Some? && d != child {
      assert d in v.dentries[v.dentries[d].parent.value].children;
    }
  }

  lemma ActivateMount(v: Tree, child: DentryId, parent: DentryId, m: MountId)
    requires Loose(v, child) && Linked(v, parent) && m in v.mounts
    requires MountOk(v, m)
    ensures MountOk(Activate(v, child, parent), m)
  {
  }

  lemma ActivateFlag(v: Tree, child: DentryId, parent: DentryId, p: Place)
    requires TreeOk(v) && Loose(v, child) && Linked(v, parent)
    requires InTree(Activate(v, child, parent), p)
    ensures Flagged(Activate(v, child, parent), p) <==> p in v.over
  {
    hide DentryOk;
    assert p.dentry != child ==> InTree(v, p);
    assert p in v.over ==> MountOk(v, v.over[p]);
  }

  lemma ActivateKeeps(v: Tree, child: DentryId, parent: DentryId)
    requires TreeOk(v) && Loose(v, child) && Linked(v, parent)
    ensures TreeOk(Activate(v, child, parent))
  {
    hide DentryOk, MountOk, Flagged, InTree;
    var w := Activate(v, child, parent);
    forall d | d in w.dentries
      ensures DentryOk(w, d)
    {
      ActivateDentry(v, child, parent, d);
    }
    forall m | m in w.mounts
      ensures MountOk(w, m)
    {
      ActivateMount(v, child, parent, m);
    }
    forall p | InTree(w, p)
      ensures Flagged(w, p) <==> p in w.over
    {
      ActivateFlag(v, child, parent, p);
    }
    forall d | d in w.dentries && w.dentries[d].mountpoint
      ensures HasMount(w, d)
    {
      assert HasMount(v, d);
    }
  }

  /** The mount sits nowhere yet, and `p` is a directory of an older mount with nothing on it. */
  ghost predicate CanMount(v: Tree, m: MountId, p: Place) {
    && InTree(v, p) && m in v.mounts && m != v.root && v.mounts[m].on.None?
    && p.mount < m && v.dentries[p.dentry].directory && p !in v.over
  }

  lemma MountOverDentry(v: Tree, m: MountId, p: Place, d: DentryId)
    requires CanMount(v, m, p) && d in v.dentries && DentryOk(v, d)
    ensures DentryOk(MountOver(v, m, p), d)
  {
    var w := MountOver(v, m, p);
    assert forall x :: x in w.dentries ==> w.dentries[x].parent == v.dentries[x].parent;
  }

  lemma MountOverMount(v: Tree, m: MountId, p: Place, n: MountId)
    requires CanMount(v, m, p) && n in v.mounts && MountOk(v, n) && v.mounts[m].fs in v.roots
    ensures MountOk(MountOver(v, m, p), n)
  {
  }

  lemma PlaceParts(v: Tree, p: Place)
    requires InTree(v, p)
    ensures p.mount in v.mounts && p.dentry in v.dentries
  {
  }

  lemma FsHasRoot(v: Tree, m: MountId)
    requires m in v.mounts && MountOk(v, m)
    ensures v.mounts[m].fs in v.roots
  {
  }

  lemma MountOverFlag(v: Tree, m: MountId, p: Place, q: Place)
    requires CanMount(v, m, p) && InTree(MountOver(v, m, p), q)
    requires InTree(v, q) ==> (Flagged(v, q) <==> q in v.over)
    requires forall a, b :: a in v.mounts && b in v.mounts && v.mounts[a].fs == v.mounts[b].fs ==> a == b
    ensures Flagged(MountOver(v, m, p), q) <==> q in MountOver(v, m, p).over
  {
    assert InTree(v, q);
    assert q.dentry == p.dentry ==> q.mount == p.mount;
  }

  lemma MountOverHas(v: Tree, m: MountId, p: Place, d: DentryId)
    requires CanMount(v, m, p) && d in v.dentries && (d != p.dentry ==> HasMount(v, d))
    ensures HasMount(MountOver(v, m, p), d)
  {
    var w := MountOver(v, m, p);
    if d == p.dentry {
      assert Place(p.mount, d) in w.over;
    } else {
      var n: MountId :| Place(n, d) in v.over;
      assert Place(n, d) in w.over;
    }
  }

  lemma MountOverKeeps(v: Tree, m: MountId, p: Place)
    requires TreeOk(v) && CanMount(v, m, p)
    ensures TreeOk(MountOver(v, m, p))
  {
    hide DentryOk, MountOk, HasMount, InTree, Flagged;
    PlaceParts(v, p);
    var w := MountOver(v, m, p);
    forall d | d in w.dentries
      ensures DentryOk(w, d)
    {
      MountOverDentry(v, m, p, d);
    }
    forall n | n in w.mounts
      ensures MountOk(w, n)
    {
      assert MountOk(v, n) && v.mounts[m].fs in v.roots by { assert MountOk(v, m); FsHasRoot(v, m); }
      MountOverMount(v, m, p, n);
    }
    forall q: Place | InTree(w, q)
      ensures Flagged(w, q) <==> q in w.over
    {
      MountOverFlag(v, m, p, q);
    }
    forall d | d in w.dentries && w.dentries[d].mountpoint
      ensures HasMount(w, d)
    {
      MountOverHas(v, m, p, d);
    }
  }

  /** A new mount of a file system that is not mounted, younger than all others. */
  ghost predicate CanMake(v: Tree, m: MountId, f: FsId) {
    && f in v.roots
    && (forall n :: n in v.mounts ==> n < m && v.mounts[n].fs != f)
  }

  lemma NewMountKeeps(v: Tree, m: MountId, f: FsId)
    requires TreeOk(v) && CanMake(v, m, f)
    ensures TreeOk(NewMount(v, m, f))
  {
    hide DentryOk, MountOk, InTree, Flagged;
    var w := NewMount(v, m, f);
    forall d | d in w.dentries
      ensures DentryOk(w, d)
    {
      NewMountDentry(v, m, f, d);
    }
    forall n | n in w.mounts
      ensures MountOk(w, n)
    {
      NewMountMount(v, m, f, n);
    }
    forall p | InTree(w, p)
      ensures Flagged(w, p) <==> p in w.over
    {
      NewMountFlag(v, m, f, p);
    }
    forall d | d in w.dentries && w.dentries[d].mountpoint
      ensures HasMount(w, d)
    {
      assert HasMount(v, d);
    }
  }

  lemma NewMountDentry(v: Tree, m: MountId, f: FsId, d: DentryId)
    requires d in v.dentries && DentryOk(v, d)
    ensures DentryOk(NewMount(v, m, f), d)
  {
  }

  lemma NewMountMount(v: Tree, m: MountId, f: FsId, n: MountId)
    requires CanMake(v, m, f) && (n == m || (n in v.mounts && MountOk(v, n)))
    ensures MountOk(NewMount(v, m, f), n)
  {
  }

  lemma NewMountFlag(v: Tree, m: MountId, f: FsId, p: Place)
    requires TreeOk(v) && CanMake(v, m, f) && InTree(NewMount(v, m, f), p)
    ensures Flagged(NewMount(v, m, f), p) <==> p in v.over
  {
    hide DentryOk;
    assert p in v.over ==> MountOk(v, v.over[p]);
    if p.mount == m {
      Unmounted(v, f, p.dentry);
    } else {
      assert InTree(v, p);
    }
  }

  /** An entry of a file system that is not mounted has no mount on it. */
  lemma Unmounted(v: Tree, f: FsId, d: DentryId)
    requires TreeOk(v) && d in v.dentries && v.dentries[d].fs == f
    requires forall n :: n in v.mounts ==> v.mounts[n].fs != f
    ensures !v.dentries[d].mountpoint
  {
    hide DentryOk;
    forall n: MountId
      ensures Place(n, d) !in v.over
    {
      assert Place(n, d) in v.over ==> MountOk(v, v.over[Place(n, d)]);
    }
  }
}
