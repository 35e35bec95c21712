/**
 The trees the file system code builds: from the root mount, by allocating entries, creating file systems,
 linking entries below others and mounting, in any order.
 */
module VfsRuns {
  import opened Common
  import opened VfsTree
  import opened Paths

  /** `DoMount` is `vfs_do_mount`: the mount is made, and added unless one of the two tests refuses it. The
      numbers of what is made are new. */
  datatype Op =
    | MakeEntry(d: DentryId, name: string, directory: bool)
    | MakeFs(f: FsId, d: DentryId)
    | Link(child: DentryId, parent: DentryId)
    | DoMount(m: MountId, f: FsId, p: Place)

  ghost predicate Enabled(v: Tree, op: Op) {
    match op
    case MakeEntry(d, _, _) => d !in v.dentries
    case MakeFs(f, d) => d !in v.dentries && f !in v.roots
    case Link(child, parent) => Loose(v, child) && Linked(v, parent)
    case DoMount(m, f, p) => CanMake(v, m, f) && InTree(v, p) && Attached(v, p.mount)
  }

  ghost function Do(v: Tree, op: Op): Tree
    requires Enabled(v, op)
  {
    match op
    case MakeEntry(d, name, directory) => NewDentry(v, d, name, directory)
    case MakeFs(f, d) => NewFs(v, f, d)
    case Link(child, parent) => Activate(v, child, parent)
    case DoMount(m, f, p) =>
      var w := NewMount(v, m, f);
      if v.dentries[p.dentry].directory && p !in v.over then MountOver(w, m, p) else w
  }

  /** `vfs_root_mount`: one file system with one directory, mounted */
  function RootTree(): Tree {
    Tree(map[0 := Dentry("", 0, None, [], true, false, 0)], map[0 := 0], map[0 := Mount(0, None)], map[], 0)
  }

  /** A run; operations that are not possible in their state are left out. */
  ghost function Run(v: Tree, ops: seq<Op>): Tree
    decreases |ops|
  {
    if ops == [] then v else Run(if Enabled(v, ops[0]) then Do(v, ops[0]) else v, ops[1..])
  }

  lemma StepKeeps(v: Tree, op: Op)
    requires TreeOk(v) && Enabled(v, op)
    ensures TreeOk(Do(v, op))
  {
    hide TreeOk;
    match op
    case MakeEntry(d, name, directory) => NewDentryKeeps(v, d, name, directory);
    case MakeFs(f, d) => NewFsKeeps(v, f, d);
    case Link(child, parent) => ActivateKeeps(v, child, parent);
    case DoMount(m, f, p) =>
      NewMountKeeps(v, m, f);
      if v.dentries[p.dentry].directory && p !in v.over {
        MountReady(v, m, f, p);
        MountOverKeeps(NewMount(v, m, f), m, p);
      }
  }

  /** A mount that was just made can be added. */
  lemma MountReady(v: Tree, m: MountId, f: FsId, p: Place)
    requires TreeOk(v) && CanMake(v, m, f) && InTree(v, p) && v.dentries[p.dentry].directory && p !in v.over
    ensures CanMount(NewMount(v, m, f), m, p)
  {
  }

  lemma {:induction false} RunKeeps(v: Tree, ops: seq<Op>)
    requires TreeOk(v)
    ensures TreeOk(Run(v, ops))
    decreases |ops|
  {
    hide TreeOk, Enabled, Do;
    if ops != [] {
      if Enabled(v, ops[0]) {
        StepKeeps(v, ops[0]);
      }
      RunKeeps(if Enabled(v, ops[0]) then Do(v, ops[0]) else v, ops[1..]);
    }
  }

  lemma RootTreeOk()
    ensures TreeOk(RootTree())
  {
  }

  /** In every tree the code builds, every place that hangs from the root mount has a route, and what a lookup of
      its path finds is decided by the way to it. */
  lemma EveryTree(ops: seq<Op>, p: Place)
    requires var v := Run(RootTree(), ops); InTree(v, p) && Attached(v, p.mount)
    ensures var v := Run(RootTree(), ops);
            && TreeOk(v) && Route(v, RouteTo(v, p)) && RouteTo(v, p)[|RouteTo(v, p)| - 1] == p
            && (Unstacked(v, p) && SaneNames(v, RouteTo(v, p)) ==>
                  (Lookup(v, None, PathTo(v, p)) == At(p) <==> Clear(v, p)))
  {
    hide TreeOk, RouteTo, Run, Unstacked, SaneNames, Lookup, PathTo, Clear, Attached, InTree;
    RootTreeOk();
    RunKeeps(RootTree(), ops);
    var v := Run(RootTree(), ops);
    RouteReaches(v, p);
    if Unstacked(v, p) && SaneNames(v, RouteTo(v, p)) {
      LookupUndoesGetcwd(v, p, None);
    }
  }

  // ---------------------------------------------------------------------------------------------
  // Trees in which a path leads elsewhere

  /** A root with two directories. */
  function TwoDirs(first: string, second: string): Tree {
    Tree(map[0 := Dentry("", 0, None, [2, 1], true, false, 0),
             1 := Dentry(first, 0, Some(0), [], true, false, 1),
             2 := Dentry(second, 0, Some(0), [], true, false, 1)],
         map[0 := 0], map[0 := Mount(0, None)], map[], 0)
  }

  /** And a second file system that is mounted on `p`. */
  function Sample(p: Place, first: string, second: string): Tree
    requires p.dentry < 3
  {
    MountOver(NewMount(NewFs(TwoDirs(first, second), 1, 3), 1, 1), 1, p)
  }

  /** The operations that build them. */
  function BuildDirs(first: string, second: string): seq<Op> {
    [MakeEntry(1, first, true), Link(1, 0), MakeEntry(2, second, true), Link(2, 0)]
  }

  function Building(p: Place, first: string, second: string): seq<Op> {
    BuildDirs(first, second) + [MakeFs(1, 3), DoMount(1, 1, p)]
  }

  lemma NextOp(v: Tree, ops: seq<Op>, i: nat)
    requires i < |ops| && Enabled(v, ops[i])
    ensures Run(v, ops[i..]) == Run(Do(v, ops[i]), ops[i + 1..])
  {
    hide Enabled, Do;
    assert ops[i..][0] == ops[i] && ops[i..][1..] == ops[i + 1..];
  }

  lemma TwoDirsBuilt(ops: seq<Op>, first: string, second: string)
    requires |ops| >= 4 && ops[0] == MakeEntry(1, first, true) && ops[1] == Link(1, 0)
    requires ops[2] == MakeEntry(2, second, true) && ops[3] == Link(2, 0)
    ensures Run(RootTree(), ops) == Run(TwoDirs(first, second), ops[4..])
  {
    hide Run;
    assert ops[0..] == ops;
    var v1 := NewDentry(RootTree(), 1, first, true);
    NextOp(RootTree(), ops, 0);
    var v2 := Activate(v1, 1, 0);
    NextOp(v1, ops, 1);
    var v3 := NewDentry(v2, 2, second, true);
    NextOp(v2, ops, 2);
    var v4 := Activate(v3, 2, 0);
    NextOp(v3, ops, 3);
    assert v4.dentries[0].children == [2, 1];
    assert v4.dentries == TwoDirs(first, second).dentries;
  }

  lemma SampleBuilt(p: Place, first: string, second: string)
    requires p.mount == 0 && p.dentry < 3
    ensures Run(RootTree(), Building(p, first, second)) == Sample(p, first, second)
    ensures TreeOk(Sample(p, first, second))
  {
    hide TreeOk, Run, Enabled, Do, Sample;
    var ops, v4 := Building(p, first, second), TwoDirs(first, second);
    TwoDirsBuilt(ops, first, second);
    FsMade(first, second);
    NextOp(v4, ops, 4);
    MountMade(p, first, second);
    NextOp(NewFs(v4, 1, 3), ops, 5);
    NoOps(Sample(p, first, second), ops[6..]);
    RootTreeOk();
    RunKeeps(RootTree(), ops);
  }

  lemma FsMade(first: string, second: string)
    ensures var v := TwoDirs(first, second);
            Enabled(v, MakeFs(1, 3)) && Do(v, MakeFs(1, 3)) == NewFs(v, 1, 3)
  {
  }

  lemma MountMade(p: Place, first: string, second: string)
    requires p.mount == 0 && p.dentry < 3
    ensures var v := NewFs(TwoDirs(first, second), 1, 3);
            Enabled(v, DoMount(1, 1, p)) && Do(v, DoMount(1, 1, p)) == Sample(p, first, second)
  {
    var v := NewFs(TwoDirs(first, second), 1, 3);
    assert p.dentry == 0 || p.dentry == 1 || p.dentry == 2;
    assert v.dentries[p.dentry].fs == 0 && Linked(v, p.dentry) && Attached(v, 0);
  }

  lemma NoOps(v: Tree, ops: seq<Op>)
    requires ops == []
    ensures Run(v, ops) == v
  {
  }

  lemma SamplePlaces(p: Place, first: string, second: string)
    requires p.mount == 0 && p.dentry < 3
    ensures var v := Sample(p, first, second);
            && InTree(v, Place(0, 0)) && InTree(v, Place(0, 1)) && InTree(v, Place(1, 3))
            && Up(v, Place(0, 1)) == Some(Place(0, 0)) && Up(v, Place(1, 3)) == Some(p)
            && MntRoot(v, v.root) == Place(0, 0) && Attached(v, 0) && Attached(v, 1)
  {
  }

  /** The first directory of the root, what it is called and the way to it. */
  lemma FirstDirectory(v: Tree, first: string)
    requires TreeOk(v) && InTree(v, Place(0, 0)) && InTree(v, Place(0, 1)) && Attached(v, 0) && Sane(first)
    requires MntRoot(v, v.root) == Place(0, 0) && Up(v, Place(0, 1)) == Some(Place(0, 0))
    requires v.dentries[1].name == first && v.dentries[1].parent.Some?
    ensures var p := Place(0, 1);
            Unstacked(v, p) && SaneNames(v, RouteTo(v, p)) && PathTo(v, p) == "/" + first
  {
    hide TreeOk, InTree, Up, MntRoot, RouteTo, Attached;
    var q := [Place(0, 0), Place(0, 1)];
    RouteIs(v, Place(0, 1), q);
    assert Tail(v, q, 1) == "" && Tail(v, q, 0) == [SEPARATOR] + first + "";
  }

  /** A directory that a file system was mounted on afterwards: its path now leads into the mount. */
  lemma CoveredDirectory()
    ensures var v, p := Run(RootTree(), Building(Place(0, 1), "a", "b")), Place(0, 1);
            && TreeOk(v) && InTree(v, p) && Attached(v, 0) && Unstacked(v, p) && SaneNames(v, RouteTo(v, p))
            && Lookup(v, None, PathTo(v, p)) == At(Place(1, 3))
  {
    hide TreeOk, SaneNames, Unstacked, PathTo, RouteTo, Lookup, Run, InTree, Up;
    var v := Sample(Place(0, 1), "a", "b");
    SampleBuilt(Place(0, 1), "a", "b");
    SamplePlaces(Place(0, 1), "a", "b");
    FirstDirectory(v, "a");
    assert "/" + "a" == "/a";
    LooksInto(v);
  }

  lemma LooksInto(v: Tree)
    requires v == Sample(Place(0, 1), "a", "b") && TreeOk(v)
    ensures Lookup(v, None, "/a") == At(Place(1, 3))
  {
    hide TreeOk, Matches;
    assert !Matches("b", "a") && Matches("a", "a") by { OtherName(); SelfMatch("a"); }
    OneSegment("a");
    assert FirstMatch(v, [2, 1], "a") == Some(1);
    assert Enter(v, Place(0, 0), "a") == At(Place(0, 1));
    assert Walk(v, Place(0, 1), "") == At(Place(1, 3));
  }

  lemma OtherName()
    ensures !Matches("b", "a")
  {
    assert "a"[0] != "b"[0];
  }

  lemma OneSegment(name: string)
    requires SEPARATOR !in name && name != ""
    ensures ("/" + name)[1..] == name && name[..SegLen(name)] == name && Rest(name) == ""
  {
    SegmentOf(name, "");
    assert name + "" == name;
  }

  /** A directory with a sibling in the same bucket that was made later and whose name continues its own: its
      path now leads to the sibling. */
  lemma ShadowedDirectory()
    ensures var v, p := Run(RootTree(), BuildDirs("a", "a\U{0001}")), Place(0, 1);
            && TreeOk(v) && InTree(v, p) && Attached(v, 0) && Unstacked(v, p) && SaneNames(v, RouteTo(v, p))
            && Lookup(v, None, PathTo(v, p)) == At(Place(0, 2))
  {
    hide TreeOk, SaneNames, Unstacked, PathTo, RouteTo, Lookup, Run;
    var v, ops := TwoDirs("a", "a\U{0001}"), BuildDirs("a", "a\U{0001}");
    TwoDirsBuilt(ops, "a", "a\U{0001}");
    NoOps(v, ops[4..]);
    RootTreeOk();
    RunKeeps(RootTree(), ops);
    FirstDirectory(v, "a");
    assert "/" + "a" == "/a";
    LooksAside(v);
  }

  lemma LooksAside(v: Tree)
    requires v == TwoDirs("a", "a\U{0001}") && TreeOk(v)
    ensures Lookup(v, None, "/a") == At(Place(0, 2))
  {
    hide TreeOk, Matches;
    SameBucket();
    OneSegment("a");
    assert FirstMatch(v, [2, 1], "a") == Some(2);
    assert Enter(v, Place(0, 0), "a") == At(Place(0, 2));
    assert Walk(v, Place(0, 2), "") == At(Place(0, 2));
  }

  lemma SameBucket()
    ensures Matches("a\U{0001}", "a")
  {
    var longer := "a\U{0001}";
    assert longer[..1] == "a";
    assert longer[1] as int == 1;
    assert Key(longer) == Key("a") * 1 % 0x1_0000_0000;
  }

  /** A file system mounted on the root of another: from there the way up falls off the tree. */
  lemma StackedMount()
    ensures var v, p := Run(RootTree(), Building(Place(0, 0), "a", "b")), Place(1, 3);
            TreeOk(v) && InTree(v, p) && Attached(v, 1) && !Unstacked(v, p)
  {
    hide TreeOk, InTree, Up, Run, RouteTo, Attached;
    var v, q := Sample(Place(0, 0), "a", "b"), [Place(0, 0), Place(1, 3)];
    SampleBuilt(Place(0, 0), "a", "b");
    SamplePlaces(Place(0, 0), "a", "b");
    RouteIs(v, Place(1, 3), q);
    assert Crosses(v, q, 1);
  }
}
