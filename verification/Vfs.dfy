/**
 The virtual file system: entries and mounts as objects that change, path lookup, and the `getcwd` system
 call.
 */
module Vfs {
  import opened Common
  import opened VfsTree
  import opened Paths
  import opened VfsRuns

  /** What `getcwd` answers. `Fault` is a step to the parent of an entry that does not exist. */
  datatype Answer = Path(len: nat) | Invalid | Fault

  /** A lookup that comes to the place enters the file system `f`. */
  predicate Carries(v: Tree, p: Place, f: FsId) {
    Flagged(v, p) && p in v.over && v.over[p] in v.mounts && v.mounts[v.over[p]].fs == f
  }

  class FileSystem {
    var dentries: map<DentryId, Dentry>
    var roots: map<FsId, DentryId>
    var mounts: map<MountId, Mount>
    var over: map<Place, MountId>
    var root: MountId
    var newDentry: DentryId   // the numbers that come next
    var newFs: FsId
    var newMount: MountId

    function View(): Tree
      reads this
    {
      Tree(dentries, roots, mounts, over, root)
    }

    ghost predicate Valid()
      reads this
    {
      && TreeOk(View())
      && (forall d :: d in dentries ==> d < newDentry)
      && (forall f :: f in roots ==> f < newFs)
      && (forall m :: m in mounts ==> m < newMount)
    }

    /** `vfs_root_mount`: one file system with one directory */
    constructor ()
      ensures Valid() && View() == RootTree()
    {
      dentries := map[0 := Dentry("", 0, None, [], true, false, 0)];
      roots := map[0 := 0];
      mounts := map[0 := Mount(0, None)];
      over := map[];
      root, newDentry, newFs, newMount := 0, 1, 1, 1;
      new;
      RootTreeOk();
    }

    /** `dentry_alloc`; whether the entry is a directory is what the file system makes of it. */
    method DentryAlloc(name: string, directory: bool) returns (d: DentryId)
      requires Valid()
      modifies this
      ensures Valid() && Loose(View(), d)
      ensures Enabled(old(View()), MakeEntry(d, name, directory))
      ensures View() == Do(old(View()), MakeEntry(d, name, directory))
    {
      hide TreeOk;
      d := newDentry;
      NewDentryKeeps(View(), d, name, directory);
      dentries := dentries[d := Dentry(name, 0, None, [], directory, false, 0)];
      newDentry := newDentry + 1;
    }

    /** `vfs_fs_create` */
    method FsCreate() returns (f: FsId)
      requires Valid()
      modifies this
      ensures Valid() && f in roots
      ensures exists d :: Enabled(old(View()), MakeFs(f, d)) && View() == Do(old(View()), MakeFs(f, d))
      ensures forall m :: m in mounts ==> mounts[m].fs != f
    {
      hide TreeOk;
      f := newFs;
      ghost var d := newDentry;
      NewFsKeeps(View(), f, d);
      MountsKnown(View());
      dentries := dentries[newDentry := Dentry("", f, None, [], true, false, 0)];
      roots := roots[f := newDentry];
      newDentry, newFs := newDentry + 1, newFs + 1;
      assert Enabled(old(View()), MakeFs(f, d)) && View() == Do(old(View()), MakeFs(f, d));
    }

    /** `dentry_activate` */
    method DentryActivate(child: DentryId, parent: Option<DentryId>)
      requires Valid() && Loose(View(), child)
      requires parent.Some? ==> Linked(View(), parent.value)
      modifies this
      ensures Valid()
      ensures parent.None? ==> View() == old(View())
      ensures parent.Some? ==> && Enabled(old(View()), Link(child, parent.value))
                               && View() == Do(old(View()), Link(child, parent.value))
    {
      hide TreeOk;
      if parent.Some? {
        ActivateKeeps(View(), child, parent.value);
        var p := parent.value;
        dentries := dentries[child := dentries[child].(parent := parent, fs := dentries[p].fs,
                                                       depth := dentries[p].depth + 1)];
        dentries := dentries[p := dentries[p].(children := [child] + dentries[p].children)];
      }
    }

    /** `vfs_mount_create` of a file system that is not mounted */
    method MountCreate(f: FsId) returns (m: MountId)
      requires Valid() && f in roots && forall n :: n in mounts ==> mounts[n].fs != f
      modifies this
      ensures Valid() && CanMake(old(View()), m, f) && View() == NewMount(old(View()), m, f)
    {
      hide TreeOk;
      m := newMount;
      NewMountKeeps(View(), m, f);
      mounts := mounts[m := Mount(f, None)];
      newMount := newMount + 1;
    }

    /** `vfs_mount_add` of a new mount: refused on a file, and where a mount already sits */
    method MountAdd(m: MountId, p: Place) returns (ok: bool)
      requires Valid() && InTree(View(), p) && m in mounts && m != root && mounts[m].on.None? && p.mount < m
      modifies this
      ensures Valid()
      ensures ok <==> old(dentries[p.dentry].directory && p !in over)
      ensures View() == if ok then MountOver(old(View()), m, p) else old(View())
      ensures ok ==> InTree(View(), p) && Flagged(View(), p) && Descend(View(), p).mount == m
    {
      hide TreeOk;
      if !dentries[p.dentry].directory {
        return false;
      }
      if p in over {
        return false;
      }
      MountOverKeeps(View(), m, p);
      mounts := mounts[m := mounts[m].(on := Some(p))];
      over := over[p := m];
      dentries := dentries[p.dentry := dentries[p.dentry].(mountpoint := true)];
      MountOverLands(old(View()), m, p);
      assert View() == MountOver(old(View()), m, p);
      return true;
    }

    /** `vfs_do_mount`: afterwards a lookup that comes to the place enters the mount, if it was added. */
    method MountFs(f: FsId, p: Place) returns (ok: bool)
      requires Valid() && f in roots && forall n :: n in mounts ==> mounts[n].fs != f
      requires InTree(View(), p) && Attached(View(), p.mount)
      modifies this
      ensures Valid()
      ensures ok <==> old(dentries[p.dentry].directory && p !in over)
      ensures exists m :: Enabled(old(View()), DoMount(m, f, p)) && View() == Do(old(View()), DoMount(m, f, p))
      ensures ok ==> Carries(View(), p, f)
    {
      hide TreeOk;
      var m := MountCreate(f);
      RootOlder(old(View()), m, f);
      ok := MountAdd(m, p);
      assert Enabled(old(View()), DoMount(m, f, p)) && View() == Do(old(View()), DoMount(m, f, p));
    }

    // -------------------------------------------------------------------------------------------
    // vfs_lookup

    /** The end of the segment that starts at `from`. */
    static method SegmentEnd(path: string, from: nat) returns (end: nat)
      requires from <= |path|
      ensures from <= end <= |path| && end - from == SegLen(path[from..])
    {
      end := from;
      while end < |path| && path[end] != SEPARATOR
        invariant from <= end <= |path|
        invariant end - from + SegLen(path[end..]) == SegLen(path[from..])
      {
        assert path[end..][1..] == path[end + 1..];
        end := end + 1;
      }
    }

    /** The segment "..". */
    method UpTree(from: Place) returns (r: Found)
      requires Valid() && InTree(View(), from)
      ensures r == UpDir(View(), from)
    {
      hide TreeOk, UpDir;
      var cwd := from;
      while dentries[cwd.dentry].parent.None? && cwd.mount != root
        invariant InTree(View(), cwd)
        invariant UpDir(View(), cwd) == UpDir(View(), from)
        decreases cwd.mount
      {
        UpStep(View(), cwd);
        if mounts[cwd.mount].on.None? {
          return Bug;
        }
        cwd := mounts[cwd.mount].on.value;
        assert dentries[cwd.dentry].mountpoint;
      }
      UpStop(View(), cwd);
      if dentries[cwd.dentry].parent.Some? {
        cwd := Place(cwd.mount, dentries[cwd.dentry].parent.value);
      }
      r := At(cwd);
    }

    /** The search of the hash chain. */
    method FindChild(d: DentryId, seg: string) returns (r: Option<DentryId>)
      requires d in dentries && forall c :: c in dentries[d].children ==> c in dentries
      ensures r == FirstMatch(View(), dentries[d].children, seg)
    {
      var children := dentries[d].children;
      for i := 0 to |children|
        invariant FirstMatch(View(), children[i..], seg) == FirstMatch(View(), children, seg)
      {
        assert children[i] in children;
        if Matches(dentries[children[i]].name, seg) {
          return Some(children[i]);
        }
        assert children[i..][1..] == children[i + 1..];
      }
      r := None;
    }

    /** One segment from a directory nothing is mounted on. */
    method EnterSegment(cwd: Place, seg: string) returns (r: Found)
      requires Valid() && InTree(View(), cwd)
      ensures r == Enter(View(), cwd, seg)
    {
      hide Matches, TreeOk;
      if |seg| == 0 || seg == "." {
        return At(cwd);
      }
      if seg == ".." {
        r := UpTree(cwd);
        return;
      }
      ChildrenKnown(View(), cwd);
      var child := FindChild(cwd.dentry, seg);
      r := if child.Some? then At(Place(cwd.mount, child.value)) else NoEntry;
    }

    /** `vfs_lookup` */
    method LookupPath(start: Option<Place>, path: string) returns (r: Found)
      requires Valid() && (start.Some? ==> InTree(View(), start.value))
      ensures r == Lookup(View(), start, path)
    {
      hide TreeOk, Enter, UpDir, FirstMatch, SegLen;
      var i := 0;
      var cwd;
      RootInTree(View());
      if start.Some? && (path == "" || path[0] != SEPARATOR) {
        cwd := start.value;
      } else {
        if path != "" && path[0] == SEPARATOR {
          i := 1;
        }
        cwd := MntRoot(View(), root);
      }
      assert path[0..] == path;
      while i < |path|
        invariant i <= |path| && InTree(View(), cwd)
        invariant Walk(View(), cwd, path[i..]) == Lookup(View(), start, path)
        decreases |path| - i, Younger(View(), cwd.mount)
      {
        if !dentries[cwd.dentry].directory {
          return NoEntry;
        }
        if dentries[cwd.dentry].mountpoint {
          var next := Descend(View(), cwd);
          YoungerShrinks(View(), cwd, next);
          cwd := next;
        } else {
          var end := SegmentEnd(path, i);
          assert path[i..][..end - i] == path[i..end];
          var next := EnterSegment(cwd, path[i..end]);
          if !next.At? {
            return next;
          }
          RestFrom(path, i, end);
          cwd := next.place;
          i := if end < |path| then end + 1 else end;
        }
      }
      assert path[i..] == "";
      if dentries[cwd.dentry].mountpoint {
        cwd := Descend(View(), cwd);
      }
      r := At(cwd);
    }

    // -------------------------------------------------------------------------------------------
    // getcwd

    /** The first walk of `getcwd`: the length of the path, or `None` where the walk falls off the tree. */
    method PathLength(pwd: Place) returns (len: Option<nat>)
      requires Valid() && InTree(View(), pwd) && Attached(View(), pwd.mount)
      ensures len.None? <==> !Unstacked(View(), pwd)
      ensures len.Some? ==> len.value == |NamesTo(View(), pwd)|
    {
      hide TreeOk, Up, Tail, RouteTo, Attached;
      ghost var q := RouteTo(View(), pwd);
      RouteReaches(View(), pwd);
      var n := 0;
      var cur := pwd;
      ghost var k := |q| - 1;
      TailEnd(View(), q);
      assert NoStackBelow(View(), q, k);
      while dentries[cur.dentry].parent.Some? || mounts[cur.mount].on.Some?
        invariant 0 <= k < |q| && cur == q[k]
        invariant n == |Tail(View(), q, k)|
        invariant NoStackBelow(View(), q, k)
        decreases k
      {
        HasUp(View(), q, k);
        StackBelow(View(), q, k);
        if dentries[cur.dentry].parent.None? {
          assert cur.dentry == roots[mounts[cur.mount].fs];
          cur := mounts[cur.mount].on.value;
          k := k - 1;
        }
        n := n + |dentries[cur.dentry].name| + 1;
        if dentries[cur.dentry].parent.None? {
          return None;
        }
        HasUp(View(), q, k);
        StackBelow(View(), q, k);
        cur := Place(cur.mount, dentries[cur.dentry].parent.value);
        k := k - 1;
      }
      RootOnly(View(), q, k);
      len := Some(n);
    }

    /** Puts a separator and a name in front of what the buffer holds up to `pathLen`. */
    static method PutSegment(buff: array<char>, pos: nat, pathLen: nat, name: string)
      requires pos + 1 + |name| <= pathLen <= buff.Length
      modifies buff
      ensures buff[pos..pathLen] == [SEPARATOR] + name + old(buff[pos + 1 + |name|..pathLen])
      ensures buff[pathLen..] == old(buff[pathLen..])
    {
      buff[pos] := SEPARATOR;
      for j := 0 to |name|
        invariant buff[pos] == SEPARATOR
        invariant forall i :: 0 <= i < j ==> buff[pos + 1 + i] == name[i]
        invariant buff[pos + 1 + |name|..] == old(buff[pos + 1 + |name|..])
      {
        buff[pos + 1 + j] := name[j];
      }
      SegmentPut(old(buff[..]), buff[..], pos, pathLen, name);
    }

    /** The second walk of `getcwd`: fills the buffer from `path_len` down, and ends at its start. */
    method FillPath(pwd: Place, buff: array<char>, pathLen: nat, atRoot: bool)
      requires Valid() && InTree(View(), pwd) && Attached(View(), pwd.mount) && Unstacked(View(), pwd)
      requires pathLen == |PathTo(View(), pwd)| < buff.Length && atRoot == (NamesTo(View(), pwd) == "")
      modifies buff
      ensures buff[..pathLen] == PathTo(View(), pwd) && buff[pathLen..] == old(buff[pathLen..])
    {
      hide TreeOk, Up, Tail, Stacked, RouteTo, Attached;
      ghost var q := RouteTo(View(), pwd);
      RouteReaches(View(), pwd);
      var pos: nat := pathLen;
      var cur := pwd;
      if atRoot {
        AtRoot(View(), q);
        pos := pos - (|dentries[cur.dentry].name| + 1);
        PutSegment(buff, pos, pathLen, dentries[cur.dentry].name);
      } else {
        ghost var k := |q| - 1;
        TailEnd(View(), q);
        while dentries[cur.dentry].parent.Some? || mounts[cur.mount].on.Some?
          invariant 0 <= k < |q| && cur == q[k]
          invariant pos + |Tail(View(), q, k)| == pathLen
          invariant buff[pos..pathLen] == Tail(View(), q, k)
          invariant buff[pathLen..] == old(buff[pathLen..])
          decreases k
        {
          HasUp(View(), q, k);
          if dentries[cur.dentry].parent.None? && mounts[cur.mount].on.Some? {
            assert cur.dentry == roots[mounts[cur.mount].fs];
            cur := mounts[cur.mount].on.value;
            NotStackedHere(View(), q, k);
            k := k - 1;
          }
          HasUp(View(), q, k);
          TailSplit(View(), q, k);
          ShorterTail(View(), q, k - 1);
          var name := dentries[cur.dentry].name;
          pos := pos - (|name| + 1);
          PutSegment(buff, pos, pathLen, name);
          cur := Place(cur.mount, dentries[cur.dentry].parent.value);
          k := k - 1;
        }
        NoStackAll(View(), q, k);
        RootOnly(View(), q, k);
      }
      assert pos == 0;
    }

    /** The `getcwd` system call. It faults exactly if a mount on the way up sits on the root of a file
        system; otherwise it refuses a buffer too small for the path and its terminator, and else prints
        the path. */
    method GetCwd(pwd: Place, buff: array<char>) returns (r: Answer)
      requires Valid() && InTree(View(), pwd) && Attached(View(), pwd.mount)
      modifies buff
      ensures r.Fault? <==> !Unstacked(View(), pwd)
      ensures r.Invalid? <==> Unstacked(View(), pwd) && buff.Length < |PathTo(View(), pwd)| + 1
      ensures !r.Path? ==> buff[..] == old(buff[..])
      ensures r.Path? ==> && r.len == |PathTo(View(), pwd)| < buff.Length
                          && buff[..r.len] == PathTo(View(), pwd) && buff[r.len] == '\0'
                          && buff[r.len + 1..] == old(buff[r.len + 1..])
    {
      hide TreeOk, RouteTo, NamesTo, Unstacked, Attached, InTree;
      var len := PathLength(pwd);
      if len.None? {
        return Fault;
      }
      var atRoot := len.value == 0;
      var pathLen := if atRoot then 1 else len.value;
      if buff.Length < pathLen + 1 {
        return Invalid;
      }
      buff[pathLen] := '\0';
      FillPath(pwd, buff, pathLen, atRoot);
      assert buff[pathLen] == buff[pathLen..][0] && buff[pathLen + 1..] == buff[pathLen..][1..];
      r := Path(pathLen);
    }
  }

  lemma SegmentPut(was: string, now: string, pos: nat, pathLen: nat, name: string)
    requires |was| == |now| && pos + 1 + |name| <= pathLen <= |now|
    requires now[pos] == SEPARATOR && forall i :: 0 <= i < |name| ==> now[pos + 1 + i] == name[i]
    requires now[pos + 1 + |name|..] == was[pos + 1 + |name|..]
    ensures now[pos..pathLen] == [SEPARATOR] + name + was[pos + 1 + |name|..pathLen]
    ensures now[pathLen..] == was[pathLen..]
  {
    var rest := pos + 1 + |name|;
    assert was[rest..pathLen] == was[rest..][..pathLen - rest] == now[rest..pathLen];
    assert was[pathLen..] == was[rest..][pathLen - rest..] == now[pathLen..];
    assert now[pos + 1..rest] == name;
    assert now[pos..pathLen] == [now[pos]] + now[pos + 1..rest] + now[rest..pathLen];
  }

  /** Off the root of a mount. */
  lemma UpStep(v: Tree, p: Place)
    requires TreeOk(v) && InTree(v, p) && v.dentries[p.dentry].parent.None? && p.mount != v.root
    ensures var on := v.mounts[p.mount].on;
            if on.None? then UpDir(v, p) == Bug
            else && InTree(v, on.value) && on.value.mount < p.mount && Flagged(v, on.value)
                 && UpDir(v, p) == UpDir(v, on.value)
  {
    assert MountOk(v, p.mount);
  }

  lemma UpStop(v: Tree, p: Place)
    requires TreeOk(v) && InTree(v, p)
    ensures var parent := v.dentries[p.dentry].parent;
            && (parent.Some? ==> UpDir(v, p) == At(Place(p.mount, parent.value)))
            && (parent.None? && p.mount == v.root ==> UpDir(v, p) == At(p))
  {
  }

  /** A lookup that comes to the place enters the new mount. */
  lemma MountOverLands(v: Tree, m: MountId, p: Place)
    requires TreeOk(v) && CanMount(v, m, p)
    ensures var w := MountOver(v, m, p);
            TreeOk(w) && InTree(w, p) && Flagged(w, p) && Descend(w, p).mount == m
  {
    MountOverKeeps(v, m, p);
  }

  lemma ChildrenKnown(v: Tree, p: Place)
    requires TreeOk(v) && InTree(v, p)
    ensures forall c :: c in v.dentries[p.dentry].children ==> c in v.dentries
  {
    assert DentryOk(v, p.dentry);
  }

  lemma RestFrom(path: string, i: nat, end: nat)
    requires i <= end <= |path| && end - i == SegLen(path[i..])
    ensures Rest(path[i..]) == path[if end < |path| then end + 1 else end..]
  {
  }

  // ---------------------------------------------------------------------------------------------
  // Going up a route

  /** No mount on the route below `q[k]` sits on the root of a file system. */
  ghost predicate NoStackBelow(v: Tree, q: seq<Place>, k: nat)
    requires InTreeAll(v, q)
  {
    forall i :: k < i < |q| && Crosses(v, q, i) ==> v.dentries[q[i - 1].dentry].parent.Some?
  }

  lemma TailEnd(v: Tree, q: seq<Place>)
    requires InTreeAll(v, q)
    ensures Tail(v, q, |q| - 1) == ""
  {
  }

  /** A place with something above it is not the first of the route, and the place before it is what is
      above; the path grows by its name if it is a child. */
  lemma HasUp(v: Tree, q: seq<Place>, k: nat)
    requires TreeOk(v) && Route(v, q) && k < |q|
    requires v.dentries[q[k].dentry].parent.Some? || v.mounts[q[k].mount].on.Some?
    ensures k > 0
    ensures v.dentries[q[k].dentry].parent.Some? ==>
              && q[k - 1] == Place(q[k].mount, v.dentries[q[k].dentry].parent.value)
              && |Tail(v, q, k - 1)| == |Tail(v, q, k)| + |v.dentries[q[k].dentry].name| + 1
    ensures v.dentries[q[k].dentry].parent.None? ==>
              q[k - 1] == v.mounts[q[k].mount].on.value && Tail(v, q, k - 1) == Tail(v, q, k)
  {
    RootInTree(v);
    assert k > 0 ==> Up(v, q[k]) == Some(q[k - 1]);
  }

  lemma StackBelow(v: Tree, q: seq<Place>, k: nat)
    requires InTreeAll(v, q) && 0 < k < |q| && NoStackBelow(v, q, k)
    ensures if v.dentries[q[k].dentry].parent.Some? || v.dentries[q[k - 1].dentry].parent.Some?
            then NoStackBelow(v, q, k - 1)
            else Stacked(v, q)
  {
    assert Crosses(v, q, k) <==> v.dentries[q[k].dentry].parent.None?;
  }

  /** A place with nothing above it is the first of the route. */
  lemma RootOnly(v: Tree, q: seq<Place>, k: nat)
    requires TreeOk(v) && Route(v, q) && k < |q| && NoStackBelow(v, q, k)
    requires v.dentries[q[k].dentry].parent.None? && v.mounts[q[k].mount].on.None?
    ensures k == 0 && !Stacked(v, q)
  {
    assert Up(v, q[k]).None?;
  }

  /** Every mounted file system has a root. */
  lemma MountsKnown(v: Tree)
    requires TreeOk(v)
    ensures forall m :: m in v.mounts ==> v.mounts[m].fs in v.roots
  {
    assert forall m :: m in v.mounts ==> MountOk(v, m);
  }

  lemma RootOlder(v: Tree, m: MountId, f: FsId)
    requires TreeOk(v) && CanMake(v, m, f)
    ensures v.root < m
  {
  }

  lemma NoStackAll(v: Tree, q: seq<Place>, k: nat)
    requires InTreeAll(v, q) && !Stacked(v, q)
    ensures NoStackBelow(v, q, k)
  {
  }

  lemma NotStackedHere(v: Tree, q: seq<Place>, k: nat)
    requires InTreeAll(v, q) && !Stacked(v, q) && 0 < k < |q| && v.dentries[q[k].dentry].parent.None?
    ensures v.dentries[q[k - 1].dentry].parent.Some?
  {
    assert Crosses(v, q, k);
  }

  lemma TailSplit(v: Tree, q: seq<Place>, k: nat)
    requires InTreeAll(v, q) && 0 < k < |q| && v.dentries[q[k].dentry].parent.Some?
    ensures Tail(v, q, k - 1) == [SEPARATOR] + v.dentries[q[k].dentry].name + Tail(v, q, k)
  {
  }

  lemma {:induction false} ShorterTail(v: Tree, q: seq<Place>, k: nat)
    requires InTreeAll(v, q) && k < |q|
    ensures |Tail(v, q, k)| <= |Tail(v, q, 0)|
  {
    if k > 0 {
      ShorterTail(v, q, k - 1);
    }
  }

  /** Only the root has an empty path, unless mounts are stacked. */
  lemma AtRoot(v: Tree, q: seq<Place>)
    requires TreeOk(v) && Route(v, q) && !Stacked(v, q) && Tail(v, q, 0) == ""
    ensures |q| == 1 && q[0] == MntRoot(v, v.root) && v.dentries[q[0].dentry].name == ""
  {
    RootInTree(v);
    assert DentryOk(v, q[0].dentry);
  }
}
