/**
 Lookups that start somewhere: a path is looked up one part after the other, so a relative lookup is what an
 absolute one does from there on; and what the segments "." and ".." and an unknown name lead to.
 */
module RelativePaths {
  import opened Common
  import opened VfsTree
  import opened Paths

  predicate Relative(path: string) {
    path != "" && path[0] != SEPARATOR
  }

  // ---------------------------------------------------------------------------------------------
  // One part after the other

  /** What follows a lookup that found a place. */
  function Then(v: Tree, r: Found, path: string): Found
    requires TreeOk(v) && (r.At? ==> InTree(v, r.place))
  {
    if r.At? then Walk(v, r.place, path) else r
  }

  /** A separator more, or the segment ".", changes nothing in front of a path. */
  lemma {:induction false} SlashSkipped(v: Tree, p: Place, path: string)
    requires TreeOk(v) && InTree(v, p) && path != ""
    ensures Walk(v, p, "/" + path) == Walk(v, p, path)
    decreases Younger(v, p.mount)
  {
    hide TreeOk, UpDir, FirstMatch;
    var more := "/" + path;
    assert more[..0] == "" && more[1..] == path;
    if v.dentries[p.dentry].directory && Flagged(v, p) {
      var q := Descend(v, p);
      YoungerShrinks(v, p, q);
      SlashSkipped(v, q, path);
    }
  }

  lemma {:induction false} DotSkipped(v: Tree, p: Place, path: string)
    requires TreeOk(v) && InTree(v, p) && path != ""
    ensures Walk(v, p, "./" + path) == Walk(v, p, path)
    decreases Younger(v, p.mount)
  {
    hide TreeOk, UpDir, FirstMatch;
    var more := "./" + path;
    assert more == "." + ("/" + path) && ("/" + path)[1..] == path;
    SegmentOf(".", "/" + path);
    if v.dentries[p.dentry].directory && Flagged(v, p) {
      var q := Descend(v, p);
      YoungerShrinks(v, p, q);
      DotSkipped(v, q, path);
    }
  }

  /** The end of a lookup enters a mount that a longer path would have entered too. */
  lemma FinishSkipped(v: Tree, p: Place, path: string)
    requires TreeOk(v) && InTree(v, p) && path != ""
    ensures Walk(v, Finish(v, p), path) == Walk(v, p, path)
  {
    if Flagged(v, p) {
      assert DentryOk(v, p.dentry);
    }
  }

  lemma SegmentsOf(a: string, b: string)
    requires a != ""
    ensures var path := a + "/" + b;
            && path != "" && SegLen(path) == SegLen(a) && path[..SegLen(path)] == a[..SegLen(a)]
            && Rest(path) == if SegLen(a) < |a| then Rest(a) + "/" + b else b
  {
    hide SegLen;
    var n, path := SegLen(a), a + "/" + b;
    SameSegment(a, b, n);
    SegLenIs(path, n);
    Behind(a, b, n);
  }

  lemma SameSegment(a: string, b: string, n: nat)
    requires n <= |a| && (n < |a| ==> a[n] == SEPARATOR) && forall k :: 0 <= k < n ==> a[k] != SEPARATOR
    ensures var path := a + "/" + b;
            && path[..n] == a[..n] && path[n] == SEPARATOR && forall k :: 0 <= k < n ==> path[k] != SEPARATOR
  {
    var path := a + "/" + b;
    assert forall k :: 0 <= k < |a| ==> path[k] == a[k];
  }

  lemma SegLenIs(path: string, n: nat)
    requires n < |path| && path[n] == SEPARATOR && forall k :: 0 <= k < n ==> path[k] != SEPARATOR
    ensures SegLen(path) == n
  {
    hide SegLen;
    var m := SegLen(path);
  }

  lemma Behind(a: string, b: string, n: nat)
    requires n <= |a|
    ensures (a + "/" + b)[n + 1..] == if n < |a| then a[n + 1..] + "/" + b else b
  {
  }

  /** Looking up `a/b` is looking up `a` and then, from there, `b`. */
  lemma {:induction false} WalkThen(v: Tree, p: Place, a: string, b: string)
    requires TreeOk(v) && InTree(v, p) && b != ""
    ensures Walk(v, p, a + "/" + b) == Then(v, Walk(v, p, a), b)
    decreases |a|, Younger(v, p.mount)
  {
    hide TreeOk, UpDir, FirstMatch, SegLen, Rest, Enter, Finish;
    if a == "" {
      assert a + "/" + b == "/" + b;
      SlashSkipped(v, p, b);
      FinishSkipped(v, p, b);
    } else {
      SegmentsOf(a, b);
      if !v.dentries[p.dentry].directory {
      } else if Flagged(v, p) {
        var q := Descend(v, p);
        YoungerShrinks(v, p, q);
        WalkThen(v, q, a, b);
      } else {
        var next := Enter(v, p, a[..SegLen(a)]);
        if next.At? {
          RestShorter(a);
          if SegLen(a) < |a| {
            WalkThen(v, next.place, Rest(a), b);
          } else {
            NoRest(a);
            FinishSkipped(v, next.place, b);
          }
        }
      }
    }
  }

  lemma NoRest(a: string)
    requires SegLen(a) == |a|
    ensures Rest(a) == ""
  {
  }

  /** A relative lookup continues the lookup that found its start: from the place that a path leads to, a relative
      path leads where the two paths together lead. In particular a path relative to a working directory is the
      absolute path of that directory with the relative one behind it. */
  lemma LookupThen(v: Tree, start: Option<Place>, a: string, b: string)
    requires TreeOk(v) && (start.Some? ==> InTree(v, start.value)) && a != "" && Relative(b)
    ensures var r := Lookup(v, start, a);
            Lookup(v, start, a + "/" + b) == if r.At? then Lookup(v, Some(r.place), b) else r
  {
    hide TreeOk, Walk;
    RootInTree(v);
    var path := a + "/" + b;
    assert path[0] == a[0];
    if a[0] == SEPARATOR {
      assert path[1..] == a[1..] + "/" + b;
      WalkThen(v, MntRoot(v, v.root), a[1..], b);
    } else if start.Some? {
      WalkThen(v, start.value, a, b);
    } else {
      WalkThen(v, MntRoot(v, v.root), a, b);
    }
  }

  // ---------------------------------------------------------------------------------------------
  // Below a place of a route

  lemma {:induction false} BelowIsRelative(v: Tree, q: seq<Place>, i: nat)
    requires InTreeAll(v, q) && SaneNames(v, q) && i < |q|
    ensures var path := Drop(Tail(v, q, i)); path == "" || Relative(path)
    decreases |q| - i
  {
    if i + 1 < |q| {
      if Crosses(v, q, i + 1) {
        BelowIsRelative(v, q, i + 1);
      } else {
        assert Sane(v.dentries[q[i + 1].dentry].name);
        ChildTail(v, q, i);
      }
    }
  }

  /** From a place on the way to another, looking up the part of the path below it finds the other place if and only
      if nothing on the rest of the way is lost. */
  lemma LookupBelow(v: Tree, q: seq<Place>, i: nat)
    requires TreeOk(v) && Route(v, q) && SaneNames(v, q) && !Stacked(v, q) && i < |q|
    requires i > 0 && i + 1 == |q| ==> !Crosses(v, q, i)
    ensures Lookup(v, Some(q[i]), Drop(Tail(v, q, i))) == At(q[|q| - 1]) <==> !LostFrom(v, q, i)
  {
    hide TreeOk, Walk, Lost, Stacked, SaneNames, Up, Tail;
    BelowIsRelative(v, q, i);
    RestOfRoute(v, q, i);
  }

  // ---------------------------------------------------------------------------------------------
  // Single segments

  /** From the first place off the mounts whose roots these are, each onto where it sits. */
  ghost predicate OffMounts(v: Tree, c: seq<Place>) {
    && InTreeAll(v, c)
    && (forall i :: 0 <= i < |c| - 1 ==>
          && v.dentries[c[i].dentry].parent.None? && c[i].mount != v.root
          && v.mounts[c[i].mount].on == Some(c[i + 1]))
    && (v.dentries[c[|c| - 1].dentry].parent.Some? || c[|c| - 1].mount == v.root)
  }

  /** The parent of the last of them, or the root itself. */
  ghost function ParentOf(v: Tree, c: seq<Place>): (p: Place)
    requires TreeOk(v) && OffMounts(v, c)
    ensures InTree(v, p)
  {
    var last := c[|c| - 1];
    match v.dentries[last.dentry].parent
    case Some(d) => UpInTree(v, last); Place(last.mount, d)
    case None => last
  }

  lemma {:induction false} UpDirIsParent(v: Tree, c: seq<Place>)
    requires TreeOk(v) && OffMounts(v, c)
    ensures UpDir(v, c[0]) == At(ParentOf(v, c))
    decreases |c|
  {
    hide TreeOk;
    if |c| > 1 {
      var d := c[1..];
      assert forall i :: 0 <= i < |d| ==> d[i] == c[i + 1];
      UpDirIsParent(v, d);
      UpDirStep(v, c[0], c[1]);
    } else {
      UpDirStop(v, c[0]);
    }
  }

  lemma UpDirStep(v: Tree, p: Place, on: Place)
    requires TreeOk(v) && InTree(v, p) && v.dentries[p.dentry].parent.None? && p.mount != v.root
    requires v.mounts[p.mount].on == Some(on) && InTree(v, on)
    ensures UpDir(v, p) == UpDir(v, on)
  {
  }

  lemma UpDirStop(v: Tree, p: Place)
    requires TreeOk(v) && InTree(v, p) && (v.dentries[p.dentry].parent.Some? || p.mount == v.root)
    ensures UpDir(v, p) == At(ParentOf(v, [p]))
  {
  }

  ghost predicate OffFrom(v: Tree, p: Place, c: seq<Place>) {
    OffMounts(v, c) && c[0] == p
  }

  /** Every attached place has such a way off its mounts. */
  lemma {:induction false} OffMountsExists(v: Tree, p: Place)
    requires TreeOk(v) && InTree(v, p) && Attached(v, p.mount)
    ensures exists c :: OffFrom(v, p, c)
    decreases p.mount
  {
    hide TreeOk, InTree, OffFrom;
    SitsSomewhere(v, p);
    if v.dentries[p.dentry].parent.Some? || p.mount == v.root {
      OffNone(v, p);
    } else {
      var on := v.mounts[p.mount].on.value;
      OffMountsExists(v, on);
      var d :| OffFrom(v, on, d);
      OffOneMore(v, p, on, d);
    }
  }

  lemma SitsSomewhere(v: Tree, p: Place)
    requires TreeOk(v) && InTree(v, p) && Attached(v, p.mount)
    ensures p.dentry in v.dentries && p.mount in v.mounts
    ensures p.mount != v.root ==>
              && v.mounts[p.mount].on.Some? && InTree(v, v.mounts[p.mount].on.value)
              && v.mounts[p.mount].on.value.mount < p.mount && Attached(v, v.mounts[p.mount].on.value.mount)
  {
    assert MountOk(v, p.mount);
  }

  lemma OffNone(v: Tree, p: Place)
    requires InTree(v, p) && (v.dentries[p.dentry].parent.Some? || p.mount == v.root)
    ensures OffFrom(v, p, [p])
  {
  }

  lemma OffOneMore(v: Tree, p: Place, on: Place, d: seq<Place>)
    requires InTree(v, p) && OffFrom(v, on, d) && v.dentries[p.dentry].parent.None? && p.mount != v.root
    requires v.mounts[p.mount].on == Some(on)
    ensures OffFrom(v, p, [p] + d)
  {
    var c := [p] + d;
    assert c[0] == p && c[1] == on;
    forall i | 0 <= i < |c|
      ensures InTree(v, c[i])
    {
      assert i > 0 ==> c[i] == d[i - 1];
    }
    forall i | 0 <= i < |c| - 1
      ensures v.dentries[c[i].dentry].parent.None? && c[i].mount != v.root
      ensures v.mounts[c[i].mount].on == Some(c[i + 1])
    {
      assert i > 0 ==> c[i] == d[i - 1] && c[i + 1] == d[i];
    }
    assert c[|c| - 1] == d[|d| - 1];
  }

  lemma OneSegmentPath(seg: string)
    requires seg != "" && SEPARATOR !in seg
    ensures seg[..SegLen(seg)] == seg && Rest(seg) == ""
  {
    SegmentOf(seg, "");
    assert seg + "" == seg;
  }

  lemma OneStep(v: Tree, p: Place, seg: string)
    requires TreeOk(v) && InTree(v, p) && v.dentries[p.dentry].directory && !Flagged(v, p)
    requires seg != "" && SEPARATOR !in seg
    ensures Lookup(v, Some(p), seg) == var next := Enter(v, p, seg);
                                       if next.At? then At(Finish(v, next.place)) else next
  {
    hide TreeOk, Enter, Finish, SegLen, Rest;
    OneSegmentPath(seg);
    assert seg[0] in seg;
    var next := Enter(v, p, seg);
    if next.At? {
      assert Walk(v, next.place, "") == At(Finish(v, next.place));
    }
  }

  /** From a directory nothing is mounted on, ".." leads to its parent; from the root of a mount, to the parent of
      where the mount sits; and from the root of all to itself. The end of the lookup then enters a mount, as
      always. */
  lemma DotDot(v: Tree, c: seq<Place>)
    requires TreeOk(v) && OffMounts(v, c) && v.dentries[c[0].dentry].directory && !Flagged(v, c[0])
    ensures Lookup(v, Some(c[0]), "..") == At(Finish(v, ParentOf(v, c)))
  {
    hide TreeOk, OffMounts, UpDir, ParentOf, Finish;
    assert InTreeAll(v, c) by { Members(v, c); }
    OneStep(v, c[0], "..");
    UpDirIsParent(v, c);
  }

  lemma Members(v: Tree, c: seq<Place>)
    requires OffMounts(v, c)
    ensures InTreeAll(v, c)
  {
  }

  /** And "." leads to the directory itself. */
  lemma DotStays(v: Tree, p: Place)
    requires TreeOk(v) && InTree(v, p) && v.dentries[p.dentry].directory && !Flagged(v, p)
    ensures Lookup(v, Some(p), ".") == At(p)
  {
    hide TreeOk, UpDir, FirstMatch;
    OneStep(v, p, ".");
  }

  /** A name that a search for the segment accepts: it starts with the segment and is in the same bucket. */
  predicate Accepted(name: string, seg: string) {
    |seg| <= |name| && name[..|seg|] == seg && Bucket(name) == Bucket(seg)
  }

  lemma AcceptedMatches(name: string, seg: string)
    ensures Accepted(name, seg) <==> Matches(name, seg)
  {
    hide Bucket;
  }

  /** Child number `j` is the first that is accepted. */
  ghost predicate First(v: Tree, children: seq<DentryId>, seg: string, j: nat)
    requires forall c :: c in children ==> c in v.dentries
  {
    && j < |children| && Accepted(v.dentries[children[j]].name, seg)
    && forall i :: 0 <= i < j ==> !Accepted(v.dentries[children[i]].name, seg)
  }

  lemma FirstLater(v: Tree, children: seq<DentryId>, seg: string, j: nat)
    requires children != [] && forall c :: c in children ==> c in v.dentries
    requires !Accepted(v.dentries[children[0]].name, seg) && First(v, children[1..], seg, j)
    ensures First(v, children, seg, j + 1)
  {
    hide Accepted;
    assert forall i :: 0 < i < |children| ==> children[i] == children[1..][i - 1];
  }

  lemma {:induction false} FirstMatchIs(v: Tree, children: seq<DentryId>, seg: string)
    requires forall c :: c in children ==> c in v.dentries
    ensures match FirstMatch(v, children, seg)
            case None => forall c :: c in children ==> !Accepted(v.dentries[c].name, seg)
            case Some(d) => exists j: nat :: First(v, children, seg, j) && children[j] == d
  {
    hide Matches, Accepted;
    if children != [] {
      AcceptedMatches(v.dentries[children[0]].name, seg);
      if Matches(v.dentries[children[0]].name, seg) {
        assert First(v, children, seg, 0);
      } else {
        FirstMatchIs(v, children[1..], seg);
        if FirstMatch(v, children[1..], seg).Some? {
          var j: nat :| First(v, children[1..], seg, j) && children[1..][j] == FirstMatch(v, children[1..], seg).value;
          FirstLater(v, children, seg, j);
        }
      }
    }
  }

  /** A name, looked up in a directory nothing is mounted on: nothing is found if and only if no child is accepted,
      and otherwise the first child that is. */
  lemma OneName(v: Tree, p: Place, name: string)
    requires TreeOk(v) && InTree(v, p) && Sane(name) && v.dentries[p.dentry].directory && !Flagged(v, p)
    ensures var children := v.dentries[p.dentry].children;
            && (forall c :: c in children ==> InTree(v, Place(p.mount, c)))
            && match Lookup(v, Some(p), name)
               case NoEntry => forall c :: c in children ==> !Accepted(v.dentries[c].name, name)
               case At(r) => exists j: nat :: First(v, children, name, j) && r == Finish(v, Place(p.mount, children[j]))
               case Bug => false
  {
    hide TreeOk, UpDir, FirstMatch, Finish, Accepted;
    var children := v.dentries[p.dentry].children;
    ChildrenInTree(v, p);
    OneStep(v, p, name);
    FirstMatchIs(v, children, name);
  }

  lemma ChildrenInTree(v: Tree, p: Place)
    requires TreeOk(v) && InTree(v, p)
    ensures forall c :: c in v.dentries[p.dentry].children ==> c in v.dentries && InTree(v, Place(p.mount, c))
  {
    assert DentryOk(v, p.dentry);
    forall c | c in v.dentries[p.dentry].children
      ensures c in v.dentries && InTree(v, Place(p.mount, c))
    {
      ChildUp(v, p, c);
    }
  }
}
