/**
 Paths: what a lookup finds, what `getcwd` prints, and when the one undoes the other.

 A lookup goes down one segment at a time, entering a mount wherever it meets one. It takes the first
 entry of a hash chain whose name starts with the segment, which need not be the entry of that name.
 */
module Paths {
  import opened Common
  import opened VfsTree

  const SEPARATOR: char := '/'

  datatype Found = At(place: Place) | NoEntry | Bug

  // ---------------------------------------------------------------------------------------------
  // The hash table of an entry's children

  /** A character as a signed byte, in 32 bits. */
  function Signed(c: char): nat {
    if c as int < 128 then c as int else c as int + 0xFFFF_FF00
  }

  /** `str_to_key`: the product of the bytes, which are signed, in 32 bits */
  function Key(s: string): (k: nat)
    ensures k < TWO32
  {
    if s == [] then 1 else Key(s[..|s| - 1]) * Signed(s[|s| - 1]) % TWO32
  }

  /** `hash` into 32 buckets */
  function Bucket(s: string): nat {
    Key(s) * 0x9E37_0001 % TWO32 / 0x800_0000
  }

  lemma KeyOfOne(c: char)
    requires c as int < 256
    ensures Key("") == 1 && Key([c]) == if c as int < 128 then c as int else TWO32 + c as int - 256
  {
    assert [c][..0] == "";
  }

  /** The key of two strings is the product of their keys, so the order of the bytes does not matter. */
  lemma {:induction false} KeyOfBoth(a: string, b: string)
    ensures Key(a + b) == Key(a) * Key(b) % TWO32
  {
    hide Signed;
    if b == "" {
      assert a + b == a && Key(b) == 1;
    } else {
      var front, c := b[..|b| - 1], b[|b| - 1];
      KeyOfBoth(a, front);
      assert (a + b)[..|a + b| - 1] == a + front;
      ProductMoves(Key(a), Key(front), Signed(c));
    }
  }

  lemma ProductMoves(x: nat, y: nat, z: nat)
    ensures x * y % TWO32 * z % TWO32 == x * (y * z % TWO32) % TWO32
  {
    ModTimes(x * y, z);
    ModTimes(y * z, x);
    Regroup(x, y, z, y * z % TWO32);
  }

  lemma ModTimes(x: nat, y: nat)
    ensures x % TWO32 * y % TWO32 == x * y % TWO32
  {
    var q, r := x / TWO32, x % TWO32;
    assert x * y == TWO32 * (q * y) + r * y by { Spread(q, r, y); }
    Multiple(q * y, r * y);
  }

  lemma Spread(q: nat, r: nat, y: nat)
    ensures (TWO32 * q + r) * y == TWO32 * (q * y) + r * y
  {
  }

  lemma Multiple(k: nat, z: nat)
    ensures (TWO32 * k + z) % TWO32 == z % TWO32
  {
  }

  lemma Regroup(x: nat, y: nat, z: nat, r: nat)
    ensures x * y * z == y * z * x && r * x == x * r
  {
  }

  /** The bucket is the top five bits of the key times the multiplier. */
  lemma BucketIsTop(s: string)
    ensures Bucket(s) < 32
    ensures var h := Key(s) * 0x9E37_0001 % TWO32; Bucket(s) * 0x800_0000 <= h < (Bucket(s) + 1) * 0x800_0000
  {
    hide Key;
  }

  /** The comparison of the search: as many bytes as the segment has. */
  predicate Matches(name: string, seg: string) {
    Bucket(name) == Bucket(seg) && seg <= name
  }

  function FirstMatch(v: Tree, children: seq<DentryId>, seg: string): Option<DentryId>
    requires forall c :: c in children ==> c in v.dentries
  {
    if children == [] then None
    else if Matches(v.dentries[children[0]].name, seg) then Some(children[0])
    else FirstMatch(v, children[1..], seg)
  }

  /** `c` is among the first `j + 1` of the chain. */
  predicate Among(children: seq<DentryId>, j: nat, c: DentryId)
    requires j < |children|
  {
    c in children[..j + 1]
  }

  /** Another child comes before every occurrence of `c` in the chain and starts with the name of `c`. */
  ghost predicate Hides(v: Tree, children: seq<DentryId>, c: DentryId)
    requires c in v.dentries && forall x :: x in children ==> x in v.dentries
  {
    exists j :: 0 <= j < |children| && !Among(children, j, c)
                && Matches(v.dentries[children[j]].name, v.dentries[c].name)
  }

  /** A search for the name of a child finds some child that matches, and finds this one unless it is hidden. */
  lemma {:induction false} SearchFinds(v: Tree, children: seq<DentryId>, c: DentryId)
    requires c in children && forall x :: x in children ==> x in v.dentries
    ensures var r := FirstMatch(v, children, v.dentries[c].name);
            r.Some? && r.value in children && (r.value == c <==> !Hides(v, children, c))
  {
    hide Matches;
    var name := v.dentries[c].name;
    assert Matches(name, name) by { SelfMatch(name); }
    if Matches(v.dentries[children[0]].name, name) {
      assert children[..1] == [children[0]];
      if children[0] == c {
        forall j | 0 <= j < |children|
          ensures Among(children, j, c)
        {
          assert children[..j + 1][0] == c;
        }
      } else {
        assert !Among(children, 0, c);
      }
    } else {
      assert children[0] != c;
      SearchFinds(v, children[1..], c);
      HidesTail(v, children, c);
    }
  }

  lemma SelfMatch(name: string)
    ensures Matches(name, name)
  {
  }

  lemma HidesTail(v: Tree, children: seq<DentryId>, c: DentryId)
    requires c in children && forall x :: x in children ==> x in v.dentries
    requires children[0] != c && !Matches(v.dentries[children[0]].name, v.dentries[c].name)
    ensures Hides(v, children, c) <==> Hides(v, children[1..], c)
  {
    hide Matches;
    var rest := children[1..];
    if j :| 0 <= j < |children| && !Among(children, j, c)
            && Matches(v.dentries[children[j]].name, v.dentries[c].name) {
      assert rest[..j] == children[1..j + 1];
      assert rest[j - 1] == children[j] && !Among(rest, j - 1, c);
    }
    if j :| 0 <= j < |rest| && !Among(rest, j, c)
            && Matches(v.dentries[rest[j]].name, v.dentries[c].name) {
      assert children[..j + 2] == [children[0]] + rest[..j + 1];
      assert children[j + 1] == rest[j] && !Among(children, j + 1, c);
    }
  }

  // ---------------------------------------------------------------------------------------------
  // Lookup

  /** The length of the first segment. */
  function SegLen(path: string): (n: nat)
    ensures n <= |path| && (n < |path| ==> path[n] == SEPARATOR)
    ensures forall i :: 0 <= i < n ==> path[i] != SEPARATOR
  {
    if path == "" || path[0] == SEPARATOR then 0 else 1 + SegLen(path[1..])
  }

  /** What is left after the first segment and its separator. */
  function Rest(path: string): string {
    var n := SegLen(path);
    if n < |path| then path[n + 1..] else ""
  }

  /** The segment "..": off the mounts whose root this is, then to the parent if there is one. */
  function UpDir(v: Tree, p: Place): (r: Found)
    requires TreeOk(v) && InTree(v, p)
    ensures r.At? ==> InTree(v, r.place)
    decreases p.mount
  {
    assert MountOk(v, p.mount);
    if v.dentries[p.dentry].parent.Some? then
      UpInTree(v, p);
      At(Place(p.mount, v.dentries[p.dentry].parent.value))
    else if p.mount == v.root then At(p)
    else if v.mounts[p.mount].on.None? then Bug
    else UpDir(v, v.mounts[p.mount].on.value)
  }

  /** One segment, from a directory nothing is mounted on; neither of the file systems resolves names that
      have no entry. */
  function Enter(v: Tree, p: Place, seg: string): (r: Found)
    requires TreeOk(v) && InTree(v, p)
    ensures r.At? ==> InTree(v, r.place)
  {
    assert DentryOk(v, p.dentry);
    if seg == "" || seg == "." then At(p)
    else if seg == ".." then UpDir(v, p)
    else
      var c := FirstMatch(v, v.dentries[p.dentry].children, seg);
      if c.None? then NoEntry
      else
        MatchIsChild(v, v.dentries[p.dentry].children, seg);
        ChildUp(v, p, c.value);
        At(Place(p.mount, c.value))
  }

  lemma {:induction false} MatchIsChild(v: Tree, children: seq<DentryId>, seg: string)
    requires forall c :: c in children ==> c in v.dentries
    ensures var r := FirstMatch(v, children, seg);
            r.Some? ==> r.value in children
  {
    hide Matches;
    if children != [] {
      MatchIsChild(v, children[1..], seg);
    }
  }

  /** Into the mount that sits on this place. */
  function Descend(v: Tree, p: Place): (q: Place)
    requires TreeOk(v) && InTree(v, p) && Flagged(v, p)
    ensures InTree(v, q) && p.mount < q.mount && Up(v, q) == Some(p)
  {
    MountUp(v, p);
    MntRoot(v, v.over[p])
  }

  /** The end of a lookup enters one mount. */
  function Finish(v: Tree, p: Place): (q: Place)
    requires TreeOk(v) && InTree(v, p)
    ensures InTree(v, q)
  {
    if Flagged(v, p) then Descend(v, p) else p
  }

  ghost function Younger(v: Tree, m: MountId): set<MountId> {
    set n | n in v.mounts && m < n
  }

  /** A relative lookup. Entering a mount uses up no segment. */
  function Walk(v: Tree, p: Place, path: string): (r: Found)
    requires TreeOk(v) && InTree(v, p)
    ensures r.At? ==> InTree(v, r.place)
    decreases |path|, Younger(v, p.mount)
  {
    if path == "" then At(Finish(v, p))
    else if !v.dentries[p.dentry].directory then NoEntry
    else if Flagged(v, p) then
      var q := Descend(v, p);
      assert q.mount in Younger(v, p.mount) && Younger(v, q.mount) < Younger(v, p.mount);
      Walk(v, q, path)
    else
      var next := Enter(v, p, path[..SegLen(path)]);
      if next.At? then Walk(v, next.place, Rest(path)) else next
  }

  /** `vfs_lookup`: an absolute path, or one without a starting place, starts at the root. */
  function Lookup(v: Tree, start: Option<Place>, path: string): (r: Found)
    requires TreeOk(v) && (start.Some? ==> InTree(v, start.value))
    ensures r.At? ==> InTree(v, r.place)
  {
    RootInTree(v);
    if path != "" && path[0] == SEPARATOR then Walk(v, MntRoot(v, v.root), path[1..])
    else if start.Some? then Walk(v, start.value, path)
    else Walk(v, MntRoot(v, v.root), path)
  }

  // ---------------------------------------------------------------------------------------------
  // No check in a lookup fails

  lemma {:induction false} UpDirAttached(v: Tree, p: Place)
    requires TreeOk(v) && InTree(v, p) && Attached(v, p.mount)
    ensures UpDir(v, p).At? && Attached(v, UpDir(v, p).place.mount)
    decreases p.mount
  {
    assert MountOk(v, p.mount);
    if v.dentries[p.dentry].parent.None? && p.mount != v.root {
      UpDirAttached(v, v.mounts[p.mount].on.value);
    }
  }

  /** From an attached place, whatever the path, a lookup fails no check: it finds a place that is again
      attached, or reports that there is none. */
  lemma {:induction false} WalkFindsOrNot(v: Tree, p: Place, path: string)
    requires TreeOk(v) && InTree(v, p) && Attached(v, p.mount)
    ensures var r := Walk(v, p, path);
            r.NoEntry? || (r.At? && InTree(v, r.place) && Attached(v, r.place.mount))
    decreases |path|, Younger(v, p.mount)
  {
    hide TreeOk, FirstMatch, SegLen, Attached, UpDir;
    if Flagged(v, p) {
      var x := Descend(v, p);
      DescendAttached(v, p);
      if path != "" && v.dentries[p.dentry].directory {
        YoungerShrinks(v, p, x);
        WalkFindsOrNot(v, x, path);
      }
    } else if path != "" && v.dentries[p.dentry].directory {
      var seg := path[..SegLen(path)];
      UpDirAttached(v, p);
      var next := Enter(v, p, seg);
      if next.At? {
        RestShorter(path);
        WalkFindsOrNot(v, next.place, Rest(path));
      }
    }
  }

  lemma RestShorter(path: string)
    requires path != ""
    ensures |Rest(path)| < |path|
  {
  }

  lemma DescendAttached(v: Tree, p: Place)
    requires TreeOk(v) && InTree(v, p) && Flagged(v, p) && Attached(v, p.mount)
    ensures Attached(v, Descend(v, p).mount)
  {
    assert MountOk(v, v.over[p]);
  }

  // ---------------------------------------------------------------------------------------------
  // Routes from the root

  /** The places from the root down to a place, each one step below the one before. */
  ghost predicate Route(v: Tree, q: seq<Place>)
    requires TreeOk(v)
  {
    && q != [] && q[0] == MntRoot(v, v.root)
    && (forall i :: 0 <= i < |q| ==> InTree(v, q[i]))
    && (forall i {:trigger Up(v, q[i])} :: 0 < i < |q| ==> Up(v, q[i]) == Some(q[i - 1]))
  }

  /** The step down to `q[i]` enters a mount rather than a child. */
  predicate Crosses(v: Tree, q: seq<Place>, i: nat)
    requires 0 < i < |q| && q[i].dentry in v.dentries
  {
    v.dentries[q[i].dentry].parent.None?
  }

  ghost predicate InTreeAll(v: Tree, q: seq<Place>) {
    q != [] && forall i :: 0 <= i < |q| ==> InTree(v, q[i])
  }

  /** A mount on the route sits on the root of a file system. */
  ghost predicate Stacked(v: Tree, q: seq<Place>)
    requires InTreeAll(v, q)
  {
    exists i :: 0 < i < |q| && Crosses(v, q, i) && v.dentries[q[i - 1].dentry].parent.None?
  }

  predicate Sane(name: string) {
    name != "" && name != "." && name != ".." && SEPARATOR !in name
  }

  ghost predicate SaneNames(v: Tree, q: seq<Place>)
    requires InTreeAll(v, q)
  {
    forall i :: 0 < i < |q| && !Crosses(v, q, i) ==> Sane(v.dentries[q[i].dentry].name)
  }

  /** The route's path, from its `i`th place on. */
  ghost function Tail(v: Tree, q: seq<Place>, i: nat): string
    requires InTreeAll(v, q) && i < |q|
    decreases |q| - i
  {
    if i + 1 == |q| then ""
    else if Crosses(v, q, i + 1) then Tail(v, q, i + 1)
    else [SEPARATOR] + v.dentries[q[i + 1].dentry].name + Tail(v, q, i + 1)
  }

  /** The path of the last place of the route. */
  ghost function PathOf(v: Tree, q: seq<Place>): string
    requires InTreeAll(v, q)
  {
    if Tail(v, q, 0) == "" then "/" else Tail(v, q, 0)
  }

  /** Going up from two equal places of a route gives equal places, so a route has no repetition. */
  lemma {:induction false} RouteDistinct(v: Tree, q: seq<Place>, a: nat, b: nat)
    requires TreeOk(v) && Route(v, q) && a < b < |q|
    ensures q[a] != q[b]
    decreases a
  {
    hide TreeOk, Up;
    RootInTree(v);
    if a > 0 {
      RouteDistinct(v, q, a - 1, b - 1);
      assert Up(v, q[a]) == Some(q[a - 1]);
    }
    assert Up(v, q[b]) == Some(q[b - 1]);
  }

  /** A place one step below the route is on the route only as the next place. */
  lemma BelowRoute(v: Tree, q: seq<Place>, i: nat, x: Place)
    requires TreeOk(v) && Route(v, q) && i < |q| && InTree(v, x) && Up(v, x) == Some(q[i])
    ensures x in q ==> i + 1 < |q| && x == q[i + 1]
  {
    hide TreeOk, Up;
    RootInTree(v);
    forall k | 0 <= k < |q| && q[k] == x
      ensures k == i + 1
    {
      assert k > 0 ==> Up(v, q[k]) == Some(q[k - 1]);
      if k > 0 && k - 1 < i {
        RouteDistinct(v, q, k - 1, i);
      }
      if k > 0 && i < k - 1 {
        RouteDistinct(v, q, i, k - 1);
      }
    }
  }

  /** Below a place off the route everything is off the route. */
  lemma StaysOff(v: Tree, q: seq<Place>, p: Place, x: Place)
    requires TreeOk(v) && Route(v, q) && InTree(v, p) && InTree(v, x) && Up(v, x) == Some(p)
    requires p !in q
    ensures x !in q
  {
    hide TreeOk, Up;
    RootInTree(v);
    forall k | 0 <= k < |q|
      ensures q[k] != x
    {
      assert k > 0 ==> Up(v, q[k]) == Some(q[k - 1]);
    }
  }

  // ---------------------------------------------------------------------------------------------
  // Looking up the path of a route

  function Drop(s: string): string {
    if s != "" && s[0] == SEPARATOR then s[1..] else s
  }

  lemma {:induction false} SegmentOf(name: string, tail: string)
    requires SEPARATOR !in name && (tail == "" || tail[0] == SEPARATOR)
    ensures SegLen(name + tail) == |name| && (name + tail)[..|name|] == name
    ensures Rest(name + tail) == Drop(tail)
  {
    var path := name + tail;
    assert forall k :: 0 <= k < |name| ==> path[k] == name[k];
    assert tail != "" ==> path[|name|] == tail[0];
    assert tail != "" ==> path[|name| + 1..] == tail[1..];
  }

  lemma {:induction false} TailShape(v: Tree, q: seq<Place>, i: nat)
    requires InTreeAll(v, q) && i < |q|
    ensures Tail(v, q, i) == "" || Tail(v, q, i)[0] == SEPARATOR
    decreases |q| - i
  {
    if i + 1 < |q| {
      TailShape(v, q, i + 1);
    }
  }

  lemma ChildTail(v: Tree, q: seq<Place>, i: nat)
    requires InTreeAll(v, q) && i + 1 < |q| && !Crosses(v, q, i + 1)
    ensures Drop(Tail(v, q, i)) == v.dentries[q[i + 1].dentry].name + Tail(v, q, i + 1)
  {
  }

  /** The path below a place, when the next step is to a child: its name, then the path below the child. */
  lemma NextSegment(v: Tree, q: seq<Place>, i: nat)
    requires InTreeAll(v, q) && SaneNames(v, q) && i + 1 < |q| && !Crosses(v, q, i + 1)
    ensures var path, name := Drop(Tail(v, q, i)), v.dentries[q[i + 1].dentry].name;
            && path != "" && Sane(name)
            && path[..SegLen(path)] == name && Rest(path) == Drop(Tail(v, q, i + 1))
  {
    hide SegLen, Rest, Tail;
    TailShape(v, q, i + 1);
    var name, tail := v.dentries[q[i + 1].dentry].name, Tail(v, q, i + 1);
    assert Drop(Tail(v, q, i)) == name + tail by { ChildTail(v, q, i); }
    SegmentOf(name, tail);
  }

  /** A lookup that has left the route does not come back to it. */
  lemma {:induction false} OffRoute(v: Tree, q: seq<Place>, i: nat, p: Place)
    requires TreeOk(v) && Route(v, q) && SaneNames(v, q) && i < |q|
    requires InTree(v, p) && p !in q
    ensures Walk(v, p, Drop(Tail(v, q, i))) != At(q[|q| - 1])
    decreases |q| - i, Younger(v, p.mount)
  {
    hide TreeOk, Up, FirstMatch, SegLen, Rest, UpDir;
    var path := Drop(Tail(v, q, i));
    if i + 1 < |q| && Crosses(v, q, i + 1) {
      OffRoute(v, q, i + 1, p);
    } else if Flagged(v, p) {
      var x := Descend(v, p);
      StaysOff(v, q, p, x);
      if path != "" {
        YoungerShrinks(v, p, x);
        OffRoute(v, q, i, x);
      }
    } else if i + 1 < |q| {
      NextSegment(v, q, i);
      var next := Enter(v, p, path[..SegLen(path)]);
      if next.At? {
        EnterBelow(v, p, path[..SegLen(path)]);
        StaysOff(v, q, p, next.place);
        OffRoute(v, q, i + 1, next.place);
      }
    }
  }

  lemma YoungerShrinks(v: Tree, p: Place, x: Place)
    requires p.mount < x.mount && InTree(v, x)
    ensures Younger(v, x.mount) < Younger(v, p.mount)
  {
    assert x.mount in Younger(v, p.mount);
  }

  /** A sane segment leads one step down. */
  lemma EnterBelow(v: Tree, p: Place, seg: string)
    requires TreeOk(v) && InTree(v, p) && Sane(seg)
    ensures var next := Enter(v, p, seg);
            next.At? ==> InTree(v, next.place) && Up(v, next.place) == Some(p)
  {
    hide FirstMatch;
    var children := v.dentries[p.dentry].children;
    assert DentryOk(v, p.dentry);
    MatchIsChild(v, children, seg);
    var next := Enter(v, p, seg);
    if next.At? {
      ChildUp(v, p, next.place.dentry);
    }
  }

  // ---------------------------------------------------------------------------------------------
  // When lookup undoes getcwd

  /** A mount sits on `q[i]` and the route does not enter it. The last place of a route that ends at the root
      of a mount is exempt: the end of a lookup enters one mount and no more. */
  ghost predicate Covered(v: Tree, q: seq<Place>, i: nat)
    requires InTreeAll(v, q) && i < |q|
  {
    Flagged(v, q[i]) && if i + 1 < |q| then !Crosses(v, q, i + 1) else i > 0 ==> !Crosses(v, q, i)
  }

  /** The route steps down to a child of `q[i]`, which is not a directory. */
  ghost predicate Blocked(v: Tree, q: seq<Place>, i: nat)
    requires InTreeAll(v, q) && i < |q|
  {
    i + 1 < |q| && !Crosses(v, q, i + 1) && !v.dentries[q[i].dentry].directory
  }

  /** The route steps down from `q[i]` to a child that another child hides. */
  ghost predicate Shadowed(v: Tree, q: seq<Place>, i: nat)
    requires TreeOk(v) && InTreeAll(v, q) && i < |q|
  {
    assert DentryOk(v, q[i].dentry);
    i + 1 < |q| && !Crosses(v, q, i + 1) && Hides(v, v.dentries[q[i].dentry].children, q[i + 1].dentry)
  }

  ghost predicate Lost(v: Tree, q: seq<Place>, i: nat)
    requires TreeOk(v) && InTreeAll(v, q) && i < |q|
  {
    Blocked(v, q, i) || Covered(v, q, i) || Shadowed(v, q, i)
  }

  /** From a place of the route, where a step to a child is next. */
  lemma ChildStep(v: Tree, q: seq<Place>, i: nat)
    requires TreeOk(v) && Route(v, q) && SaneNames(v, q) && i + 1 < |q| && !Crosses(v, q, i + 1)
    ensures var path := Drop(Tail(v, q, i));
            if !v.dentries[q[i].dentry].directory then Walk(v, q[i], path) == NoEntry
            else if Flagged(v, q[i]) then Walk(v, q[i], path) == Walk(v, Descend(v, q[i]), path)
            else var next := Enter(v, q[i], path[..SegLen(path)]);
                 && next.At? && Walk(v, q[i], path) == Walk(v, next.place, Drop(Tail(v, q, i + 1)))
                 && Up(v, next.place) == Some(q[i])
                 && (next.place == q[i + 1] <==> !Shadowed(v, q, i))
  {
    hide FirstMatch, SegLen, Rest, UpDir, Hides, Tail;
    var path, name := Drop(Tail(v, q, i)), v.dentries[q[i + 1].dentry].name;
    NextSegment(v, q, i);
    assert Up(v, q[i + 1]) == Some(q[i]);
    assert DentryOk(v, q[i + 1].dentry) && DentryOk(v, q[i].dentry);
    SearchFinds(v, v.dentries[q[i].dentry].children, q[i + 1].dentry);
    EnterBelow(v, q[i], name);
  }

  ghost predicate LostFrom(v: Tree, q: seq<Place>, i: nat)
    requires TreeOk(v) && InTreeAll(v, q) && i < |q|
  {
    exists j :: i <= j < |q| && Lost(v, q, j)
  }

  lemma LostLater(v: Tree, q: seq<Place>, i: nat)
    requires TreeOk(v) && InTreeAll(v, q) && i + 1 < |q|
    ensures LostFrom(v, q, i) <==> Lost(v, q, i) || LostFrom(v, q, i + 1)
  {
    hide Lost, TreeOk;
  }

  /** After a mount is entered on a route without stacked mounts, either the route ends or a child is next. */
  lemma AfterCrossing(v: Tree, q: seq<Place>, i: nat)
    requires InTreeAll(v, q) && !Stacked(v, q) && i + 1 < |q| && Crosses(v, q, i + 1)
    ensures Tail(v, q, i) == Tail(v, q, i + 1)
    ensures (Tail(v, q, i) == "") == (i + 2 == |q|)
    ensures i + 2 < |q| ==> !Crosses(v, q, i + 2)
  {
    if i + 2 < |q| {
      assert !Crosses(v, q, i + 2);
    }
  }

  lemma LastPlace(v: Tree, q: seq<Place>)
    requires TreeOk(v) && Route(v, q) && (|q| > 1 ==> !Crosses(v, q, |q| - 1))
    ensures Walk(v, q[|q| - 1], "") == At(q[|q| - 1]) <==> !Lost(v, q, |q| - 1)
  {
    hide TreeOk, Up;
    var last := q[|q| - 1];
    assert Walk(v, last, "") == At(Finish(v, last));
    if Flagged(v, last) {
      BelowRoute(v, q, |q| - 1, Descend(v, last));
      assert q[|q| - 1] in q;
    }
  }

  /** The place the route comes to when it enters a mount is the one a lookup enters. */
  lemma CrossingFlag(v: Tree, q: seq<Place>, i: nat)
    requires TreeOk(v) && Route(v, q) && i + 1 < |q| && Crosses(v, q, i + 1)
    ensures Flagged(v, q[i]) && v.dentries[q[i].dentry].directory && Descend(v, q[i]) == q[i + 1]
  {
    assert Up(v, q[i + 1]) == Some(q[i]);
    assert MountOk(v, q[i + 1].mount) && DentryOk(v, q[i].dentry);
  }

  lemma CrossingStep(v: Tree, q: seq<Place>, i: nat)
    requires TreeOk(v) && Route(v, q) && SaneNames(v, q) && !Stacked(v, q) && i + 1 < |q| && Crosses(v, q, i + 1)
    ensures !Lost(v, q, i)
    ensures i + 2 == |q| ==> !Lost(v, q, i + 1)
    ensures var path := Drop(Tail(v, q, i));
            Walk(v, q[i], path) == if i + 2 == |q| then At(q[i + 1]) else Walk(v, q[i + 1], Drop(Tail(v, q, i + 1)))
  {
    hide TreeOk, Up, Enter, Tail, Stacked, Descend, Flagged;
    CrossingFlag(v, q, i);
    AfterCrossing(v, q, i);
    if i + 2 < |q| {
      NextSegment(v, q, i + 1);
    }
  }

  /** Where a step to a child is next: a lookup that arrives takes this step. */
  lemma ChildBranch(v: Tree, q: seq<Place>, i: nat)
    requires TreeOk(v) && Route(v, q) && SaneNames(v, q) && i + 1 < |q| && !Crosses(v, q, i + 1)
    ensures var arrived := At(q[|q| - 1]);
            Walk(v, q[i], Drop(Tail(v, q, i))) == arrived <==>
            !Lost(v, q, i) && Walk(v, q[i + 1], Drop(Tail(v, q, i + 1))) == arrived
  {
    hide TreeOk, Tail, Walk, Enter, FirstMatch, SegLen, Hides, Up, Shadowed;
    ChildStep(v, q, i);
    if !v.dentries[q[i].dentry].directory {
      assert Blocked(v, q, i);
    } else if Flagged(v, q[i]) {
      var x := Descend(v, q[i]);
      BelowRoute(v, q, i, x);
      NotAChild(v, q, i, x);
      OffRoute(v, q, i, x);
      assert Covered(v, q, i);
    } else {
      var path := Drop(Tail(v, q, i));
      var x := Enter(v, q[i], path[..SegLen(path)]).place;
      BelowRoute(v, q, i, x);
      if Shadowed(v, q, i) {
        OffRoute(v, q, i + 1, x);
      }
    }
  }

  /** From a place of the route a lookup of the rest of the path arrives exactly if nothing on the rest of the
      route is blocked, covered or shadowed. */
  lemma {:induction false} RestOfRoute(v: Tree, q: seq<Place>, i: nat)
    requires TreeOk(v) && Route(v, q) && SaneNames(v, q) && !Stacked(v, q) && i < |q|
    requires i > 0 && i + 1 == |q| ==> !Crosses(v, q, i)
    ensures Walk(v, q[i], Drop(Tail(v, q, i))) == At(q[|q| - 1]) <==> !LostFrom(v, q, i)
    decreases |q| - i
  {
    hide TreeOk, Walk, Lost, Stacked, SaneNames, Up;
    if i + 1 == |q| {
      LastPlace(v, q);
    } else {
      LostLater(v, q, i);
      if Crosses(v, q, i + 1) {
        CrossingStep(v, q, i);
        if i + 2 < |q| {
          RestOfRoute(v, q, i + 1);
        }
      } else {
        ChildBranch(v, q, i);
        RestOfRoute(v, q, i + 1);
      }
    }
  }

  lemma NotAChild(v: Tree, q: seq<Place>, i: nat, x: Place)
    requires TreeOk(v) && Route(v, q) && i + 1 < |q| && !Crosses(v, q, i + 1)
    requires q[i].mount < x.mount
    ensures x != q[i + 1]
  {
    assert Up(v, q[i + 1]) == Some(q[i]);
  }

  /** Looking up the path of a route gives back its last place if and only if nothing on it is lost. */
  lemma LookupOfRoute(v: Tree, q: seq<Place>, start: Option<Place>)
    requires TreeOk(v) && Route(v, q) && SaneNames(v, q) && !Stacked(v, q)
    requires start.Some? ==> InTree(v, start.value)
    ensures Lookup(v, start, PathOf(v, q)) == At(q[|q| - 1]) <==> !LostFrom(v, q, 0)
  {
    hide TreeOk, Tail, Walk, Lost;
    TailShape(v, q, 0);
    RestOfRoute(v, q, 0);
    assert PathOf(v, q)[1..] == Drop(Tail(v, q, 0));
  }

  // ---------------------------------------------------------------------------------------------
  // Every place has a route

  lemma ExtendRoute(v: Tree, q: seq<Place>, p: Place)
    requires TreeOk(v) && Route(v, q) && InTree(v, p) && Up(v, p) == Some(q[|q| - 1])
    ensures Route(v, q + [p])
  {
    hide TreeOk, Up;
    var r := q + [p];
    forall i | 0 < i < |r|
      ensures Up(v, r[i]) == Some(r[i - 1])
    {
      assert i < |q| ==> r[i] == q[i] && Up(v, q[i]) == Some(q[i - 1]);
    }
  }

  /** An older mount or, in the same one, a lesser depth; in a sound tree every step up leads there. */
  ghost predicate Above(v: Tree, u: Place, p: Place)
    requires InTree(v, p)
  {
    InTree(v, u) && (u.mount < p.mount
                     || (u.mount == p.mount && v.dentries[u.dentry].depth < v.dentries[p.dentry].depth))
  }

  /** The steps up from a place, backwards. */
  ghost function RouteTo(v: Tree, p: Place): (q: seq<Place>)
    requires InTree(v, p)
    ensures InTreeAll(v, q) && q[|q| - 1] == p
    decreases p.mount, v.dentries[p.dentry].depth
  {
    if Up(v, p).Some? && Above(v, Up(v, p).value, p) then RouteTo(v, Up(v, p).value) + [p] else [p]
  }

  /** A step up leads to an older mount or, in the same one, to a lesser depth, and stays attached; only the
      root has none. */
  lemma StepUp(v: Tree, p: Place)
    requires TreeOk(v) && InTree(v, p) && Attached(v, p.mount)
    ensures Up(v, p).Some? ==> Above(v, Up(v, p).value, p) && Attached(v, Up(v, p).value.mount)
    ensures Up(v, p).None? ==> v.mounts[v.root].fs in v.roots && p == MntRoot(v, v.root)
  {
    RootInTree(v);
    assert DentryOk(v, p.dentry) && MountOk(v, p.mount);
    if Up(v, p).Some? {
      UpInTree(v, p);
    }
  }

  /** Every place that hangs from the root mount has a route: the steps up from it end at the root. */
  lemma {:induction false} RouteReaches(v: Tree, p: Place)
    requires TreeOk(v) && InTree(v, p) && Attached(v, p.mount)
    ensures Route(v, RouteTo(v, p))
    decreases p.mount, v.dentries[p.dentry].depth
  {
    hide Route, TreeOk, Attached, Up, MntRoot;
    StepUp(v, p);
    if Up(v, p).None? {
      RootRoute(v);
    } else {
      RouteReaches(v, Up(v, p).value);
      ExtendRoute(v, RouteTo(v, Up(v, p).value), p);
    }
  }

  lemma RootRoute(v: Tree)
    requires TreeOk(v)
    ensures v.mounts[v.root].fs in v.roots && Route(v, [MntRoot(v, v.root)])
  {
    RootInTree(v);
  }

  /** A place has one route at most. */
  lemma {:induction false} OneRoute(v: Tree, q: seq<Place>, r: seq<Place>)
    requires TreeOk(v) && Route(v, q) && Route(v, r) && q[|q| - 1] == r[|r| - 1]
    ensures q == r
    decreases |q|
  {
    hide TreeOk, Up, InTree;
    RootInTree(v);
    var m, n := |q| - 1, |r| - 1;
    assert m > 0 ==> Up(v, q[m]) == Some(q[m - 1]);
    assert n > 0 ==> Up(v, r[n]) == Some(r[n - 1]);
    if m > 0 && n > 0 {
      ShorterRoute(v, q);
      ShorterRoute(v, r);
      OneRoute(v, q[..m], r[..n]);
      assert q == q[..m] + [q[m]] && r == r[..n] + [r[n]];
    }
  }

  lemma ShorterRoute(v: Tree, q: seq<Place>)
    requires TreeOk(v) && Route(v, q) && |q| > 1
    ensures Route(v, q[..|q| - 1])
  {
    hide TreeOk, Up, InTree;
    var r := q[..|q| - 1];
    forall i | 0 < i < |r|
      ensures Up(v, r[i]) == Some(r[i - 1])
    {
      assert Up(v, q[i]) == Some(q[i - 1]);
    }
  }

  lemma RouteIs(v: Tree, p: Place, q: seq<Place>)
    requires TreeOk(v) && InTree(v, p) && Attached(v, p.mount) && Route(v, q) && q[|q| - 1] == p
    ensures RouteTo(v, p) == q
  {
    hide TreeOk, Route, RouteTo;
    RouteReaches(v, p);
    OneRoute(v, RouteTo(v, p), q);
  }

  /** No mount on the way to the place sits on the root of a file system. */
  ghost predicate Unstacked(v: Tree, p: Place)
    requires InTree(v, p)
  {
    !Stacked(v, RouteTo(v, p))
  }

  /** The names on the way to a place, each behind a separator. */
  ghost function NamesTo(v: Tree, p: Place): string
    requires InTree(v, p)
  {
    Tail(v, RouteTo(v, p), 0)
  }

  /** The path of a place. */
  ghost function PathTo(v: Tree, p: Place): string
    requires InTree(v, p)
  {
    if NamesTo(v, p) == "" then "/" else NamesTo(v, p)
  }

  /** On the way to the place no directory is missing, no mount covers what is below it, and no child is hidden
      behind another. */
  ghost predicate Clear(v: Tree, p: Place)
    requires TreeOk(v) && InTree(v, p)
  {
    !LostFrom(v, RouteTo(v, p), 0)
  }

  /** Lookup undoes `getcwd`, exactly: for every place of the tree, looking up its path gives back the mount and
      the entry if and only if the way to it is clear. */
  lemma LookupUndoesGetcwd(v: Tree, p: Place, start: Option<Place>)
    requires TreeOk(v) && InTree(v, p) && Attached(v, p.mount)
    requires Unstacked(v, p) && SaneNames(v, RouteTo(v, p))
    requires start.Some? ==> InTree(v, start.value)
    ensures Lookup(v, start, PathTo(v, p)) == At(p) <==> Clear(v, p)
  {
    hide TreeOk, RouteTo, Lookup, Tail, LostFrom, Stacked, SaneNames;
    RouteReaches(v, p);
    LookupOfRoute(v, RouteTo(v, p), start);
  }
}
