/**
 The object caches of the kernel: pages cut into equal objects, a free list of object indices in the
 header of each page, and three lists that sort the pages by how many objects they have left.
 */
module SlabCache {
  import opened Bits
  import opened Seqs

  const PAGE_SIZE: nat := 0x1000
  const HEADER: nat := 32          // sizeof(cache_page_t)
  const ENTRY: nat := 4            // one free-list entry
  const FREELIST_END: int := 0x8000_0000

  // ---------------------------------------------------------------------------------------------
  // One page

  datatype Slab = Slab(left: nat, free: int, freelist: seq<int>)

  /** The first `n` indices on the free list that starts at `at`. */
  ghost function Follow(fl: seq<int>, at: int, n: nat): seq<int>
    decreases n
  {
    if n == 0 || !(0 <= at < |fl|) then [] else [at] + Follow(fl, fl[at], n - 1)
  }

  /** Where the list goes after `n` links. */
  ghost function After(fl: seq<int>, at: int, n: nat): int
    decreases n
  {
    if n == 0 || !(0 <= at < |fl|) then at else After(fl, fl[at], n - 1)
  }

  ghost function FreeOf(p: Slab): seq<int> {
    Follow(p.freelist, p.free, p.left)
  }

  /** `left` is the length of the free list, which visits no index twice and ends. */
  ghost predicate SlabOk(p: Slab, max: nat) {
    && |p.freelist| == max < FREELIST_END
    && |FreeOf(p)| == p.left && Distinct(FreeOf(p))
    && After(p.freelist, p.free, p.left) == FREELIST_END
  }

  lemma {:induction false} FollowBounds(fl: seq<int>, at: int, n: nat)
    ensures forall i :: 0 <= i < |Follow(fl, at, n)| ==> 0 <= Follow(fl, at, n)[i] < |fl|
    decreases n
  {
    if n > 0 && 0 <= at < |fl| {
      FollowBounds(fl, fl[at], n - 1);
    }
  }

  /** Writing an entry that is not on the list does not change the list. */
  lemma {:induction false} FollowFrame(fl: seq<int>, at: int, n: nat, i: nat, v: int)
    requires i < |fl| && i !in Follow(fl, at, n)
    ensures Follow(fl[i := v], at, n) == Follow(fl, at, n)
    ensures |Follow(fl, at, n)| == n ==> After(fl[i := v], at, n) == After(fl, at, n)
    decreases n
  {
    if n > 0 && 0 <= at < |fl| {
      assert Follow(fl, at, n) == [at] + Follow(fl, fl[at], n - 1);
      assert i !in Follow(fl, fl[at], n - 1);
      FollowFrame(fl, fl[at], n - 1, i, v);
    }
  }

  /** A page never has more objects left than it holds. */
  lemma LeftBound(p: Slab, max: nat)
    requires SlabOk(p, max)
    ensures p.left <= max
    ensures p.left > 0 <==> 0 <= p.free < max
    ensures p.left == 0 <==> p.free == FREELIST_END
    ensures p.left > 0 ==> p.free in FreeOf(p)
  {
    FollowBounds(p.freelist, p.free, p.left);
    DistinctBelow(FreeOf(p), max);
  }

  /** `cache_do_alloc` */
  function SlabAlloc(p: Slab): Slab
    requires p.left > 0 && 0 <= p.free < |p.freelist|
  {
    Slab(p.left - 1, p.freelist[p.free], p.freelist)
  }

  /** `cache_do_free` */
  function SlabFree(p: Slab, i: nat): Slab
    requires i < |p.freelist|
  {
    Slab(p.left + 1, i, p.freelist[i := p.free])
  }

  /** Allocation takes the first index off the free list. */
  lemma SlabAllocKeeps(p: Slab, max: nat)
    requires SlabOk(p, max) && p.left > 0
    ensures 0 <= p.free < max && SlabOk(SlabAlloc(p), max)
    ensures FreeOf(p) == [p.free] + FreeOf(SlabAlloc(p)) && p.free !in FreeOf(SlabAlloc(p))
  {
    LeftBound(p, max);
    Tail(FreeOf(p));
    assert FreeOf(p)[1..] == FreeOf(SlabAlloc(p));
  }

  /** Freeing an index that is in use puts it first on the free list. */
  lemma SlabFreeKeeps(p: Slab, max: nat, i: nat)
    requires SlabOk(p, max) && i < max && i !in FreeOf(p)
    ensures i < |p.freelist| && SlabOk(SlabFree(p, i), max)
    ensures FreeOf(SlabFree(p, i)) == [i] + FreeOf(p)
  {
    FollowFrame(p.freelist, p.free, p.left, i, p.free);
    Prepend(FreeOf(p), i);
  }

  /** A fresh free list: each entry names the next, the last ends it. */
  predicate FreshList(fl: seq<int>, max: nat) {
    |fl| == max && forall i :: 0 <= i < max ==> fl[i] == if i == max - 1 then FREELIST_END else i + 1
  }

  lemma {:induction false} FreshFollow(fl: seq<int>, max: nat, at: nat, n: nat)
    requires FreshList(fl, max) && at + n == max < FREELIST_END && at < max
    ensures |Follow(fl, at, n)| == n && After(fl, at, n) == FREELIST_END
    ensures forall i :: 0 <= i < n ==> Follow(fl, at, n)[i] == at + i
    decreases n
  {
    if n > 1 {
      FreshFollow(fl, max, at + 1, n - 1);
    } else {
      assert Follow(fl, fl[at], 0) == [];
    }
  }

  lemma FreshOk(fl: seq<int>, max: nat)
    requires FreshList(fl, max) && 0 < max < FREELIST_END
    ensures SlabOk(Slab(max, 0, fl), max)
    ensures forall i :: 0 <= i < max ==> i in FreeOf(Slab(max, 0, fl))
  {
    FreshFollow(fl, max, 0, max);
    forall i | 0 <= i < max
      ensures i in FreeOf(Slab(max, 0, fl))
    {
      assert FreeOf(Slab(max, 0, fl))[i] == i;
    }
  }

  function Fresh(max: nat): (fl: seq<int>)
    ensures FreshList(fl, max)
  {
    seq(max, i => if i == max - 1 then FREELIST_END else i + 1)
  }

  // ---------------------------------------------------------------------------------------------
  // Addresses

  /** How many objects of `size` bytes fit in a page next to their free-list entries. */
  function MaxOf(size: nat): nat {
    (PAGE_SIZE - HEADER) / (size + ENTRY)
  }

  /** Where the objects of page number `p` start, and the address of object `i`. */
  function Mem(size: nat, p: nat): nat {
    p * PAGE_SIZE + HEADER + ENTRY * MaxOf(size)
  }

  function Addr(size: nat, p: nat, i: nat): nat {
    Mem(size, p) + i * size
  }

  /** `mem_to_cache_page` and the index computed by `cache_free` */
  function PageOf(mem: nat): nat { mem / PAGE_SIZE }

  function IndexOf(size: nat, mem: nat): int
    requires size > 0
  {
    (mem - Mem(size, PageOf(mem))) / size
  }

  lemma Capacity(size: nat)
    ensures ENTRY * MaxOf(size) + MaxOf(size) * size <= PAGE_SIZE - HEADER
  {
    var m, w := MaxOf(size), size + ENTRY;
    assert m * w <= PAGE_SIZE - HEADER;
    assert m * w == m * size + m * ENTRY;
  }

  /** No more objects would fit. */
  lemma CapacityIsGreatest(size: nat)
    ensures HEADER + (MaxOf(size) + 1) * (size + ENTRY) > PAGE_SIZE
  {
  }

  /** Object `i` lies behind the free list of page `p`, and inside the page. */
  predicate InsidePage(size: nat, p: nat, i: nat) {
    && p * PAGE_SIZE + HEADER + ENTRY * MaxOf(size) <= Addr(size, p, i)
    && Addr(size, p, i) + size <= (p + 1) * PAGE_SIZE
  }

  /** Every object lies behind the header and the free list, inside its page. */
  lemma ObjectInPage(size: nat, p: nat, i: nat)
    requires i < MaxOf(size)
    ensures InsidePage(size, p, i)
  {
    hide MaxOf;
    Capacity(size);
    var m := MaxOf(size);
    Product(i, m, size);
    Behind(p * PAGE_SIZE, ENTRY * m, i * size, m * size, size);
  }

  lemma Behind(base: nat, table: nat, at: nat, all: nat, size: nat)
    requires at + size <= all && table + all <= PAGE_SIZE - HEADER
    ensures base + HEADER + table <= base + HEADER + table + at
    ensures base + HEADER + table + at + size <= base + PAGE_SIZE
  {
  }

  /** Freeing recovers exactly the page and the index that were handed out. */
  lemma AddrInverse(size: nat, p: nat, i: nat)
    requires size > 0 && i < MaxOf(size)
    ensures PageOf(Addr(size, p, i)) == p && IndexOf(size, Addr(size, p, i)) == i
  {
    ObjectInPage(size, p, i);
    var a := Addr(size, p, i);
    assert p * PAGE_SIZE <= a < (p + 1) * PAGE_SIZE;
    assert a / PAGE_SIZE == p;
    DivExact(i, size);
  }

  lemma DivExact(i: nat, size: nat)
    requires size > 0
    ensures (i * size) / size == i
  {
    DivModUnique(i * size, size, i, 0);
  }

  /** Different objects do not overlap. */
  lemma ObjectsDisjoint(size: nat, p: nat, i: nat, q: nat, j: nat)
    requires i < MaxOf(size) && j < MaxOf(size) && (p < q || (p == q && i < j))
    ensures Addr(size, p, i) + size <= Addr(size, q, j)
  {
    hide MaxOf;
    if p < q {
      ObjectInPage(size, p, i);
      ObjectInPage(size, q, j);
    } else {
      Product(i, j, size);
    }
  }

  lemma Product(i: nat, j: nat, size: nat)
    requires i < j
    ensures i * size + size <= j * size
  {
    assert (i + 1) * size <= j * size;
  }

  // ---------------------------------------------------------------------------------------------
  // A cache

  datatype Cache = Cache(size: nat, slabs: map<nat, Slab>, full: seq<nat>, partial: seq<nat>, empty: seq<nat>)

  ghost predicate SlabsOk(c: Cache) {
    forall p :: p in c.slabs ==> SlabOk(c.slabs[p], MaxOf(c.size))
  }

  /** Each page is on the one list that its number of objects left calls for, and on it once. */
  ghost predicate Sorted(c: Cache) {
    && Distinct(c.full) && Distinct(c.partial) && Distinct(c.empty)
    && (forall p :: p in c.full <==> p in c.slabs && c.slabs[p].left == 0)
    && (forall p :: p in c.partial <==> p in c.slabs && 0 < c.slabs[p].left < MaxOf(c.size))
    && (forall p :: p in c.empty <==> p in c.slabs && c.slabs[p].left == MaxOf(c.size))
  }

  ghost predicate CacheOk(c: Cache) {
    c.size > 0 && 0 < MaxOf(c.size) && SlabsOk(c) && Sorted(c)
  }

  /** Object `i` of page `p` is in use. */
  ghost predicate Live(c: Cache, p: nat, i: nat) {
    p in c.slabs && i < MaxOf(c.size) && i !in FreeOf(c.slabs[p])
  }

  /** `cache_alloc_page` with the page the page allocator returned. */
  function AddPage(c: Cache, page: nat): Cache {
    c.(slabs := c.slabs[page := Slab(MaxOf(c.size), 0, Fresh(MaxOf(c.size)))], empty := [page] + c.empty)
  }

  lemma AddPageKeeps(c: Cache, page: nat)
    requires CacheOk(c) && page !in c.slabs
    ensures CacheOk(AddPage(c, page)) && AddPage(c, page).empty != []
    ensures forall p, i :: Live(AddPage(c, page), p, i) <==> Live(c, p, i)
  {
    hide MaxOf, SlabOk, FreeOf;
    var max := MaxOf(c.size);
    MaxSmall(c.size);
    FreshOk(Fresh(max), max);
    Prepend(c.empty, page);
  }

  lemma MaxSmall(size: nat)
    requires size > 0
    ensures MaxOf(size) < PAGE_SIZE
  {
    Capacity(size);
  }

  /** Takes one object from the page at the front of `partial`, or else of `empty`. */
  function TakeFrom(c: Cache, p: nat): Cache
    requires p in c.slabs && c.slabs[p].left > 0 && 0 <= c.slabs[p].free < |c.slabs[p].freelist|
  {
    var s := SlabAlloc(c.slabs[p]);
    var d := c.(slabs := c.slabs[p := s]);
    if c.partial != [] then
      (if s.left == 0 then d.(partial := Without(c.partial, p), full := [p] + c.full) else d)
    else if s.left == 0 then d.(empty := Without(c.empty, p), full := [p] + c.full)
    else d.(empty := Without(c.empty, p), partial := [p] + c.partial)
  }

  lemma TakeSorted(c: Cache, p: nat)
    requires Sorted(c) && (if c.partial != [] then p == c.partial[0] else c.empty != [] && p == c.empty[0])
    requires p in c.slabs && c.slabs[p].left > 0 && 0 <= c.slabs[p].free < |c.slabs[p].freelist|
    ensures Sorted(TakeFrom(c, p))
  {
    hide MaxOf;
    assert p in c.partial || p in c.empty;
    WithoutElements(c.partial, p);
    WithoutElements(c.empty, p);
  }

  /** Allocation hands out an object that was not in use and leaves all others alone. */
  lemma TakeFromKeeps(c: Cache, p: nat)
    requires CacheOk(c)
    requires if c.partial != [] then p == c.partial[0] else c.empty != [] && p == c.empty[0]
    ensures p in c.slabs && c.slabs[p].left > 0 && 0 <= c.slabs[p].free < |c.slabs[p].freelist|
    ensures CacheOk(TakeFrom(c, p))
    ensures !Live(c, p, c.slabs[p].free) && c.slabs[p].free < MaxOf(c.size)
    ensures forall q, i :: Live(TakeFrom(c, p), q, i) <==> Live(c, q, i) || (q == p && i == c.slabs[p].free)
  {
    hide MaxOf, SlabOk, FreeOf, Sorted;
    FrontPage(c, p);
    SlabAllocKeeps(c.slabs[p], MaxOf(c.size));
    LeftBound(c.slabs[p], MaxOf(c.size));
    TakeSorted(c, p);
  }

  lemma FrontPage(c: Cache, p: nat)
    requires Sorted(c) && 0 < MaxOf(c.size) && SlabsOk(c)
    requires if c.partial != [] then p == c.partial[0] else c.empty != [] && p == c.empty[0]
    ensures p in c.slabs && c.slabs[p].left > 0 && |c.slabs[p].freelist| == MaxOf(c.size)
  {
    hide MaxOf;
    assert p in c.partial || p in c.empty;
  }

  /** `cache_free` of object `i` of page `p` */
  function GiveBack(c: Cache, p: nat, i: nat): Cache
    requires p in c.slabs && i < |c.slabs[p].freelist|
  {
    var s := c.slabs[p];
    var d := c.(slabs := c.slabs[p := SlabFree(s, i)]);
    if s.left + 1 == MaxOf(c.size) then
      d.(full := Without(c.full, p), partial := Without(c.partial, p), empty := [p] + c.empty)
    else if s.left == 0 then
      d.(full := Without(c.full, p), partial := [p] + c.partial)
    else d
  }

  lemma GiveBackSorted(c: Cache, p: nat, i: nat)
    requires Sorted(c) && p in c.slabs && i < |c.slabs[p].freelist| && c.slabs[p].left + 1 <= MaxOf(c.size)
    ensures Sorted(GiveBack(c, p, i))
  {
    hide MaxOf;
    WithoutElements(c.full, p);
    WithoutElements(c.partial, p);
  }

  /** Freeing an object in use leaves all others alone. */
  lemma GiveBackKeeps(c: Cache, p: nat, i: nat)
    requires CacheOk(c) && Live(c, p, i)
    ensures i < |c.slabs[p].freelist| && CacheOk(GiveBack(c, p, i))
    ensures forall q, j :: Live(GiveBack(c, p, i), q, j) <==> Live(c, q, j) && !(q == p && j == i)
  {
    hide MaxOf, SlabOk, FreeOf, Sorted;
    var s := c.slabs[p];
    SlabFreeKeeps(s, MaxOf(c.size), i);
    LeftBound(SlabFree(s, i), MaxOf(c.size));
    GiveBackSorted(c, p, i);
  }

  // ---------------------------------------------------------------------------------------------
  // The cache itself

  class ObjectCache {
    const size: nat
    const max: nat
    var slabs: map<nat, Slab>
    var full: seq<nat>
    var partial: seq<nat>
    var empty: seq<nat>

    ghost function View(): Cache
      reads this
    {
      Cache(size, slabs, full, partial, empty)
    }

    ghost predicate Valid()
      reads this
    {
      max == MaxOf(size) && CacheOk(View())
    }

    /** `cache_create`; an object must be small enough for a page to hold one. */
    constructor (size: nat)
      requires 0 < size && 0 < MaxOf(size)
      ensures Valid() && this.size == size && forall p, i :: !Live(View(), p, i)
    {
      this.size, max := size, (PAGE_SIZE - HEADER) / (size + ENTRY);
      slabs, full, partial, empty := map[], [], [], [];
    }

    /** `cache_alloc_page` with the page number obtained from the page allocator. */
    method AllocPage(page: nat)
      requires Valid() && page !in slabs
      modifies `slabs, `empty
      ensures Valid() && View() == AddPage(old(View()), page)
    {
      hide CacheOk, MaxOf;
      MaxPositive(View());
      AddPageKeeps(View(), page);
      empty := [page] + empty;
      assert max != 0;
      var freelist := new int[max];
      for i := 0 to max
        invariant forall k :: 0 <= k < i ==> freelist[k] == k + 1
        modifies freelist
      {
        freelist[i] := i + 1;
      }
      freelist[max - 1] := FREELIST_END;
      assert freelist[..] == Fresh(max);
      slabs := slabs[page := Slab(max, 0, freelist[..])];
    }

    /** `cache_do_alloc` */
    method DoAlloc(p: nat)
      requires p in slabs && slabs[p].left > 0 && 0 <= slabs[p].free < |slabs[p].freelist| < FREELIST_END
      modifies `slabs
      ensures slabs == old(slabs)[p := SlabAlloc(old(slabs)[p])]
    {
      var s := slabs[p];
      assert s.free != FREELIST_END;
      slabs := slabs[p := Slab(s.left - 1, s.freelist[s.free], s.freelist)];
    }

    /** `cache_alloc`; `page` is what the page allocator returns if a new page is needed. */
    method Alloc(page: nat) returns (mem: nat)
      requires Valid() && page !in slabs
      modifies `slabs, `full, `partial, `empty
      ensures Valid()
      ensures exists p, i :: mem == Addr(size, p, i) && !Live(old(View()), p, i) &&
                forall q, j :: Live(View(), q, j) <==> Live(old(View()), q, j) || (q == p && j == i)
    {
      hide CacheOk, MaxOf, Live;
      if partial == [] && empty == [] {
        AddPageKeeps(View(), page);
        AllocPage(page);
      }
      ghost var c := View();
      var p: nat;
      if partial != [] {
        p := partial[0];
        TakeFromKeeps(c, p);
        SmallPage(c, p);
        mem := Addr(size, p, slabs[p].free);
        DoAlloc(p);
        if slabs[p].left == 0 {
          partial := Without(partial, p);
          full := [p] + full;
        }
      } else {
        p := empty[0];
        TakeFromKeeps(c, p);
        SmallPage(c, p);
        mem := Addr(size, p, slabs[p].free);
        DoAlloc(p);
        empty := Without(empty, p);
        if slabs[p].left == 0 {
          full := [p] + full;
        } else {
          partial := [p] + partial;
        }
      }
      assert View() == TakeFrom(c, p);
    }

    /** `cache_free` of an object that is in use, from its address alone. */
    method Free(mem: nat, ghost p: nat, ghost i: nat)
      requires Valid() && Live(View(), p, i) && mem == Addr(size, p, i)
      modifies `slabs, `full, `partial, `empty
      ensures Valid()
      ensures forall q, j :: Live(View(), q, j) <==> Live(old(View()), q, j) && !(q == p && j == i)
    {
      hide CacheOk, MaxOf, Live;
      ghost var c := View();
      LiveObject(c, p, i);
      AddrInverse(size, p, i);
      GiveBackKeeps(c, p, i);
      var target := PageOf(mem);
      var s := slabs[target];
      if s.left + 1 == max {
        full, partial := Without(full, target), Without(partial, target);
        empty := [target] + empty;
      } else if s.left == 0 {
        full := Without(full, target);
        partial := [target] + partial;
      }
      DoFree(target, IndexOf(size, mem));
      assert View() == GiveBack(c, p, i);
    }

    /** `cache_do_free` */
    method DoFree(p: nat, i: nat)
      requires p in slabs && i < |slabs[p].freelist|
      modifies `slabs
      ensures slabs == old(slabs)[p := SlabFree(old(slabs)[p], i)]
    {
      var s := slabs[p];
      slabs := slabs[p := Slab(s.left + 1, i, s.freelist[i := s.free])];
    }
  }

  lemma LiveObject(c: Cache, p: nat, i: nat)
    requires Live(c, p, i) && CacheOk(c)
    ensures p in c.slabs && i < MaxOf(c.size) && c.size > 0
  {
  }

  lemma MaxPositive(c: Cache)
    requires CacheOk(c)
    ensures MaxOf(c.size) > 0
  {
  }

  lemma SmallPage(c: Cache, p: nat)
    requires CacheOk(c) && p in c.slabs
    ensures |c.slabs[p].freelist| < FREELIST_END
  {
  }

  // ---------------------------------------------------------------------------------------------
  // Runs

  datatype Op = AllocOp(page: nat) | FreeOp(p: nat, i: nat)

  ghost function Front(c: Cache): nat
    requires c.partial != [] || c.empty != []
  {
    if c.partial != [] then c.partial[0] else c.empty[0]
  }

  ghost function WithRoom(c: Cache, page: nat): Cache {
    if c.partial == [] && c.empty == [] then AddPage(c, page) else c
  }

  ghost predicate Allowed(c: Cache, op: Op) {
    match op
    case AllocOp(page) => page !in c.slabs
    case FreeOp(p, i) => Live(c, p, i)
  }

  ghost function Step(c: Cache, op: Op): Cache
    requires CacheOk(c) && Allowed(c, op)
  {
    match op
    case AllocOp(page) =>
      AddPageKeeps(c, page);
      var d := WithRoom(c, page);
      TakeFromKeeps(d, Front(d));
      TakeFrom(d, Front(d))
    case FreeOp(p, i) =>
      GiveBackKeeps(c, p, i);
      GiveBack(c, p, i)
  }

  lemma StepKeeps(c: Cache, op: Op)
    requires CacheOk(c) && Allowed(c, op)
    ensures CacheOk(Step(c, op)) && Step(c, op).size == c.size
  {
    hide CacheOk;
    match op
    case AllocOp(page) =>
      AddPageKeeps(c, page);
      var d := WithRoom(c, page);
      TakeFromKeeps(d, Front(d));
    case FreeOp(p, i) =>
      GiveBackKeeps(c, p, i);
  }

  ghost function Run(c: Cache, ops: seq<Op>): Cache
    requires CacheOk(c)
    decreases |ops|
  {
    hide CacheOk, Step;
    if ops == [] then c
    else if Allowed(c, ops[0]) then StepKeeps(c, ops[0]); Run(Step(c, ops[0]), ops[1..])
    else Run(c, ops[1..])
  }

  /** After every run of valid allocations and frees the lists are in order, `left` counts the free list
      of each page, and any two objects in use lie apart, each behind the free list of its page and inside it. */
  lemma {:induction false} EveryRun(c: Cache, ops: seq<Op>)
    requires CacheOk(c)
    ensures CacheOk(Run(c, ops)) && Run(c, ops).size == c.size
    ensures forall p, i, q, j :: Live(Run(c, ops), p, i) && Live(Run(c, ops), q, j) && (p < q || (p == q && i < j)) ==>
              Addr(c.size, p, i) + c.size <= Addr(c.size, q, j)
    ensures forall p, i :: Live(Run(c, ops), p, i) ==> InsidePage(c.size, p, i)
    decreases |ops|
  {
    hide CacheOk, Step, Addr, MaxOf, InsidePage;
    if ops == [] {
      forall p, i | Live(c, p, i)
        ensures InsidePage(c.size, p, i)
      {
        ObjectInPage(c.size, p, i);
      }
      forall p, i, q, j | Live(c, p, i) && Live(c, q, j) && (p < q || (p == q && i < j))
        ensures Addr(c.size, p, i) + c.size <= Addr(c.size, q, j)
      {
        ObjectsDisjoint(c.size, p, i, q, j);
      }
    } else if Allowed(c, ops[0]) {
      StepKeeps(c, ops[0]);
      EveryRun(Step(c, ops[0]), ops[1..]);
    } else {
      EveryRun(c, ops[1..]);
    }
  }
}
