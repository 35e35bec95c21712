/**
 Two-level page tables.  A directory of 1024 entries names the frames of its page tables; a page
 table holds 1024 entries that name the mapped frames.  A zero frame in the directory means that
 there is no table.  `EntryAt` reads the pair as one flat map from page numbers to entries.
 */
module PageTables {
  import opened Common
  import opened Seqs

  const NUM_ENTRIES: nat := 1024
  const NUM_PAGES: nat := 1024 * 1024
  const USER_TABLES: nat := 768           // NUM_ENTRIES - KERNEL_NUM_TABLES
  const USER_PAGES: nat := 768 * 1024

  type Bytes = seq<bv8>

  datatype Entry = Entry(frame: nat, flags: nat)

  const ABSENT := Entry(0, 0)
  const USER_FLAGS: nat := 7              // PRESENT | WRITABLE | USER

  predicate Present(e: Entry) { e.flags % 2 == 1 }

  type Table = seq<Entry>

  function ZeroTable(): (t: Table)
    ensures |t| == NUM_ENTRIES && forall j :: 0 <= j < NUM_ENTRIES ==> t[j] == ABSENT
  {
    seq(NUM_ENTRIES, _ => ABSENT)
  }

  /** The memory behind all address spaces: page tables by frame, the contents of mapped frames, and
      the frames that the page allocator has left, in the order it hands them out. */
  datatype Memory = Memory(tables: map<nat, Table>, data: map<nat, Bytes>, pool: seq<nat>)

  // ---------------------------------------------------------------------------------------------
  // Index arithmetic: addr_to_diridx and addr_to_tabidx of page number `v`

  function DirIdx(v: nat): nat { v / NUM_ENTRIES }

  function TabIdx(v: nat): (j: nat)
    ensures j < NUM_ENTRIES
  {
    v % NUM_ENTRIES
  }

  lemma Indices(i: nat, j: nat)
    requires j < NUM_ENTRIES
    ensures DirIdx(i * NUM_ENTRIES + j) == i && TabIdx(i * NUM_ENTRIES + j) == j
  {
  }

  lemma IndicesApart(v: nat, w: nat)
    ensures DirIdx(v) == DirIdx(w) && TabIdx(v) == TabIdx(w) ==> v == w
    ensures v < NUM_PAGES ==> DirIdx(v) < NUM_ENTRIES
    ensures v < USER_PAGES <==> DirIdx(v) < USER_TABLES
  {
  }

  // ---------------------------------------------------------------------------------------------
  // Address spaces

  /** Every table the directory names exists, and no two directory entries share one. */
  ghost predicate SpaceOk(m: Memory, dir: Table) {
    && |dir| == NUM_ENTRIES
    && (forall i :: 0 <= i < NUM_ENTRIES && dir[i].frame != 0 ==>
          dir[i].frame in m.tables && |m.tables[dir[i].frame]| == NUM_ENTRIES)
    && (forall i, j :: 0 <= i < j < NUM_ENTRIES && dir[i].frame != 0 ==> dir[i].frame != dir[j].frame)
  }

  /** The frames left in the allocator are distinct and hold nothing. Frame zero may be among them. */
  ghost predicate PoolOk(m: Memory) {
    && Distinct(m.pool)
    && (forall f :: f in m.pool ==> f !in m.tables && f !in m.data)
  }

  /** There is a table for directory index `i`, or a frame to make one, and that is not frame zero. */
  predicate TableReady(m: Memory, dir: Table, i: nat)
    requires i < |dir|
  {
    dir[i].frame != 0 || (m.pool != [] && m.pool[0] != 0)
  }

  /** Two address spaces have no page table for user addresses in common. */
  ghost predicate Apart(d: Table, e: Table) {
    && |d| == |e| == NUM_ENTRIES
    && forall i, j :: 0 <= i < USER_TABLES && 0 <= j < NUM_ENTRIES && d[i].frame != 0 ==> d[i].frame != e[j].frame
  }

  /** The entry of page `v`, `ABSENT` when there is no table. */
  function EntryAt(m: Memory, dir: Table, v: nat): Entry
    requires v < NUM_PAGES && |dir| == NUM_ENTRIES
  {
    IndicesApart(v, v);
    var t := dir[DirIdx(v)].frame;
    if t != 0 && t in m.tables && |m.tables[t]| == NUM_ENTRIES then m.tables[t][TabIdx(v)] else ABSENT
  }

  datatype Mapped = Mapped(m: Memory, dir: Table)

  /** `do_user_map_page`: allocates a zeroed table first if there is none. */
  function MapPage(m: Memory, dir: Table, i: nat, j: nat, frame: nat): Mapped
    requires i < |dir| && j < NUM_ENTRIES
    requires if dir[i].frame == 0 then m.pool != []
             else dir[i].frame in m.tables && |m.tables[dir[i].frame]| == NUM_ENTRIES
  {
    if dir[i].frame == 0 then
      var t := m.pool[0];
      Mapped(m.(tables := m.tables[t := ZeroTable()[j := Entry(frame, USER_FLAGS)]], pool := m.pool[1..]),
             dir[i := Entry(t, USER_FLAGS)])
    else
      var t := dir[i].frame;
      Mapped(m.(tables := m.tables[t := m.tables[t][j := Entry(frame, USER_FLAGS)]]), dir)
  }

  /** Mapping a page changes the entry of that page and no other. */
  lemma MapPageSets(m: Memory, dir: Table, v: nat, frame: nat, w: nat)
    requires SpaceOk(m, dir) && PoolOk(m) && v < NUM_PAGES && w < NUM_PAGES
    requires DirIdx(v) < NUM_ENTRIES && TableReady(m, dir, DirIdx(v))
    ensures var r := MapPage(m, dir, DirIdx(v), TabIdx(v), frame);
            && SpaceOk(r.m, r.dir)
            && EntryAt(r.m, r.dir, w) == if w == v then Entry(frame, USER_FLAGS) else EntryAt(m, dir, w)
  {
    hide DirIdx, TabIdx;
    IndicesApart(v, w);
    IndicesApart(w, w);
    if dir[DirIdx(v)].frame == 0 {
      assert m.pool[0] in m.pool;
    }
  }

  /** A new table in frame zero: no entry changes, so the page that was to be mapped stays absent. */
  lemma MapPageLost(m: Memory, dir: Table, v: nat, frame: nat, w: nat)
    requires SpaceOk(m, dir) && v < NUM_PAGES && w < NUM_PAGES && DirIdx(v) < NUM_ENTRIES
    requires dir[DirIdx(v)].frame == 0 && m.pool != [] && m.pool[0] == 0
    ensures var r := MapPage(m, dir, DirIdx(v), TabIdx(v), frame);
            && |r.dir| == NUM_ENTRIES && EntryAt(r.m, r.dir, w) == EntryAt(m, dir, w)
            && EntryAt(m, dir, v) == ABSENT
  {
    hide DirIdx, TabIdx;
    IndicesApart(w, w);
  }

  lemma MapPagePool(m: Memory, dir: Table, i: nat, j: nat, frame: nat)
    requires SpaceOk(m, dir) && PoolOk(m) && i < NUM_ENTRIES && j < NUM_ENTRIES
    requires dir[i].frame == 0 ==> m.pool != []
    ensures var r := MapPage(m, dir, i, j, frame);
            PoolOk(r.m) && SpaceOk(r.m, r.dir)
  {
    if dir[i].frame == 0 {
      assert m.pool[0] in m.pool;
    }
    if dir[i].frame == 0 {
      Tail(m.pool);
    }
  }

  /** Mapping a user page of one address space leaves the entries of another alone. */
  lemma MapPageApart(m: Memory, dir: Table, i: nat, j: nat, frame: nat, other: Table, w: nat)
    requires SpaceOk(m, dir) && SpaceOk(m, other) && PoolOk(m) && Apart(dir, other)
    requires i < USER_TABLES && j < NUM_ENTRIES && w < NUM_PAGES && (dir[i].frame == 0 ==> m.pool != [])
    ensures var r := MapPage(m, dir, i, j, frame);
            SpaceOk(r.m, other) && Apart(r.dir, other) && EntryAt(r.m, other, w) == EntryAt(m, other, w)
  {
    hide DirIdx, TabIdx;
    IndicesApart(w, w);
    if dir[i].frame == 0 {
      assert m.pool[0] in m.pool;
    }
  }

  /** `t` is a table for user addresses of this directory. */
  ghost predicate UserTable(dir: Table, t: nat)
    requires |dir| == NUM_ENTRIES
  {
    exists i :: 0 <= i < USER_TABLES && dir[i].frame == t
  }

  /** Between two moments only the address space with directory `d0`, now `d`, has changed: all tables but its
      own for user addresses are as they were, new tables and new contents are in frames the allocator had, and
      no contents have changed. */
  ghost predicate OnlyOne(m0: Memory, d0: Table, m: Memory, d: Table) {
    && |d0| == |d| == NUM_ENTRIES
    && (forall t :: t in m0.tables && !UserTable(d0, t) ==> t in m.tables && m.tables[t] == m0.tables[t])
    && (forall i :: 0 <= i < NUM_ENTRIES ==>
          d[i] == d0[i] || (i < USER_TABLES && d0[i].frame == 0 && d[i].frame in m0.pool && d[i].frame !in m.pool))
    && (forall f :: f in m.pool ==> f in m0.pool)
    && (forall f :: f in m0.data ==> f in m.data && m.data[f] == m0.data[f])
    && (forall f :: f in m.data && f !in m0.data ==> f in m0.pool && f !in m.pool)
  }

  lemma OnlyOneStart(m: Memory, d: Table)
    requires |d| == NUM_ENTRIES
    ensures OnlyOne(m, d, m, d)
  {
  }

  /** Mapping a page changes one address space. */
  lemma MapOnlyOne(m0: Memory, d0: Table, m: Memory, d: Table, i: nat, j: nat, frame: nat)
    requires PoolOk(m0) && PoolOk(m) && SpaceOk(m, d) && OnlyOne(m0, d0, m, d)
    requires i < USER_TABLES && j < NUM_ENTRIES && (d[i].frame == 0 ==> m.pool != [])
    ensures var r := MapPage(m, d, i, j, frame); OnlyOne(m0, d0, r.m, r.dir)
  {
    var r := MapPage(m, d, i, j, frame);
    if d[i].frame == 0 {
      Tail(m.pool);
      assert m.pool[0] in m.pool && m.pool[0] in m0.pool;
    } else {
      assert d[i] == d0[i] ==> UserTable(d0, d[i].frame);
    }
  }

  /** So does filling a frame. */
  lemma FillOnlyOne(m0: Memory, d0: Table, m: Memory, d: Table, bytes: Bytes)
    requires PoolOk(m0) && PoolOk(m) && OnlyOne(m0, d0, m, d) && m.pool != []
    ensures OnlyOne(m0, d0, m.(data := m.data[m.pool[0] := bytes], pool := m.pool[1..]), d)
  {
    Tail(m.pool);
    assert m.pool[0] in m.pool && m.pool[0] in m0.pool;
  }

  // ---------------------------------------------------------------------------------------------
  // copy_mem

  /** Every user page that is present has its frame in memory. */
  ghost predicate Backed(m: Memory, dir: Table) {
    |dir| == NUM_ENTRIES &&
    forall v :: 0 <= v < USER_PAGES && Present(EntryAt(m, dir, v)) ==> EntryAt(m, dir, v).frame in m.data
  }

  /** Page `v` of the child is a copy of the parent's: same bytes, in a frame that was free before. */
  ghost predicate CopyOf(m0: Memory, from: Table, m: Memory, to: Table, v: nat)
    requires v < USER_PAGES && |from| == |to| == NUM_ENTRIES
  {
    var e := EntryAt(m, to, v);
    && e.flags == USER_FLAGS
    && e.frame in m0.pool && e.frame !in m.pool && e.frame in m.data
    && EntryAt(m0, from, v).frame in m0.data
    && m.data[e.frame] == m0.data[EntryAt(m0, from, v).frame]
  }

  /** The present pages below `n`, but for the lost one. */
  ghost predicate ToCopy(m0: Memory, from: Table, n: nat, lost: Option<nat>, v: nat)
    requires v < USER_PAGES && |from| == NUM_ENTRIES
  {
    v < n && Present(EntryAt(m0, from, v)) && lost != Some(v)
  }

  /** A page is lost exactly if frame zero was made a table: it is present in the parent and absent in the
      child. */
  ghost predicate LostOk(m0: Memory, from: Table, m: Memory, to: Table, n: nat, lost: Option<nat>)
    requires |from| == |to| == NUM_ENTRIES
  {
    && (lost.Some? <==> 0 in m.tables && 0 !in m0.tables)
    && (lost.Some? ==>
          && lost.value < n && lost.value < USER_PAGES && 0 in m0.pool && 0 !in m.pool
          && Present(EntryAt(m0, from, lost.value)) && EntryAt(m, to, lost.value) == ABSENT)
  }

  /** What has been copied after the pages below `n`: copies of the present pages but for the lost one, nothing
      else touched in the child, nothing at all in the parent, and no frame used twice. */
  ghost predicate Copied(m0: Memory, from: Table, to0: Table, m: Memory, to: Table, n: nat, lost: Option<nat>) {
    && |from| == |to| == |to0| == NUM_ENTRIES
    && LostOk(m0, from, m, to, n, lost)
    && (forall v {:trigger EntryAt(m, to, v)} :: 0 <= v < USER_PAGES && ToCopy(m0, from, n, lost, v) ==>
          CopyOf(m0, from, m, to, v))
    && (forall v {:trigger EntryAt(m, to, v)} :: 0 <= v < USER_PAGES && !ToCopy(m0, from, n, lost, v) ==>
          EntryAt(m, to, v) == EntryAt(m0, to0, v))
    && (forall v, w {:trigger EntryAt(m, to, v), EntryAt(m, to, w)} ::
          0 <= v < w < USER_PAGES && ToCopy(m0, from, n, lost, v) && ToCopy(m0, from, n, lost, w) ==>
            EntryAt(m, to, v).frame != EntryAt(m, to, w).frame)
    && (forall v {:trigger EntryAt(m, from, v)} :: 0 <= v < NUM_PAGES ==> EntryAt(m, from, v) == EntryAt(m0, from, v))
    && (forall f :: f in m0.data ==> f in m.data && m.data[f] == m0.data[f])
    && (forall f :: f in m.pool ==> f in m0.pool)
  }

  lemma LostPage(m0: Memory, from: Table, to0: Table, m: Memory, to: Table, n: nat, lost: Option<nat>)
    requires Copied(m0, from, to0, m, to, n, lost) && lost.Some?
    ensures lost.value < n && lost.value < USER_PAGES && |to| == NUM_ENTRIES && EntryAt(m, to, lost.value) == ABSENT
  {
  }

  ghost predicate SpacesOk(m: Memory, from: Table, to: Table) {
    SpaceOk(m, from) && SpaceOk(m, to) && PoolOk(m) && Apart(to, from)
  }

  /** Filling a frame from the pool. */
  function FillFrame(m: Memory, src: nat): Memory
    requires m.pool != [] && src in m.data
  {
    m.(data := m.data[m.pool[0] := m.data[src]], pool := m.pool[1..])
  }

  lemma FillKeeps(m: Memory, from: Table, to: Table, src: nat)
    requires SpacesOk(m, from, to) && m.pool != [] && src in m.data
    ensures SpacesOk(FillFrame(m, src), from, to)
    ensures forall v :: 0 <= v < NUM_PAGES ==>
              EntryAt(FillFrame(m, src), from, v) == EntryAt(m, from, v) &&
              EntryAt(FillFrame(m, src), to, v) == EntryAt(m, to, v)
  {
    hide DirIdx, TabIdx;
    Tail(m.pool);
    assert m.pool[0] in m.pool;
  }

  /** One round of the copy: a frame is filled with the contents of page `v` and mapped in the child. */
  ghost predicate Round(m0: Memory, from: Table, m: Memory, to: Table, v: nat, m1: Memory, r: Mapped) {
    && SpacesOk(m, from, to) && |from| == |to| == NUM_ENTRIES && v < USER_PAGES && Present(EntryAt(m0, from, v))
    && m.pool != [] && EntryAt(m0, from, v).frame in m0.data && EntryAt(m0, from, v).frame in m.data
    && m1 == FillFrame(m, EntryAt(m0, from, v).frame)
    && DirIdx(v) < NUM_ENTRIES && (to[DirIdx(v)].frame == 0 ==> m1.pool != [])
    && (to[DirIdx(v)].frame != 0 ==>
          to[DirIdx(v)].frame in m1.tables && |m1.tables[to[DirIdx(v)].frame]| == NUM_ENTRIES)
    && r == MapPage(m1, to, DirIdx(v), TabIdx(v), m.pool[0])
  }

  /** The page that is lost in this round, if any: the frame drawn for its table is zero. */
  ghost function LostIn(m1: Memory, to: Table, v: nat, lost: Option<nat>): Option<nat>
    requires DirIdx(v) < |to|
  {
    if TableReady(m1, to, DirIdx(v)) then lost else Some(v)
  }

  /** What a round does: the child gets the page, unless it is lost; everything else stays. */
  lemma RoundEntries(m0: Memory, from: Table, m: Memory, to: Table, v: nat, m1: Memory, r: Mapped, w: nat)
    requires Round(m0, from, m, to, v, m1, r) && w < NUM_PAGES
    ensures |r.dir| == NUM_ENTRIES
    ensures EntryAt(r.m, from, w) == EntryAt(m, from, w)
    ensures EntryAt(r.m, r.dir, w) ==
            if w == v && TableReady(m1, to, DirIdx(v)) then Entry(m.pool[0], USER_FLAGS) else EntryAt(m, to, w)
    ensures !TableReady(m1, to, DirIdx(v)) ==> EntryAt(m, to, v) == ABSENT
  {
    hide DirIdx, TabIdx, SpaceOk, Apart, EntryAt, PoolOk;
    FillKeeps(m, from, to, EntryAt(m0, from, v).frame);
    IndicesApart(v, v);
    MapPageApart(m1, to, DirIdx(v), TabIdx(v), m.pool[0], from, w);
    if TableReady(m1, to, DirIdx(v)) {
      MapPageSets(m1, to, v, m.pool[0], w);
    } else {
      MapPageLost(m1, to, v, m.pool[0], w);
    }
  }

  /** And to the allocator and the contents of frames. */
  lemma RoundFrames(m0: Memory, from: Table, m: Memory, to: Table, v: nat, m1: Memory, r: Mapped)
    requires Round(m0, from, m, to, v, m1, r)
    ensures r.m.data == m.data[m.pool[0] := m.data[EntryAt(m0, from, v).frame]]
    ensures m.pool[0] !in m.data && forall f :: f in r.m.pool ==> f in m.pool && f != m.pool[0]
    ensures TableReady(m1, to, DirIdx(v)) ==> (0 in r.m.tables <==> 0 in m.tables)
    ensures !TableReady(m1, to, DirIdx(v)) ==> 0 in r.m.tables && 0 in m.pool && 0 !in r.m.pool && 0 !in m.tables
  {
    hide DirIdx, TabIdx, SpaceOk, Apart, EntryAt;
    Tail(m.pool);
    assert m.pool[0] in m.pool;
    if to[DirIdx(v)].frame == 0 {
      Tail(m1.pool);
      assert m1.pool[0] in m1.pool && m1.pool[0] in m.pool;
    }
  }

  /** Copying one present page carries the copy from `v` to `v + 1`. */
  lemma CopyPresent(
    m0: Memory, from: Table, to0: Table, m: Memory, to: Table, v: nat, m1: Memory, r: Mapped, lost: Option<nat>)
    requires PoolOk(m0) && Copied(m0, from, to0, m, to, v, lost) && Round(m0, from, m, to, v, m1, r)
    ensures Copied(m0, from, to0, r.m, r.dir, v + 1, LostIn(m1, to, v, lost))
  {
    hide DirIdx, TabIdx, EntryAt, SpacesOk, Round, Copied;
    RoundFrames(m0, from, m, to, v, m1, r);
    RoundSizes(m0, from, m, to, v, m1, r);
    forall w: nat | w < NUM_PAGES
      ensures EntryAt(r.m, from, w) == EntryAt(m, from, w)
      ensures EntryAt(r.m, r.dir, w) ==
              if w == v && TableReady(m1, to, DirIdx(v)) then Entry(m.pool[0], USER_FLAGS) else EntryAt(m, to, w)
    {
      RoundEntries(m0, from, m, to, v, m1, r, w);
    }
    if TableReady(m1, to, DirIdx(v)) {
      CopiedMore(m0, from, to0, m, to, v, m.pool[0], EntryAt(m0, from, v).frame, r, lost);
    } else {
      RoundEntries(m0, from, m, to, v, m1, r, v);
      CopiedLess(m0, from, to0, m, to, v, m.pool[0], EntryAt(m0, from, v).frame, r, lost);
    }
  }

  lemma RoundSizes(m0: Memory, from: Table, m: Memory, to: Table, v: nat, m1: Memory, r: Mapped)
    requires Round(m0, from, m, to, v, m1, r)
    ensures |r.dir| == |to| == |from| == NUM_ENTRIES && v < USER_PAGES && Present(EntryAt(m0, from, v)) && m.pool != []
    ensures EntryAt(m0, from, v).frame in m0.data && EntryAt(m0, from, v).frame in m.data && DirIdx(v) < |to|
  {
  }

  /** The page was mapped. */
  lemma CopiedMore(
    m0: Memory, from: Table, to0: Table, m: Memory, to: Table, v: nat, g: nat, src: nat, r: Mapped, lost: Option<nat>)
    requires Copied(m0, from, to0, m, to, v, lost) && v < USER_PAGES && Present(EntryAt(m0, from, v))
    requires m.pool != [] && g == m.pool[0] && g !in m.data && src == EntryAt(m0, from, v).frame
    requires src in m0.data && src in m.data
    requires |r.dir| == NUM_ENTRIES && r.m.data == m.data[g := m.data[src]]
    requires forall f :: f in r.m.pool ==> f in m.pool && f != g
    requires 0 in r.m.tables <==> 0 in m.tables
    requires forall w :: 0 <= w < NUM_PAGES ==>
               EntryAt(r.m, r.dir, w) == if w == v then Entry(g, USER_FLAGS) else EntryAt(m, to, w)
    requires forall w :: 0 <= w < NUM_PAGES ==> EntryAt(r.m, from, w) == EntryAt(m, from, w)
    ensures Copied(m0, from, to0, r.m, r.dir, v + 1, lost)
  {
    hide EntryAt;
    assert g in m.pool;
    if lost.Some? {
      LostPage(m0, from, to0, m, to, v, lost);
      assert EntryAt(r.m, r.dir, lost.value) == EntryAt(m, to, lost.value);
    }
    forall w | 0 <= w < USER_PAGES && ToCopy(m0, from, v + 1, lost, w)
      ensures CopyOf(m0, from, r.m, r.dir, w)
    {
      assert w != v ==> EntryAt(m, to, w) == EntryAt(r.m, r.dir, w) && CopyOf(m0, from, m, to, w);
    }
    forall u, w | 0 <= u < w < USER_PAGES && ToCopy(m0, from, v + 1, lost, u) && ToCopy(m0, from, v + 1, lost, w)
      ensures EntryAt(r.m, r.dir, u).frame != EntryAt(r.m, r.dir, w).frame
    {
      assert EntryAt(m, to, u) == EntryAt(r.m, r.dir, u) && CopyOf(m0, from, m, to, u);
      assert w != v ==> EntryAt(m, to, w) == EntryAt(r.m, r.dir, w);
    }
    forall w | 0 <= w < USER_PAGES && !ToCopy(m0, from, v + 1, lost, w)
      ensures EntryAt(r.m, r.dir, w) == EntryAt(m0, to0, w)
    {
      assert EntryAt(m, to, w) == EntryAt(r.m, r.dir, w);
    }
  }

  /** The page was lost; none was before, since frame zero is drawn once. */
  lemma CopiedLess(
    m0: Memory, from: Table, to0: Table, m: Memory, to: Table, v: nat, g: nat, src: nat, r: Mapped, lost: Option<nat>)
    requires PoolOk(m0) && Copied(m0, from, to0, m, to, v, lost) && v < USER_PAGES && Present(EntryAt(m0, from, v))
    requires m.pool != [] && g == m.pool[0] && g !in m.data && src == EntryAt(m0, from, v).frame && src in m.data
    requires |r.dir| == NUM_ENTRIES && r.m.data == m.data[g := m.data[src]]
    requires forall f :: f in r.m.pool ==> f in m.pool && f != g
    requires 0 in r.m.tables && 0 in m.pool && 0 !in r.m.pool && 0 !in m.tables && EntryAt(m, to, v) == ABSENT
    requires forall w :: 0 <= w < NUM_PAGES ==> EntryAt(r.m, r.dir, w) == EntryAt(m, to, w)
    requires forall w :: 0 <= w < NUM_PAGES ==> EntryAt(r.m, from, w) == EntryAt(m, from, w)
    ensures Copied(m0, from, to0, r.m, r.dir, v + 1, Some(v))
  {
    hide EntryAt;
    assert lost.None?;
    forall w | 0 <= w < USER_PAGES
      ensures ToCopy(m0, from, v + 1, Some(v), w) == ToCopy(m0, from, v, lost, w)
      ensures ToCopy(m0, from, v, lost, w) ==> CopyOf(m0, from, r.m, r.dir, w)
    {
      assert EntryAt(m, to, w) == EntryAt(r.m, r.dir, w);
    }
  }

  /** Pages that are not present are passed over. */
  lemma CopyAbsent(m0: Memory, from: Table, to0: Table, m: Memory, to: Table, v: nat, n: nat, lost: Option<nat>)
    requires Copied(m0, from, to0, m, to, v, lost) && v <= n <= USER_PAGES
    requires forall w :: v <= w < n ==> !Present(EntryAt(m0, from, w))
    ensures Copied(m0, from, to0, m, to, n, lost)
  {
    hide EntryAt;
    forall w: nat | w < USER_PAGES
      ensures ToCopy(m0, from, n, lost, w) == ToCopy(m0, from, v, lost, w)
      ensures if ToCopy(m0, from, n, lost, w) then CopyOf(m0, from, m, to, w)
              else EntryAt(m, to, w) == EntryAt(m0, to0, w)
    {
      assert w < n && Present(EntryAt(m0, from, w)) ==> w < v;
      var e := EntryAt(m, to, w);
    }
  }

  // ---------------------------------------------------------------------------------------------
  // The operations

  class AddressSpace {
    var dir: Table
  }

  class Mmu {
    var tables: map<nat, Table>
    var data: map<nat, Bytes>
    var pool: seq<nat>

    ghost function Mem(): Memory
      reads this
    {
      Memory(tables, data, pool)
    }

    /** `user_get_page`: the frame of page `v`, zero if it has none. */
    method UserGetPage(task: AddressSpace, v: nat) returns (frame: nat)
      requires SpaceOk(Mem(), task.dir) && v < NUM_PAGES
      ensures frame == EntryAt(Mem(), task.dir, v).frame
    {
      IndicesApart(v, v);
      var t := task.dir[DirIdx(v)].frame;
      if t == 0 {
        return 0;
      }
      return tables[t][TabIdx(v)].frame;
    }

    /** `do_user_map_page`; fails where the page allocator would panic. */
    method UserMapPage(task: AddressSpace, i: nat, j: nat, frame: nat) returns (ok: bool)
      requires SpaceOk(Mem(), task.dir) && i < NUM_ENTRIES && j < NUM_ENTRIES
      modifies `tables, `pool, task
      ensures ok <==> old(task.dir)[i].frame != 0 || old(pool) != []
      ensures ok ==> Mapped(Mem(), task.dir) == MapPage(old(Mem()), old(task.dir), i, j, frame)
      ensures !ok ==> Mem() == old(Mem()) && task.dir == old(task.dir)
    {
      var tab := task.dir[i].frame;
      if tab == 0 {
        if pool == [] {
          return false;
        }
        tab := pool[0];
        pool := pool[1..];
        tables := tables[tab := ZeroTable()];
        task.dir := task.dir[i := Entry(tab, USER_FLAGS)];
      }
      tables := tables[tab := tables[tab][j := Entry(frame, USER_FLAGS)]];
      return true;
    }

    /** `user_map_pages`: page `v + k` gets frame `frame + k`, for `k` below `num`, and no other page changes. One
        page may be lost, exactly if frame zero is made a table; it is absent then. */
    method UserMapPages(task: AddressSpace, v: nat, frame: nat, num: nat) returns (ok: bool, ghost lost: Option<nat>)
      requires SpaceOk(Mem(), task.dir) && PoolOk(Mem()) && v + num <= NUM_PAGES
      modifies `tables, `pool, task
      ensures SpaceOk(Mem(), task.dir) && PoolOk(Mem())
      ensures ok ==> MappedRange(old(Mem()), old(task.dir), Mem(), task.dir, v, frame, num, lost)
      ensures !ok ==> |old(pool)| < num && pool == []
    {
      hide DirIdx, TabIdx, EntryAt, SpaceOk, PoolOk, MappedRange, MapPage;
      ghost var m0, d0 := Mem(), task.dir;
      lost := None;
      MappedNone(m0, d0, v, frame);
      for k := 0 to num
        invariant SpaceOk(Mem(), task.dir) && PoolOk(Mem()) && |pool| >= |m0.pool| - k
        invariant MappedRange(m0, d0, Mem(), task.dir, v, frame, k, lost)
      {
        ghost var m, d := Mem(), task.dir;
        IndicesApart(v + k, v + k);
        SpaceSize(m, d);
        ok := UserMapPage(task, DirIdx(v + k), TabIdx(v + k), frame + k);
        if !ok {
          return;
        }
        MapPagePool(m, d, DirIdx(v + k), TabIdx(v + k), frame + k);
        MapPageFrames(m, d, DirIdx(v + k), TabIdx(v + k), frame + k);
        MappedOneMore(m0, d0, m, d, v, frame, k, lost);
        lost := LostIn(m, d, v + k, lost);
      }
      ok := true;
    }

    /** `copy_mem`, the copy made by fork; fails where the page allocator would panic. One page may be lost, exactly
        if frame zero is made a table of the child; the copy goes on after it. */
    method CopyMem(to: AddressSpace, from: AddressSpace) returns (ok: bool, ghost lost: Option<nat>)
      requires to != from && SpacesOk(Mem(), from.dir, to.dir) && Backed(Mem(), from.dir)
      modifies `tables, `data, `pool, to
      ensures SpacesOk(Mem(), from.dir, to.dir)
      ensures OnlyOne(old(Mem()), old(to.dir), Mem(), to.dir)
      ensures ok ==> Copied(old(Mem()), from.dir, old(to.dir), Mem(), to.dir, USER_PAGES, lost)
      ensures !ok ==> pool == []
    {
      hide DirIdx, TabIdx, EntryAt, SpacesOk, Copied, Backed, OnlyOne;
      ghost var m0, to0 := Mem(), to.dir;
      lost := None;
      SpacesSizes(m0, from.dir, to0);
      NothingCopied(m0, from.dir, to0);
      OnlyOneStart(m0, to0);
      for i := 0 to USER_TABLES
        invariant Copying(m0, from.dir, to0, Mem(), to.dir, i * NUM_ENTRIES, lost)
      {
        CopyingSizes(m0, from.dir, to0, Mem(), to.dir, i * NUM_ENTRIES, lost);
        if from.dir[i].frame != 0 {
          for j := 0 to NUM_ENTRIES
            invariant Copying(m0, from.dir, to0, Mem(), to.dir, i * NUM_ENTRIES + j, lost)
          {
            ok, lost := CopyOne(to, from, i, j, m0, to0, lost);
            if !ok {
              return;
            }
          }
        } else {
          NoTable(m0, from.dir, to0, Mem(), to.dir, i, lost);
        }
      }
      ok := true;
    }

    /** The inner round of `copy_mem`. */
    method CopyOne(to: AddressSpace, from: AddressSpace, i: nat, j: nat,
                   ghost m0: Memory, ghost to0: Table, ghost lost0: Option<nat>)
      returns (ok: bool, ghost lost: Option<nat>)
      requires to != from && i < USER_TABLES && j < NUM_ENTRIES && |from.dir| == NUM_ENTRIES && from.dir[i].frame != 0
      requires PoolOk(m0) && Backed(m0, from.dir)
      requires Copying(m0, from.dir, to0, Mem(), to.dir, i * NUM_ENTRIES + j, lost0)
      modifies `tables, `data, `pool, to
      ensures SpacesOk(Mem(), from.dir, to.dir) && OnlyOne(m0, to0, Mem(), to.dir)
      ensures ok ==> Copying(m0, from.dir, to0, Mem(), to.dir, i * NUM_ENTRIES + j + 1, lost)
      ensures !ok ==> pool == []
    {
      hide DirIdx, TabIdx, EntryAt, SpacesOk, Copied, Backed, OnlyOne, Round, PoolOk;
      ghost var v, m, d := i * NUM_ENTRIES + j, Mem(), to.dir;
      Indices(i, j);
      CopyingSizes(m0, from.dir, to0, m, d, v, lost0);
      ParentEntry(m0, from.dir, to0, m, d, v, v, lost0);
      var e := tables[from.dir[i].frame][j];
      lost := lost0;
      if !Present(e) {
        CopyAbsent(m0, from.dir, to0, m, d, v, v + 1, lost0);
        return true, lost;
      }
      if pool == [] {
        return false, lost;
      }
      var dst := pool[0];
      pool := pool[1..];
      data := data[dst := data[e.frame]];
      FillKeeps(m, from.dir, d, e.frame);
      FillOnlyOne(m0, to0, m, d, m.data[e.frame]);
      ghost var m1 := Mem();
      SpacesSizes(m1, from.dir, d);
      ok := UserMapPage(to, i, j, dst);
      if !ok {
        return;
      }
      MapOnlyOne(m0, to0, m1, d, i, j, dst);
      MappedSpaces(m1, from.dir, d, i, j, dst);
      ItsRound(m0, from.dir, m, d, v, m1, Mapped(Mem(), to.dir));
      CopyPresent(m0, from.dir, to0, m, d, v, m1, Mapped(Mem(), to.dir), lost0);
      lost := LostIn(m1, d, v, lost0);
    }
  }

  /** The pages `v` to `v + n` are mapped to frames from `frame` on, but for the lost one, and no other entry has
      changed. A page is lost exactly if frame zero was made a table, and it is absent. */
  ghost predicate MappedRange(
    m0: Memory, d0: Table, m: Memory, d: Table, v: nat, frame: nat, n: nat, lost: Option<nat>)
  {
    && |d0| == |d| == NUM_ENTRIES && v + n <= NUM_PAGES
    && (lost.Some? <==> 0 in m.tables && 0 !in m0.tables)
    && (lost.Some? ==> v <= lost.value < v + n && 0 in m0.pool && EntryAt(m, d, lost.value) == ABSENT)
    && (forall w {:trigger EntryAt(m, d, w)} :: 0 <= w < NUM_PAGES ==>
          EntryAt(m, d, w) ==
            if v <= w < v + n && lost != Some(w) then Entry(frame + w - v, USER_FLAGS) else EntryAt(m0, d0, w))
    && (forall f :: f in m.pool ==> f in m0.pool)
  }

  lemma MappedNone(m: Memory, d: Table, v: nat, frame: nat)
    requires SpaceOk(m, d) && v <= NUM_PAGES
    ensures MappedRange(m, d, m, d, v, frame, 0, None)
  {
  }

  lemma MappedOneMore(m0: Memory, d0: Table, m: Memory, d: Table, v: nat, frame: nat, k: nat, lost: Option<nat>)
    requires PoolOk(m0) && PoolOk(m) && SpaceOk(m, d) && v + k < NUM_PAGES && DirIdx(v + k) < |d|
    requires MappedRange(m0, d0, m, d, v, frame, k, lost) && (d[DirIdx(v + k)].frame == 0 ==> m.pool != [])
    ensures var r := MapPage(m, d, DirIdx(v + k), TabIdx(v + k), frame + k);
            MappedRange(m0, d0, r.m, r.dir, v, frame, k + 1, LostIn(m, d, v + k, lost))
  {
    hide DirIdx, TabIdx, EntryAt;
    var i, j := DirIdx(v + k), TabIdx(v + k);
    var r := MapPage(m, d, i, j, frame + k);
    MapPageFrames(m, d, i, j, frame + k);
    forall w: nat | w < NUM_PAGES
      ensures EntryAt(r.m, r.dir, w) ==
              if w == v + k && TableReady(m, d, i) then Entry(frame + k, USER_FLAGS) else EntryAt(m, d, w)
      ensures !TableReady(m, d, i) ==> EntryAt(m, d, v + k) == ABSENT
    {
      if TableReady(m, d, i) {
        MapPageSets(m, d, v + k, frame + k, w);
      } else {
        MapPageLost(m, d, v + k, frame + k, w);
      }
    }
  }

  /** The state of the copy before page `n`. */
  ghost predicate Copying(m0: Memory, from: Table, to0: Table, m: Memory, to: Table, n: nat, lost: Option<nat>) {
    SpacesOk(m, from, to) && OnlyOne(m0, to0, m, to) && Copied(m0, from, to0, m, to, n, lost)
  }

  lemma CopyingSizes(m0: Memory, from: Table, to0: Table, m: Memory, to: Table, n: nat, lost: Option<nat>)
    requires Copying(m0, from, to0, m, to, n, lost)
    ensures |from| == |to| == NUM_ENTRIES && SpaceOk(m, to) && PoolOk(m)
    ensures forall i :: 0 <= i < NUM_ENTRIES && from[i].frame != 0 ==>
              from[i].frame in m.tables && |m.tables[from[i].frame]| == NUM_ENTRIES
  {
  }

  lemma ItsRound(m0: Memory, from: Table, m: Memory, to: Table, v: nat, m1: Memory, r: Mapped)
    requires SpacesOk(m, from, to) && |from| == |to| == NUM_ENTRIES && v < USER_PAGES && Present(EntryAt(m0, from, v))
    requires m.pool != [] && EntryAt(m0, from, v).frame in m0.data && EntryAt(m0, from, v).frame in m.data
    requires m1 == FillFrame(m, EntryAt(m0, from, v).frame)
    requires DirIdx(v) < NUM_ENTRIES && (to[DirIdx(v)].frame == 0 ==> m1.pool != [])
    requires to[DirIdx(v)].frame != 0 ==>
               to[DirIdx(v)].frame in m1.tables && |m1.tables[to[DirIdx(v)].frame]| == NUM_ENTRIES
    requires r == MapPage(m1, to, DirIdx(v), TabIdx(v), m.pool[0])
    ensures Round(m0, from, m, to, v, m1, r)
  {
    hide DirIdx, TabIdx, EntryAt, SpacesOk;
  }

  /** What mapping a page does to the allocator, and when frame zero becomes a table. */
  lemma MapPageFrames(m: Memory, dir: Table, i: nat, j: nat, frame: nat)
    requires SpaceOk(m, dir) && PoolOk(m) && i < NUM_ENTRIES && j < NUM_ENTRIES && (dir[i].frame == 0 ==> m.pool != [])
    ensures var r := MapPage(m, dir, i, j, frame);
            && |r.m.pool| >= |m.pool| - 1 && (forall f :: f in r.m.pool ==> f in m.pool)
            && (TableReady(m, dir, i) ==> (0 in r.m.tables <==> 0 in m.tables))
            && (!TableReady(m, dir, i) ==> 0 in r.m.tables && 0 in m.pool)
  {
    if dir[i].frame == 0 {
      Tail(m.pool);
      assert m.pool[0] in m.pool;
    }
  }

  /** Mapping a user page keeps two address spaces in order. */
  lemma MappedSpaces(m: Memory, from: Table, to: Table, i: nat, j: nat, frame: nat)
    requires SpacesOk(m, from, to) && i < USER_TABLES && j < NUM_ENTRIES && (to[i].frame == 0 ==> m.pool != [])
    ensures var r := MapPage(m, to, i, j, frame); SpacesOk(r.m, from, r.dir)
  {
    hide DirIdx, TabIdx, SpaceOk, Apart, PoolOk;
    MapPagePool(m, to, i, j, frame);
    MapPageApart(m, to, i, j, frame, from, 0);
  }

  lemma SpaceSize(m: Memory, dir: Table)
    requires SpaceOk(m, dir)
    ensures |dir| == NUM_ENTRIES
  {
  }

  lemma SpacesSizes(m: Memory, from: Table, to: Table)
    requires SpacesOk(m, from, to)
    ensures |from| == |to| == NUM_ENTRIES && SpaceOk(m, to) && PoolOk(m)
    ensures forall i :: 0 <= i < NUM_ENTRIES && from[i].frame != 0 ==>
              from[i].frame in m.tables && |m.tables[from[i].frame]| == NUM_ENTRIES
    ensures forall i :: 0 <= i < NUM_ENTRIES && to[i].frame != 0 ==>
              to[i].frame in m.tables && |m.tables[to[i].frame]| == NUM_ENTRIES
  {
  }

  lemma NothingCopied(m: Memory, from: Table, to: Table)
    requires |from| == |to| == NUM_ENTRIES
    ensures Copied(m, from, to, m, to, 0, None)
  {
    hide EntryAt;
    assert forall v :: 0 <= v < USER_PAGES ==> !ToCopy(m, from, 0, None, v);
  }

  /** The parent's entry is still the one it had, and its frame still holds the parent's bytes. */
  lemma ParentEntry(m0: Memory, from: Table, to0: Table, m: Memory, to: Table, n: nat, v: nat, lost: Option<nat>)
    requires Copied(m0, from, to0, m, to, n, lost) && v < USER_PAGES && Backed(m0, from)
    ensures |from| == NUM_ENTRIES && DirIdx(v) < NUM_ENTRIES
    ensures EntryAt(m, from, v) == EntryAt(m0, from, v)
    ensures var t := from[DirIdx(v)].frame;
            t != 0 && t in m.tables && |m.tables[t]| == NUM_ENTRIES ==> EntryAt(m, from, v) == m.tables[t][TabIdx(v)]
    ensures Present(EntryAt(m0, from, v)) ==>
              EntryAt(m0, from, v).frame in m0.data && EntryAt(m0, from, v).frame in m.data
  {
    hide DirIdx, TabIdx;
    IndicesApart(v, v);
  }

  lemma NoTable(m0: Memory, from: Table, to0: Table, m: Memory, to: Table, i: nat, lost: Option<nat>)
    requires Copied(m0, from, to0, m, to, i * NUM_ENTRIES, lost) && i < USER_TABLES && from[i].frame == 0
    ensures Copied(m0, from, to0, m, to, (i + 1) * NUM_ENTRIES, lost)
  {
    forall w | i * NUM_ENTRIES <= w < (i + 1) * NUM_ENTRIES
      ensures !Present(EntryAt(m0, from, w))
    {
      Indices(i, w - i * NUM_ENTRIES);
    }
    CopyAbsent(m0, from, to0, m, to, i * NUM_ENTRIES, (i + 1) * NUM_ENTRIES, lost);
  }

  /** After fork every page of the parent but the lost one is in the child, with the same bytes, and no page of the
      child lives in a frame of the parent; the lost one is absent. */
  lemma ForkIsolates(
    m0: Memory, from: Table, to0: Table, m: Memory, to: Table, v: nat, w: nat, lost: Option<nat>)
    requires Copied(m0, from, to0, m, to, USER_PAGES, lost) && PoolOk(m0) && Backed(m0, from)
    requires v < USER_PAGES && w < USER_PAGES && Present(EntryAt(m, from, v)) && Present(EntryAt(m, from, w))
    ensures Present(EntryAt(m, to, v)) <==> lost != Some(v)
    ensures lost != Some(v) ==>
              && EntryAt(m, to, v).frame != EntryAt(m, from, w).frame
              && EntryAt(m, to, v).frame in m.data && EntryAt(m, from, v).frame in m.data
              && m.data[EntryAt(m, to, v).frame] == m.data[EntryAt(m, from, v).frame]
  {
    hide EntryAt;
    assert EntryAt(m, from, v) == EntryAt(m0, from, v) && EntryAt(m, from, w) == EntryAt(m0, from, w);
    if lost == Some(v) {
      LostPage(m0, from, to0, m, to, USER_PAGES, lost);
    } else {
      assert ToCopy(m0, from, USER_PAGES, lost, v);
      assert CopyOf(m0, from, m, to, v);
    }
  }

  /** A new page table must not lie in frame zero: then, and only then, the mapping is lost. */
  lemma MappedUnlessTableInFrameZero(m: Memory, dir: Table, v: nat, frame: nat)
    requires SpaceOk(m, dir) && v < NUM_PAGES && DirIdx(v) < NUM_ENTRIES
    requires dir[DirIdx(v)].frame == 0 ==> m.pool != []
    ensures var r := MapPage(m, dir, DirIdx(v), TabIdx(v), frame);
            EntryAt(r.m, r.dir, v) == Entry(frame, USER_FLAGS) <==> dir[DirIdx(v)].frame != 0 || m.pool[0] != 0
  {
    hide DirIdx, TabIdx;
    IndicesApart(v, v);
  }

  /** An allocator that hands out frame zero first: the page that was just mapped is not there. */
  lemma TableInFrameZero()
    ensures var m := Memory(map[], map[], [0]);
            && SpaceOk(m, ZeroTable()) && PoolOk(m)
            && var r := MapPage(m, ZeroTable(), 0, 0, 5);
               EntryAt(r.m, r.dir, 0) == ABSENT
  {
    var m := Memory(map[], map[], [0]);
    IndicesApart(0, 0);
    assert DirIdx(0) == 0;
  }

  // ---------------------------------------------------------------------------------------------
  // The kernel's own mappings

  const PAGE_SIZE: nat := 0x1000
  const VIRTUAL_BASE: nat := 0xC000_0000
  const KERNEL_NUM_TABLES: nat := 256
  const KERNEL_PAGES: nat := 256 * 1024

  class KernelSpace {
    var kptab: array2<Entry>
    var next: nat   // kernel_next_page

    ghost predicate Valid()
      reads this
    {
      kptab.Length0 == KERNEL_NUM_TABLES && kptab.Length1 == NUM_ENTRIES && next <= KERNEL_PAGES
    }

    constructor ()
      ensures Valid() && fresh(kptab) && next == 0
      ensures forall p :: 0 <= p < KERNEL_PAGES ==> EntryOf(p) == ABSENT
    {
      kptab := new Entry[KERNEL_NUM_TABLES, NUM_ENTRIES]((_, _) => ABSENT);
      next := 0;
    }

    /** The entry of the kernel page number `p`. */
    function EntryOf(p: nat): Entry
      requires Valid() && p < KERNEL_PAGES
      reads this, kptab
    {
      KernelIndices(p);
      kptab[DirIdx(p), TabIdx(p)]
    }

    /** `virt_to_phys` of an address in kernel space */
    function VirtToPhys(addr: nat): nat
      requires Valid() && VIRTUAL_BASE <= addr < VIRTUAL_BASE + KERNEL_PAGES * PAGE_SIZE
      reads this, kptab
    {
      AddressIndices(addr);
      kptab[DirIdx(addr / PAGE_SIZE) - DirIdx(VIRTUAL_BASE / PAGE_SIZE), TabIdx(addr / PAGE_SIZE)].frame * PAGE_SIZE
        + addr % PAGE_SIZE
    }

    /** `map_pages`: the next `num` kernel pages map consecutive frames from `phys` on. `virt_to_phys`
        undoes the mapping for every byte of it, and no earlier mapping changes. */
    method MapPages(phys: nat, num: nat) returns (virt: nat)
      requires Valid() && next + num <= KERNEL_PAGES
      modifies `next, kptab
      ensures Valid() && kptab == old(kptab) && next == old(next) + num
      ensures forall p :: 0 <= p < KERNEL_PAGES && !(old(next) <= p < next) ==> EntryOf(p) == old(EntryOf(p))
      ensures forall p :: old(next) <= p < next ==> EntryOf(p).frame == phys / PAGE_SIZE + (p - old(next))
      ensures virt == VIRTUAL_BASE + old(next) * PAGE_SIZE + phys % PAGE_SIZE
    {
      virt := next * PAGE_SIZE + VIRTUAL_BASE + phys % PAGE_SIZE;
      for i := 0 to num
        invariant Valid() && kptab == old(kptab) && next == old(next) + i
        invariant forall p :: 0 <= p < KERNEL_PAGES && !(old(next) <= p < next) ==> EntryOf(p) == old(EntryOf(p))
        invariant forall p :: old(next) <= p < next ==> EntryOf(p).frame == phys / PAGE_SIZE + (p - old(next))
      {
        MapOne(phys + PAGE_SIZE * i);
      }
    }

    /** `do_map_page` */
    method MapOne(phys: nat)
      requires Valid() && next < KERNEL_PAGES
      modifies `next, kptab
      ensures Valid() && kptab == old(kptab) && next == old(next) + 1
      ensures EntryOf(old(next)) == Entry(phys / PAGE_SIZE, 3)
      ensures forall p :: 0 <= p < KERNEL_PAGES && p != old(next) ==> EntryOf(p) == old(EntryOf(p))
    {
      var virt := next * PAGE_SIZE + VIRTUAL_BASE;
      ghost var n := next;
      AddressIndices(virt);
      KernelIndices(n);
      next := next + 1;
      var idx := DirIdx(virt / PAGE_SIZE) - DirIdx(VIRTUAL_BASE / PAGE_SIZE);
      kptab[idx, TabIdx(virt / PAGE_SIZE)] := Entry(phys / PAGE_SIZE, 3);
      forall p | 0 <= p < KERNEL_PAGES && p != n
        ensures DirIdx(p) != DirIdx(n) || TabIdx(p) != TabIdx(n)
      {
        IndicesApart(p, n);
      }
    }

    /** Every byte of a mapping is translated back to where it came from. */
    lemma MappingInverts(start: nat, phys: nat, num: nat, a: nat)
      requires Valid() && start + num <= KERNEL_PAGES
      requires forall p :: start <= p < start + num ==> EntryOf(p).frame == phys / PAGE_SIZE + (p - start)
      requires phys % PAGE_SIZE + a < num * PAGE_SIZE
      ensures VirtToPhys(VIRTUAL_BASE + start * PAGE_SIZE + phys % PAGE_SIZE + a) == phys + a
    {
      var k, off := (phys % PAGE_SIZE + a) / PAGE_SIZE, (phys % PAGE_SIZE + a) % PAGE_SIZE;
      var addr := VIRTUAL_BASE + (start + k) * PAGE_SIZE + off;
      AddressIndices(addr);
      assert (addr - VIRTUAL_BASE) / PAGE_SIZE == start + k && addr % PAGE_SIZE == off;
      assert VirtToPhys(addr) == EntryOf(start + k).frame * PAGE_SIZE + off;
      assert EntryOf(start + k).frame == phys / PAGE_SIZE + k;
    }
  }

  lemma KernelIndices(p: nat)
    requires p < KERNEL_PAGES
    ensures DirIdx(p) < KERNEL_NUM_TABLES
  {
  }

  /** Kernel addresses start at a directory boundary, so the table number is a difference of indices. */
  lemma AddressIndices(addr: nat)
    requires VIRTUAL_BASE <= addr < VIRTUAL_BASE + KERNEL_PAGES * PAGE_SIZE
    ensures var p := (addr - VIRTUAL_BASE) / PAGE_SIZE;
            && p < KERNEL_PAGES
            && DirIdx(addr / PAGE_SIZE) - DirIdx(VIRTUAL_BASE / PAGE_SIZE) == DirIdx(p) < KERNEL_NUM_TABLES
            && TabIdx(addr / PAGE_SIZE) == TabIdx(p)
  {
  }
}
