/**
 Many address spaces over one memory: made with nothing but the kernel's tables, given pages from the page
 allocator, and filled by fork with a copy of another. Steps are described by what the operations of the page
 tables are proved to do.
 */
module AddressSpaces {
  import opened Common
  import opened Seqs
  import opened PageTables

  /** `kernel` is the directory of a new address space. */
  datatype State = State(m: Memory, kernel: Table, dirs: seq<Table>)

  datatype Step =
    | NewSpace
    | GivePage(a: nat, v: nat, bytes: Bytes)
    | Fork(child: nat, parent: nat, lost: Option<nat>)

  /** A frame from the allocator is filled and mapped at the user page `v`. If frame zero is drawn for the table of
      the page, the mapping is lost. */
  ghost predicate Gives(s: State, a: nat, v: nat, bytes: Bytes, t: State) {
    && a < |s.dirs| && v < USER_PAGES && |s.dirs[a]| == NUM_ENTRIES && s.m.pool != []
    && (IndicesApart(v, v);
        var g, i := s.m.pool[0], DirIdx(v);
        var m1 := s.m.(data := s.m.data[g := bytes], pool := s.m.pool[1..]);
        && (s.dirs[a][i].frame == 0 ==> m1.pool != [])
        && (s.dirs[a][i].frame != 0 ==>
              s.dirs[a][i].frame in m1.tables && |m1.tables[s.dirs[a][i].frame]| == NUM_ENTRIES)
        && var r := MapPage(m1, s.dirs[a], i, TabIdx(v), g);
           t == s.(m := r.m, dirs := s.dirs[a := r.dir]))
  }

  /** What `copy_mem` is proved to do unless memory runs out; `lost` is the page it loses, if any. */
  ghost predicate Forks(s: State, a: nat, b: nat, lost: Option<nat>, t: State) {
    && a < |s.dirs| && b < |s.dirs| && a != b
    && |t.dirs| == |s.dirs| && t == s.(m := t.m, dirs := s.dirs[a := t.dirs[a]])
    && SpacesOk(t.m, s.dirs[b], t.dirs[a])
    && OnlyOne(s.m, s.dirs[a], t.m, t.dirs[a])
    && Copied(s.m, s.dirs[b], s.dirs[a], t.m, t.dirs[a], USER_PAGES, lost)
  }

  ghost predicate Next(s: State, step: Step, t: State) {
    match step
    case NewSpace => t == s.(dirs := s.dirs + [s.kernel])
    case GivePage(a, v, bytes) => Gives(s, a, v, bytes, t)
    case Fork(a, b, lost) => Forks(s, a, b, lost, t)
  }

  // ---------------------------------------------------------------------------------------------
  // The invariant

  ghost predicate Sized(s: State) {
    forall a :: 0 <= a < |s.dirs| ==> |s.dirs[a]| == NUM_ENTRIES
  }

  /** No frame is mapped at two user pages, of one address space or of two. */
  ghost predicate Private(s: State)
    requires Sized(s)
  {
    forall a, v, b, w {:trigger EntryAt(s.m, s.dirs[a], v), EntryAt(s.m, s.dirs[b], w)} ::
      0 <= a < |s.dirs| && 0 <= b < |s.dirs| && 0 <= v < USER_PAGES && 0 <= w < USER_PAGES
      && Present(EntryAt(s.m, s.dirs[a], v)) && Present(EntryAt(s.m, s.dirs[b], w))
      && EntryAt(s.m, s.dirs[a], v).frame == EntryAt(s.m, s.dirs[b], w).frame ==>
        a == b && v == w
  }

  ghost predicate DirOk(s: State, a: nat)
    requires a < |s.dirs|
  {
    && SpaceOk(s.m, s.dirs[a]) && Backed(s.m, s.dirs[a])
    && |s.kernel| == NUM_ENTRIES
    && forall j :: USER_TABLES <= j < NUM_ENTRIES ==> s.dirs[a][j] == s.kernel[j]
  }

  ghost predicate KernelOk(s: State) {
    && SpaceOk(s.m, s.kernel)
    && forall i :: 0 <= i < USER_TABLES ==> s.kernel[i] == ABSENT
  }

  ghost predicate Inv(s: State) {
    && PoolOk(s.m) && KernelOk(s) && Sized(s)
    && (forall a :: 0 <= a < |s.dirs| ==> DirOk(s, a))
    && (forall a, b :: 0 <= a < |s.dirs| && 0 <= b < |s.dirs| && a != b ==> Apart(s.dirs[a], s.dirs[b]))
    && Private(s)
  }

  // ---------------------------------------------------------------------------------------------
  // A step that changes one address space

  ghost predicate Changes(s: State, a: nat, t: State) {
    && a < |s.dirs| == |t.dirs| && t == s.(m := t.m, dirs := s.dirs[a := t.dirs[a]])
    && OnlyOne(s.m, s.dirs[a], t.m, t.dirs[a])
    && PoolOk(t.m) && SpaceOk(t.m, t.dirs[a])
  }

  /** The entries of a directory that shares no user table with the changed one stay. */
  lemma EntriesStay(m0: Memory, d0: Table, m: Memory, d: Table, other: Table)
    requires OnlyOne(m0, d0, m, d) && SpaceOk(m0, other) && |d0| == NUM_ENTRIES
    requires forall j :: 0 <= j < NUM_ENTRIES && other[j].frame != 0 ==> !UserTable(d0, other[j].frame)
    ensures SpaceOk(m, other)
    ensures forall w :: 0 <= w < NUM_PAGES ==> EntryAt(m, other, w) == EntryAt(m0, other, w)
  {
    hide DirIdx, TabIdx, UserTable;
    forall w: nat | w < NUM_PAGES
      ensures EntryAt(m, other, w) == EntryAt(m0, other, w)
    {
      IndicesApart(w, w);
    }
  }

  lemma SharesNone(d: Table, other: Table)
    requires Apart(d, other)
    ensures forall j :: 0 <= j < NUM_ENTRIES && other[j].frame != 0 ==> !UserTable(d, other[j].frame)
  {
  }

  /** The kernel's tables are not among the user tables of an address space. */
  lemma KernelSharesNone(s: State, a: nat)
    requires KernelOk(s) && a < |s.dirs| && DirOk(s, a)
    ensures forall j :: 0 <= j < NUM_ENTRIES && s.kernel[j].frame != 0 ==> !UserTable(s.dirs[a], s.kernel[j].frame)
  {
    hide EntryAt;
  }

  lemma ApartStays(m0: Memory, d0: Table, m: Memory, d: Table, other: Table)
    requires OnlyOne(m0, d0, m, d) && PoolOk(m0) && SpaceOk(m0, other)
    requires Apart(d0, other) && Apart(other, d0)
    ensures Apart(d, other) && Apart(other, d)
  {
    hide UserTable;
  }

  /** The pages of the changed address space are as they were, or in frames the allocator had, each in its own. */
  ghost predicate Refilled(m0: Memory, d0: Table, m: Memory, d: Table)
    requires |d0| == |d| == NUM_ENTRIES
  {
    && (forall v {:trigger EntryAt(m, d, v)} :: 0 <= v < USER_PAGES ==>
          || EntryAt(m, d, v) == EntryAt(m0, d0, v)
          || (EntryAt(m, d, v).frame in m0.pool && EntryAt(m, d, v).frame in m.data))
    && (forall v, w {:trigger EntryAt(m, d, v), EntryAt(m, d, w)} ::
          0 <= v < w < USER_PAGES && Present(EntryAt(m, d, v)) && Present(EntryAt(m, d, w))
          && EntryAt(m, d, v).frame in m0.pool && EntryAt(m, d, w).frame in m0.pool ==>
            EntryAt(m, d, v).frame != EntryAt(m, d, w).frame)
  }

  /** What the other address spaces and the kernel see of the step: nothing. */
  lemma OthersStay(s: State, a: nat, t: State, b: nat)
    requires Inv(s) && Changes(s, a, t) && b < |s.dirs| && b != a
    ensures SpaceOk(t.m, s.dirs[b]) && Backed(t.m, s.dirs[b])
    ensures Apart(t.dirs[a], s.dirs[b]) && Apart(s.dirs[b], t.dirs[a])
    ensures forall w :: 0 <= w < NUM_PAGES ==> EntryAt(t.m, s.dirs[b], w) == EntryAt(s.m, s.dirs[b], w)
  {
    hide EntryAt, Private, SpaceOk, UserTable, PoolOk;
    assert DirOk(s, b) && DirOk(s, a);
    assert Apart(s.dirs[a], s.dirs[b]) && Apart(s.dirs[b], s.dirs[a]);
    SharesNone(s.dirs[a], s.dirs[b]);
    EntriesStay(s.m, s.dirs[a], t.m, t.dirs[a], s.dirs[b]);
    ApartStays(s.m, s.dirs[a], t.m, t.dirs[a], s.dirs[b]);
  }

  lemma KernelStays(s: State, a: nat, t: State)
    requires Inv(s) && Changes(s, a, t)
    ensures KernelOk(t)
  {
    hide EntryAt, Private, UserTable, PoolOk;
    assert DirOk(s, a);
    KernelSharesNone(s, a);
    EntriesStay(s.m, s.dirs[a], t.m, t.dirs[a], s.kernel);
  }

  /** Where an entry of the changed state was before, if it is not in a frame the allocator had. */
  lemma OldOrNew(s: State, a: nat, t: State, b: nat, v: nat)
    requires Inv(s) && Changes(s, a, t) && Refilled(s.m, s.dirs[a], t.m, t.dirs[a])
    requires b < |t.dirs| && v < USER_PAGES && |t.dirs[b]| == NUM_ENTRIES
    requires Present(EntryAt(t.m, t.dirs[b], v))
    ensures EntryAt(t.m, t.dirs[b], v).frame in t.m.data
    ensures EntryAt(t.m, t.dirs[b], v).frame in s.m.pool ==> b == a
    ensures EntryAt(t.m, t.dirs[b], v).frame !in s.m.pool ==> EntryAt(t.m, t.dirs[b], v) == EntryAt(s.m, s.dirs[b], v)
  {
    hide EntryAt, Private, SpaceOk, UserTable;
    assert DirOk(s, b);
    if b != a {
      OthersStay(s, a, t, b);
    }
    assert EntryAt(t.m, t.dirs[b], v) == EntryAt(s.m, s.dirs[b], v) ==> EntryAt(t.m, t.dirs[b], v).frame in s.m.data;
  }

  lemma PrivateStays(s: State, a: nat, t: State)
    requires Inv(s) && Changes(s, a, t) && Refilled(s.m, s.dirs[a], t.m, t.dirs[a]) && Sized(t)
    ensures Private(t)
  {
    hide EntryAt, SpaceOk, UserTable, Changes, OnlyOne;
    forall b, v, c, w | 0 <= b < |t.dirs| && 0 <= c < |t.dirs| && 0 <= v < USER_PAGES && 0 <= w < USER_PAGES
        && Present(EntryAt(t.m, t.dirs[b], v)) && Present(EntryAt(t.m, t.dirs[c], w))
        && EntryAt(t.m, t.dirs[b], v).frame == EntryAt(t.m, t.dirs[c], w).frame
      ensures b == c && v == w
    {
      OldOrNew(s, a, t, b, v);
      OldOrNew(s, a, t, c, w);
      SameSize(s, a, t);
    }
  }

  lemma SameSize(s: State, a: nat, t: State)
    requires Changes(s, a, t)
    ensures |s.dirs| == |t.dirs|
  {
  }

  lemma ChangeKeeps(s: State, a: nat, t: State)
    requires Inv(s) && Changes(s, a, t) && Refilled(s.m, s.dirs[a], t.m, t.dirs[a])
    ensures Inv(t)
  {
    hide EntryAt, SpaceOk, UserTable, Private, Refilled;
    KernelStays(s, a, t);
    PrivateStays(s, a, t);
    forall b | 0 <= b < |t.dirs|
      ensures DirOk(t, b)
    {
      assert DirOk(s, b);
      if b != a {
        OthersStay(s, a, t, b);
      } else {
        OwnBacked(s, a, t);
      }
    }
    forall b, c | 0 <= b < |t.dirs| && 0 <= c < |t.dirs| && b != c
      ensures Apart(t.dirs[b], t.dirs[c])
    {
      if b == a {
        OthersStay(s, a, t, c);
      } else if c == a {
        OthersStay(s, a, t, b);
      } else {
        assert Apart(s.dirs[b], s.dirs[c]);
      }
    }
  }

  lemma OwnBacked(s: State, a: nat, t: State)
    requires Inv(s) && Changes(s, a, t) && Refilled(s.m, s.dirs[a], t.m, t.dirs[a])
    ensures Backed(t.m, t.dirs[a])
  {
    hide EntryAt, UserTable, Private, Refilled;
    forall v | 0 <= v < USER_PAGES && Present(EntryAt(t.m, t.dirs[a], v))
      ensures EntryAt(t.m, t.dirs[a], v).frame in t.m.data
    {
      OldOrNew(s, a, t, a, v);
    }
  }

  // ---------------------------------------------------------------------------------------------
  // The steps

  lemma GiveKeeps(s: State, a: nat, v: nat, bytes: Bytes, t: State)
    requires Inv(s) && Gives(s, a, v, bytes, t)
    ensures Inv(t)
  {
    hide EntryAt, Private, UserTable, DirIdx, TabIdx;
    IndicesApart(v, v);
    assert DirOk(s, a);
    var g, i, d := s.m.pool[0], DirIdx(v), s.dirs[a];
    var m1 := s.m.(data := s.m.data[g := bytes], pool := s.m.pool[1..]);
    Tail(s.m.pool);
    assert g in s.m.pool;
    OnlyOneStart(s.m, d);
    FillOnlyOne(s.m, d, s.m, d, bytes);
    MapOnlyOne(s.m, d, m1, d, i, TabIdx(v), g);
    MapPagePool(m1, d, i, TabIdx(v), g);
    GivenPage(s, a, v, m1, t);
    ChangeKeeps(s, a, t);
  }

  /** One page is new, in the frame that was given, or none. */
  lemma GivenPage(s: State, a: nat, v: nat, m1: Memory, t: State)
    requires Inv(s) && a < |s.dirs| == |t.dirs| && v < USER_PAGES && s.m.pool != [] && DirIdx(v) < NUM_ENTRIES
    requires var g := s.m.pool[0];
             && g in m1.data && m1 == s.m.(data := m1.data, pool := s.m.pool[1..])
             && PoolOk(m1) && SpaceOk(m1, s.dirs[a])
             && (s.dirs[a][DirIdx(v)].frame == 0 ==> m1.pool != [])
             && var r := MapPage(m1, s.dirs[a], DirIdx(v), TabIdx(v), g);
                t.m == r.m && t.dirs[a] == r.dir
    ensures |t.dirs[a]| == NUM_ENTRIES && Refilled(s.m, s.dirs[a], t.m, t.dirs[a])
  {
    hide EntryAt, Private, UserTable, DirIdx, TabIdx;
    var g, d := s.m.pool[0], s.dirs[a];
    var ready := TableReady(m1, d, DirIdx(v));
    assert g in s.m.pool && DirOk(s, a);
    forall w: nat | w < USER_PAGES
      ensures EntryAt(t.m, t.dirs[a], w) == if w == v && ready then Entry(g, USER_FLAGS) else EntryAt(s.m, d, w)
      ensures Present(EntryAt(s.m, d, w)) ==> EntryAt(s.m, d, w).frame !in s.m.pool
    {
      if ready {
        MapPageSets(m1, d, v, g, w);
      } else {
        MapPageLost(m1, d, v, g, w);
      }
      SameTables(s.m, m1, d, w);
    }
  }

  lemma SameTables(m: Memory, m1: Memory, d: Table, w: nat)
    requires m.tables == m1.tables && |d| == NUM_ENTRIES && w < NUM_PAGES
    ensures EntryAt(m, d, w) == EntryAt(m1, d, w)
  {
  }

  lemma ForkKeeps(s: State, a: nat, b: nat, lost: Option<nat>, t: State)
    requires Inv(s) && Forks(s, a, b, lost, t)
    ensures Inv(t)
  {
    hide EntryAt, Private, UserTable, Copied, OnlyOne, SpaceOk;
    ForkedPages(s, a, b, lost, t);
    ChangeKeeps(s, a, t);
  }

  /** The pages of the child are copies in frames the allocator had, or as they were. */
  lemma ForkedPages(s: State, a: nat, b: nat, lost: Option<nat>, t: State)
    requires Inv(s) && Forks(s, a, b, lost, t)
    ensures |s.dirs[a]| == |t.dirs[a]| == NUM_ENTRIES && Refilled(s.m, s.dirs[a], t.m, t.dirs[a])
  {
    hide EntryAt, Private, UserTable, OnlyOne, SpaceOk;
    assert DirOk(s, a);
    forall v | 0 <= v < USER_PAGES && !ToCopy(s.m, s.dirs[b], USER_PAGES, lost, v)
      ensures Present(EntryAt(t.m, t.dirs[a], v)) ==> EntryAt(t.m, t.dirs[a], v).frame !in s.m.pool
    {
      assert EntryAt(t.m, t.dirs[a], v) == EntryAt(s.m, s.dirs[a], v);
    }
  }

  lemma NewKeeps(s: State)
    requires Inv(s)
    ensures Inv(s.(dirs := s.dirs + [s.kernel]))
  {
    hide UserTable, PoolOk;
    var t := s.(dirs := s.dirs + [s.kernel]);
    var n := |s.dirs|;
    NothingMapped(s.m, s.kernel);
    forall a | 0 <= a < |t.dirs|
      ensures DirOk(t, a)
    {
      assert a < n ==> DirOk(s, a);
    }
    forall a, b | 0 <= a < |t.dirs| && 0 <= b < |t.dirs| && a != b
      ensures Apart(t.dirs[a], t.dirs[b])
    {
      if a < n && b < n {
        assert Apart(s.dirs[a], s.dirs[b]);
      } else if a < n {
        assert DirOk(s, a);
      }
    }
  }

  /** A new address space has no user page. */
  lemma NothingMapped(m: Memory, kernel: Table)
    requires |kernel| == NUM_ENTRIES && forall i :: 0 <= i < USER_TABLES ==> kernel[i] == ABSENT
    ensures forall v :: 0 <= v < USER_PAGES ==> EntryAt(m, kernel, v) == ABSENT
  {
    hide TabIdx;
    forall v | 0 <= v < USER_PAGES
      ensures EntryAt(m, kernel, v) == ABSENT
    {
      IndicesApart(v, v);
    }
  }

  lemma NextKeeps(s: State, step: Step, t: State)
    requires Inv(s) && Next(s, step, t)
    ensures Inv(t)
  {
    hide Inv, Gives, Forks;
    match step
    case NewSpace => NewKeeps(s);
    case GivePage(a, v, bytes) => GiveKeeps(s, a, v, bytes, t);
    case Fork(a, b, lost) => ForkKeeps(s, a, b, lost, t);
  }

  // ---------------------------------------------------------------------------------------------
  // Runs

  /** States and steps of a run that starts before any address space exists. */
  ghost predicate IsRun(states: seq<State>, steps: seq<Step>) {
    && |states| == |steps| + 1
    && states[0] == State(states[0].m, states[0].kernel, [])
    && PoolOk(states[0].m) && KernelOk(states[0])
    && forall i {:trigger steps[i]} :: 0 <= i < |steps| ==> Next(states[i], steps[i], states[i + 1])
  }

  lemma StartInv(s: State)
    requires PoolOk(s.m) && KernelOk(s) && s.dirs == []
    ensures Inv(s)
  {
  }

  /** In every run of new address spaces, page gifts and forks, also where a page is lost: the address spaces share no
      user table, every mapped user page has its contents, so that each of them can be forked again, and no frame is
      mapped at two pages of one address space or of two. */
  lemma {:induction false} EveryRun(states: seq<State>, steps: seq<Step>)
    requires IsRun(states, steps)
    ensures Inv(states[|steps|])
    decreases |steps|
  {
    hide Inv, Next;
    if steps == [] {
      StartInv(states[0]);
    } else {
      var n := |steps| - 1;
      assert forall i :: 0 <= i < n ==> steps[..n][i] == steps[i];
      EveryRun(states[..n + 1], steps[..n]);
      assert Next(states[n], steps[n], states[n + 1]);
      NextKeeps(states[n], steps[n], states[n + 1]);
    }
  }

  /** In such a state any address space can be copied into any other: a fork of a fork included. */
  lemma CanFork(s: State, child: nat, parent: nat)
    requires Inv(s) && child < |s.dirs| && parent < |s.dirs| && child != parent
    ensures SpacesOk(s.m, s.dirs[parent], s.dirs[child]) && Backed(s.m, s.dirs[parent])
  {
    hide Private, EntryAt;
    assert DirOk(s, child) && DirOk(s, parent);
    assert Apart(s.dirs[child], s.dirs[parent]);
  }
}
