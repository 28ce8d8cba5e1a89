/**
 What fork's page loop costs (lib/syscall_all.c:165-175): how many free pages
 it takes, known before the call from the stack pointer and the length of the
 free list, and at which page it stops when there are fewer.
 */
module ForkCost {
  import opened Bits
  import opened Mmu
  import opened Memory
  import opened MemoryProofs
  import opened PageTable
  import opened AddressSpace

  // -------- which tables are missing --------

  /** How many tables are missing for page w, n before, once those for v exist. */
  function Once(n: nat, v: Vpn, w: Vpn): nat
  {
    if w.u == v.u && w.m == v.m then 0 else if w.u == v.u && n == 2 then 1 else n
  }

  lemma GrowMissing(m: Mem, s: Slot, r: nat, w: Vpn)
    requires Inv(m) && TableSlot(m, s) && !IsValid(At(m, s)) && (m.role[s.frame] == Root || m.role[s.frame].Pmd?)
    requires m.free != [] && IsRoot(m, r) && Private(w)
    ensures var w0 := At(m, Slot(r, w.u));
            MissingTables(Grow(m, s), r, w) ==
            if s == Slot(r, w.u) then 1
            else if IsValid(w0) && s == Slot(FrameOf(w0), w.m) then 0
            else MissingTables(m, r, w)
  {
    var f := m.free[0];
    assert f in m.free;
    TableEntryDecodes(f);
    LinkShape(m, s, TableEntry(f));
    var s0 := Slot(r, w.u);
    if s0 != s && IsValid(At(m, s0)) {
      assert Counted(m, s0) && TargetOk(m, s0);
    }
  }

  /** Two pages have the same second-level slot exactly when they agree in both upper indices. */
  lemma SecondSlots(m: Mem, r: nat, v: Vpn, w: Vpn)
    requires Inv(m) && IsRoot(m, r) && Private(v) && Private(w) && IsValid(At(m, Slot(r, v.u))) && IsValid(At(m, Slot(r, w.u)))
    ensures Slot(FrameOf(At(m, Slot(r, v.u))), v.m) == Slot(FrameOf(At(m, Slot(r, w.u))), w.m) <==> v.u == w.u && v.m == w.m
  {
    assert Counted(m, Slot(r, v.u)) && TargetOk(m, Slot(r, v.u));
    assert Counted(m, Slot(r, w.u)) && TargetOk(m, Slot(r, w.u));
  }

  lemma SecondMissing(m: Mem, r: nat, v: Vpn, w: Vpn)
    requires Inv(m) && IsRoot(m, r) && Private(v) && Private(w) && IsValid(At(m, Slot(r, v.u)))
    requires PgdirWalk(m, r, v, true).status == Ok
    ensures MissingTables(PgdirWalk(m, r, v, true).mem, r, w) == if w.u == v.u && w.m == v.m then 0 else MissingTables(m, r, w)
  {
    WalkLevels(m, r, v);
    var s1 := Slot(FrameOf(At(m, Slot(r, v.u))), v.m);
    if !IsValid(At(m, s1)) {
      GrowMissing(m, s1, r, w);
      if IsValid(At(m, Slot(r, w.u))) { SecondSlots(m, r, v, w); }
    }
  }

  /** A walk that finds no second-level table is one from where there is an empty one. */
  lemma FirstGrown(m: Mem, r: nat, v: Vpn) returns (m1: Mem)
    requires Inv(m) && IsRoot(m, r) && Private(v) && !IsValid(At(m, Slot(r, v.u))) && m.free != []
    ensures m1 == Grow(m, Slot(r, v.u)) && Inv(m1) && IsRoot(m1, r) && IsValid(At(m1, Slot(r, v.u)))
    ensures PgdirWalk(m, r, v, true) == PgdirWalk(m1, r, v, true)
    ensures forall w {:trigger MissingTables(m1, r, w)} :: Private(w) ==> MissingTables(m1, r, w) == if w.u == v.u then 1 else MissingTables(m, r, w)
  {
    WalkLevels(m, r, v);
    EnsureTable(m, Slot(r, v.u));
    m1 := Grow(m, Slot(r, v.u));
    assert m.role[r] == Root;
    forall w | Private(w) ensures MissingTables(m1, r, w) == if w.u == v.u then 1 else MissingTables(m, r, w) {
      GrowMissing(m, Slot(r, v.u), r, w);
      if IsValid(At(m, Slot(r, w.u))) { NotRoot(m, r, w.u); }
    }
  }

  lemma NotRoot(m: Mem, r: nat, u: nat)
    requires Inv(m) && IsRoot(m, r) && SHARED <= u < ENTRIES && IsValid(At(m, Slot(r, u)))
    ensures FrameOf(At(m, Slot(r, u))) != r
  {
    assert Counted(m, Slot(r, u)) && TargetOk(m, Slot(r, u));
  }

  /** A successful walk creates the tables for its page and no others. */
  lemma WalkMissing(m: Mem, r: nat, v: Vpn, w: Vpn)
    requires Inv(m) && IsRoot(m, r) && Private(v) && Private(w) && PgdirWalk(m, r, v, true).status == Ok
    ensures MissingTables(PgdirWalk(m, r, v, true).mem, r, w) == Once(MissingTables(m, r, w), v, w)
  {
    if IsValid(At(m, Slot(r, v.u))) {
      SecondMissing(m, r, v, w);
    } else {
      var m1 := FirstGrown(m, r, v);
      SecondMissing(m1, r, v, w);
    }
  }

  lemma SetLeafMissing(m: Mem, s: Slot, e: Word, r: nat, w: Vpn)
    requires CanSet(m, s, e) && IsRoot(m, r) && Private(w)
    ensures MissingTables(SetLeaf(m, s, e), r, w) == MissingTables(m, r, w)
  {
    PutInLeaf(m, s, e, r, w);
  }

  lemma InsertFreshMissing(m: Mem, r: nat, pp: nat, v: Vpn, perm: nat, w: Vpn)
    requires CanInsert(m, r, pp, v, perm) && Mapping(m, r, v) == None && Private(w)
    ensures var (m', st) := InsertFresh(m, r, pp, v, perm);
            st == Ok ==> MissingTables(m', r, w) == Once(MissingTables(m, r, w), v, w)
  {
    WalkCreates(m, r, v);
    var walk := PgdirWalk(m, r, v, true);
    if walk.status == Ok {
      WalkMissing(m, r, v, w);
      LeafEntryDecodes(pp, perm);
      assert Holds(m, pp);
      assert walk.mem.ref[pp] == m.ref[pp];
      assert Mapping(walk.mem, r, v) == None;
      SetLeafMissing(walk.mem, walk.entry.value, LeafEntry(pp, perm), r, w);
    }
  }

  /** A page handed out and filled is no table. */
  lemma CopiedMissing(m: Mem, src: nat, r: nat, w: Vpn)
    requires Inv(m) && m.free != [] && Holds(m, src) && IsRoot(m, r) && Private(w)
    ensures MissingTables(Copied(m, src), r, w) == MissingTables(m, r, w)
  {
    var f := m.free[0];
    assert f in m.free;
    WalkLevels(m, r, w);
    var m1 := Copied(m, src);
    assert forall x: Slot :: x.frame != f ==> At(m1, x) == At(m, x);
  }

  // -------- one round --------

  /** One round of fork's loop, exactly: when it succeeds, how many pages it takes, which tables exist afterwards. */
  lemma RoundExact(m: Mem, parent: nat, child: nat, v: Vpn) returns (m2: Mem, st: ForkStatus)
    requires CanForkPage(m, parent, child, v) && m.free != []
    ensures (m2, st) == ForkPage(m, parent, child, v)
    ensures var need := MissingTables(m, child, v);
            && st == (if need < |m.free| then Complete else Partial)
            && m2.free == m.free[if need < |m.free| then 1 + need else |m.free|..]
    ensures st == Complete ==> forall w {:trigger MissingTables(m2, child, w)} :: Private(w) ==>
              MissingTables(m2, child, w) == Once(MissingTables(m, child, w), v, w)
  {
    var m1, st1 := ForkPageSteps(m, parent, child, v);
    var src := Mapping(m, parent, v).value.frame;
    MappedFrame(m, parent, v);
    var f := m.free[0];
    InsertFreshRefines(m1, child, f, v, PTE_V);
    InsertFreshCounts(m1, child, f, v, PTE_V);
    CopiedMissing(m, src, child, v);
    m2, st := ForkPage(m, parent, child, v).0, ForkPage(m, parent, child, v).1;
    RestOfFree(m.free, MissingTables(m, child, v));
    if st == Complete {
      forall w | Private(w) ensures MissingTables(m2, child, w) == Once(MissingTables(m, child, w), v, w) {
        CopiedMissing(m, src, child, w);
        InsertFreshMissing(m1, child, f, v, PTE_V, w);
      }
    }
  }

  lemma RestOfFree(free: seq<nat>, need: nat)
    requires free != []
    ensures free[1..][Min(need, |free| - 1)..] == free[if need < |free| then 1 + need else |free|..]
  {
  }

  // -------- the cost of a range --------

  /** Free pages for the stack pages [first, k): the pages themselves, their third-level and their second-level tables. */
  function PagesFor(first: nat, k: nat): nat
  {
    if k <= first then 0
    else (k - first) + ((k - 1) / 0x200 - first / 0x200 + 1) + ((k - 1) / 0x4_0000 - first / 0x4_0000 + 1)
  }

  /** Tables missing for page i once those for [first, k) exist. */
  function NeedAt(first: nat, k: nat, i: nat): nat
  {
    if k <= first then 2
    else if i / 0x200 == (k - 1) / 0x200 then 0
    else if i / 0x4_0000 == (k - 1) / 0x4_0000 then 1
    else 2
  }

  lemma PagesForStep(first: nat, k: nat)
    requires first <= k
    ensures PagesFor(first, k + 1) == PagesFor(first, k) + 1 + NeedAt(first, k, k)
  {
    if first < k { NextGroup(k - 1, 0x200); NextGroup(k - 1, 0x4_0000); SameGroups(k - 1, k); }
  }

  lemma NextGroup(k: nat, n: nat)
    requires n == 0x200 || n == 0x4_0000
    ensures (k + 1) / n == k / n || (k + 1) / n == k / n + 1
  {
  }

  lemma SameGroups(j: nat, k: nat)
    ensures j / 0x200 == k / 0x200 ==> j / 0x4_0000 == k / 0x4_0000
  {
    assert j / 0x4_0000 == j / 0x200 / 0x200 && k / 0x4_0000 == k / 0x200 / 0x200;
  }

  lemma {:induction false} PagesForGrows(first: nat, j: nat, k: nat)
    requires first <= j <= k
    ensures PagesFor(first, j) + (k - j) <= PagesFor(first, k)
    decreases k
  {
    if j == k {
    } else {
      PagesForGrows(first, j, k - 1);
      PagesForStep(first, k - 1);
    }
  }

  /** Page numbers and table indices. */
  lemma PageIndices(i: nat, k: nat)
    requires i < 0x800_0000 && k < 0x800_0000
    ensures Page(i).u == Page(k).u <==> i / 0x4_0000 == k / 0x4_0000
    ensures Page(i).u == Page(k).u && Page(i).m == Page(k).m <==> i / 0x200 == k / 0x200
  {
    IndicesOf(i, i * BY2PG);
    IndicesOf(k, k * BY2PG);
    IndexPair(i / 0x200, k / 0x200);
    assert i / 0x4_0000 == i / 0x200 / 0x200 && k / 0x4_0000 == k / 0x200 / 0x200;
  }

  lemma IndicesOf(i: nat, va: nat)
    requires i < 0x800_0000 && va == i * BY2PG
    ensures VpnOf(va).u == i / 0x4_0000 && VpnOf(va).m == i / 0x200 % 0x200
  {
    Indices(va);
    assert va / 0x4000_0000 == i / 0x4_0000 < 512 && va / 0x20_0000 == i / 0x200;
  }

  lemma IndexPair(a: nat, b: nat)
    ensures a / 0x200 == b / 0x200 && a % 0x200 == b % 0x200 <==> a == b
  {
  }

  /** For the pages from k on, the child has the tables that [first, k) needed, and no others. */
  ghost predicate Opened(m: Mem, child: nat, first: nat, k: nat, top: nat)
  {
    forall i: nat {:trigger Page(i)} :: k <= i < top ==> MissingTables(m, child, Page(i)) == NeedAt(first, k, i)
  }

  lemma NeedOnce(first: nat, k: nat, i: nat)
    requires first <= k < i < 0x800_0000
    ensures Once(NeedAt(first, k, i), Page(k), Page(i)) == NeedAt(first, k + 1, i)
  {
    PageIndices(i, k);
    NeedOnceIs(first, k, i);
  }

  lemma NeedOnceIs(first: nat, k: nat, i: nat)
    requires first <= k < i
    ensures NeedAt(first, k + 1, i) ==
            if i / 0x200 == k / 0x200 then 0 else if i / 0x4_0000 == k / 0x4_0000 && NeedAt(first, k, i) == 2 then 1 else NeedAt(first, k, i)
  {
    SameGroups(i, k);
    if first < k {
      Between(k - 1, k, i, 0x200);
      Between(k - 1, k, i, 0x4_0000);
      SameGroups(k - 1, i);
    }
  }

  lemma Between(j: nat, k: nat, i: nat, n: nat)
    requires j <= k <= i && (n == 0x200 || n == 0x4_0000)
    ensures j / n <= k / n <= i / n
  {
  }

  // -------- where the loop stops --------

  /** The first page from k on that the parent does not map, or top. */
  ghost function FirstGap(m: Mem, parent: nat, k: nat, top: nat): (gap: nat)
    requires k <= top
    ensures IsGap(m, parent, k, top, gap)
    decreases top - k
  {
    if k == top || Mapping(m, parent, Page(k)) == None then k else FirstGap(m, parent, k + 1, top)
  }

  ghost predicate IsGap(m: Mem, parent: nat, k: nat, top: nat, gap: nat)
  {
    && k <= gap <= top && RangeMapped(m, parent, k, gap)
    && (gap < top ==> Mapping(m, parent, Page(gap)) == None)
  }

  /** Where the loop gets to, and how many free pages there are then. */
  datatype Stop = Stop(page: nat, left: nat)

  /**
   The first page from k on that the loop cannot complete, with `left` free
   pages before page k: there are too few, or it is the gap.
   */
  function StopsAt(gap: nat, first: nat, k: nat, top: nat, left: nat): (s: Stop)
    requires k <= top
    ensures k <= s.page <= top && s.left <= left
    decreases top - k
  {
    if k == top || k == gap || left <= NeedAt(first, k, k) then Stop(k, left)
    else StopsAt(gap, first, k + 1, top, left - 1 - NeedAt(first, k, k))
  }

  /** The stop in terms of the cost: everything before it is mapped and paid for, and it is not, or is the end. */
  lemma {:induction false} StopIs(gap: nat, first: nat, k: nat, top: nat, n: nat)
    requires first <= k <= gap <= top && PagesFor(first, k) <= n
    ensures var s := StopsAt(gap, first, k, top, n - PagesFor(first, k));
            s.page <= gap && PagesFor(first, s.page) + s.left == n && (s.page < gap ==> n < PagesFor(first, s.page + 1))
    decreases top - k
  {
    PagesForStep(first, k);
    if k == gap || n < PagesFor(first, k + 1) {
    } else {
      StopIs(gap, first, k + 1, top, n);
    }
  }

  /** The loop gets to its end exactly when there is no gap and there are enough free pages. */
  lemma StopsAtEnd(gap: nat, first: nat, top: nat, n: nat)
    requires first <= gap <= top
    ensures StopsAt(gap, first, first, top, n).page == top <==> gap == top && PagesFor(first, top) <= n
  {
    StopIs(gap, first, first, top, n);
    var j := StopsAt(gap, first, first, top, n).page;
    if j < top { PagesForGrows(first, j + 1, top); }
  }

  ghost predicate AtRound(m: Mem, parent: nat, child: nat, first: nat, k: nat, top: nat)
  {
    first <= k <= top && CanFork(m, parent, child, k, top) && 0x8_0000 <= first && Opened(m, child, first, k, top)
  }

  /** One round in its three outcomes. */
  lemma RoundStep(m: Mem, parent: nat, child: nat, k: nat, top: nat) returns (m1: Mem, st: ForkStatus)
    requires CanFork(m, parent, child, k, top) && k < top && m.free != []
    ensures (m1, st) == ForkPage(m, parent, child, Page(k))
    ensures var need := MissingTables(m, child, Page(k));
            && st == (if Mapping(m, parent, Page(k)) == None then Fault else if need < |m.free| then Complete else Partial)
            && (st == Complete ==> m1.free == m.free[1 + need..])
            && (st == Partial ==> m1.free == [])
    ensures st == Complete || st == Partial ==>
              && CanFork(m1, parent, child, k + 1, top)
              && forall j: nat {:trigger Page(j)} :: k <= j < top ==> Mapping(m1, parent, Page(j)) == Mapping(m, parent, Page(j))
    ensures st == Complete ==> forall w {:trigger MissingTables(m1, child, w)} :: Private(w) ==>
              MissingTables(m1, child, w) == Once(MissingTables(m, child, w), Page(k), w)
  {
    var v := Page(k);
    PageIsPrivate(k);
    UnmappedFaults(m, parent, child, v);
    m1, st := ForkPage(m, parent, child, v).0, ForkPage(m, parent, child, v).1;
    if Mapping(m, parent, v).Some? {
      m1, st := RoundExact(m, parent, child, v);
      ForkPageRefines(m, parent, child, v);
      ForkRest(m, m1, parent, child, k, top);
    }
  }

  lemma OpenedStep(m: Mem, m1: Mem, child: nat, first: nat, k: nat, top: nat)
    requires Opened(m, child, first, k, top) && 0x8_0000 <= first <= k < top <= 0x800_0000
    requires forall w {:trigger MissingTables(m1, child, w)} :: Private(w) ==> MissingTables(m1, child, w) == Once(MissingTables(m, child, w), Page(k), w)
    ensures Opened(m1, child, first, k + 1, top)
  {
    forall i: nat | k + 1 <= i < top ensures MissingTables(m1, child, Page(i)) == NeedAt(first, k + 1, i) {
      PageIsPrivate(i);
      NeedOnce(first, k, i);
    }
  }

  /** A round that is completed leads to the next one; any other is where the loop stops. */
  lemma RoundAt(m: Mem, parent: nat, child: nat, first: nat, k: nat, top: nat, gap: nat) returns (m1: Mem, st: ForkStatus, need: nat)
    requires AtRound(m, parent, child, first, k, top) && IsGap(m, parent, k, top, gap) && k < top && m.free != []
    ensures (m1, st) == ForkPage(m, parent, child, Page(k)) && need == NeedAt(first, k, k)
    ensures st == if k == gap then Fault else if need < |m.free| then Complete else Partial
    ensures st == Complete ==>
              && AtRound(m1, parent, child, first, k + 1, top) && IsGap(m1, parent, k + 1, top, gap)
              && m1.free == m.free[1 + need..]
    ensures st == Partial ==> m1.free == [] && CanFork(m1, parent, child, k + 1, top)
  {
    m1, st := RoundStep(m, parent, child, k, top);
    need := NeedAt(first, k, k);
    assert MissingTables(m, child, Page(k)) == need;
    if st == Complete { OpenedStep(m, m1, child, first, k, top); }
  }

  /** The loop comes to a page for which page_alloc has nothing: where it stops, or after a page that could not be mapped. */
  predicate RunsShort(stop: Stop, gap: nat, top: nat)
  {
    stop.page < top && (stop.left == 0 || (stop.page != gap && stop.page + 1 < top))
  }

  /** The outcome of the loop is decided by where it stops. */
  ghost predicate EndsAt(m: Mem, parent: nat, child: nat, k: nat, top: nat, gap: nat, stop: Stop)
  {
    forall r {:trigger IsLoop(m, parent, child, k, top, r)} :: IsLoop(m, parent, child, k, top, r) ==>
      && (r.1 == Complete <==> stop.page == top)
      && (r.1 == Fault <==> stop.page == gap && gap < top && stop.left > 0)
      && (r.1 == OutOfPages <==> RunsShort(stop, gap, top))
  }

  lemma EndsAtOnce(m: Mem, parent: nat, child: nat, k: nat, top: nat, gap: nat)
    requires k <= gap <= top && (k == top || m.free == [])
    ensures EndsAt(m, parent, child, k, top, gap, Stop(k, |m.free|))
  {
  }

  lemma EndsHere(m: Mem, parent: nat, child: nat, k: nat, top: nat, gap: nat)
    requires k <= gap <= top && k < top && m.free != []
    requires (ForkPage(m, parent, child, Page(k)).1 == Fault && k == gap)
             || (ForkPage(m, parent, child, Page(k)).1 == Partial && k != gap && ForkPage(m, parent, child, Page(k)).0.free == [])
    ensures EndsAt(m, parent, child, k, top, gap, Stop(k, |m.free|))
  {
    var rest := ForkPages(ForkPage(m, parent, child, Page(k)).0, parent, child, k + 1, top);
  }

  lemma EndsLater(m: Mem, parent: nat, child: nat, k: nat, top: nat, gap: nat, stop: Stop, m1: Mem)
    requires k < top && ForkPage(m, parent, child, Page(k)) == (m1, Complete)
    requires EndsAt(m1, parent, child, k + 1, top, gap, stop)
    ensures EndsAt(m, parent, child, k, top, gap, stop)
  {
    assert IsLoop(m1, parent, child, k + 1, top, ForkPages(m1, parent, child, k + 1, top));
  }

  lemma StopStep(gap: nat, first: nat, k: nat, top: nat, left: nat, need: nat, more: bool)
    requires k < top && need == NeedAt(first, k, k) && (more <==> k != gap && need < left)
    ensures StopsAt(gap, first, k, top, left) == if more then StopsAt(gap, first, k + 1, top, left - 1 - need) else Stop(k, left)
  {
  }

  /** ... so the loop ends here, or where it ends from the next round on. */
  lemma RoundLeads(m: Mem, parent: nat, child: nat, first: nat, k: nat, top: nat, gap: nat) returns (m1: Mem, more: bool)
    requires AtRound(m, parent, child, first, k, top) && IsGap(m, parent, k, top, gap) && k < top && m.free != []
    ensures StopsAt(gap, first, k, top, |m.free|) == if more then StopsAt(gap, first, k + 1, top, |m1.free|) else Stop(k, |m.free|)
    ensures more ==> AtRound(m1, parent, child, first, k + 1, top) && IsGap(m1, parent, k + 1, top, gap)
    ensures more ==> forall stop {:trigger EndsAt(m1, parent, child, k + 1, top, gap, stop)} ::
              EndsAt(m1, parent, child, k + 1, top, gap, stop) ==> EndsAt(m, parent, child, k, top, gap, stop)
    ensures !more ==> EndsAt(m, parent, child, k, top, gap, Stop(k, |m.free|))
  {
    var one, need;
    m1, one, need := RoundAt(m, parent, child, first, k, top, gap);
    more := one == Complete;
    StopStep(gap, first, k, top, |m.free|, need, more);
    if more {
      forall stop | EndsAt(m1, parent, child, k + 1, top, gap, stop) ensures EndsAt(m, parent, child, k, top, gap, stop) {
        EndsLater(m, parent, child, k, top, gap, stop, m1);
      }
    } else {
      EndsHere(m, parent, child, k, top, gap);
    }
  }

  /** The outcome of the loop, from the number of free pages and the parent's map alone. */
  lemma {:induction false} LoopEnds(m: Mem, parent: nat, child: nat, first: nat, k: nat, top: nat, gap: nat) returns (stop: Stop)
    requires AtRound(m, parent, child, first, k, top) && IsGap(m, parent, k, top, gap)
    ensures stop == StopsAt(gap, first, k, top, |m.free|) && EndsAt(m, parent, child, k, top, gap, stop)
    decreases top - k
  {
    stop := Stop(k, |m.free|);
    if k == top || m.free == [] {
      EndsAtOnce(m, parent, child, k, top, gap);
    } else {
      var m1, more := RoundLeads(m, parent, child, first, k, top, gap);
      if more { stop := LoopEnds(m1, parent, child, first, k + 1, top, gap); }
    }
  }

  /** A new root has no tables: the loop of a fork starts at its first round. */
  lemma FirstRound(m: Mem, parent: nat, child: nat, first: nat, top: nat)
    requires CanFork(m, parent, child, first, top) && first <= top
    requires forall v {:trigger MissingTables(m, child, v)} :: Private(v) ==> MissingTables(m, child, v) == 2
    ensures AtRound(m, parent, child, first, first, top)
  {
    forall i: nat | first <= i < top ensures MissingTables(m, child, Page(i)) == NeedAt(first, first, i) { PageIsPrivate(i); }
  }

  lemma SetupMissing(m: Mem, v: Vpn)
    requires Inv(m) && m.free != [] && Private(v)
    ensures MissingTables(SetupVm(m), m.free[0], v) == 2
  {
    SetupShape(m);
    var m', f := SetupVm(m), m.free[0];
    assert TableSlot(m', Slot(f, v.u)) && !Counted(m, Slot(f, v.u));
  }
}
