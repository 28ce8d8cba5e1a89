/**
 Where pages go: over every run, the pages that are neither free nor reachable
 are those there were, and one for each sys_mem_alloc or fork that took a page
 and could not map it (lib/syscall_all.c:50-83 and 165-175), which the state
 before the call tells. Every other free page a run takes is mapped, a table or
 a root, and every page it gives up is back on the free list.
 */
module Conservation {
  import opened Bits
  import opened Mmu
  import opened Memory
  import opened MemoryProofs
  import opened PageTable
  import opened AddressSpace
  import opened ForkCost
  import opened Kernel
  import opened Isolation
  import opened Transfer

  /** The pages that are stranded: data pages without a reference that are not on the free list. */
  ghost function Strays(m: Mem): set<nat>
  {
    set p: nat | p < |m.role| && Stranded(m, p)
  }

  lemma InStrays(m: Mem, p: nat)
    ensures p in Strays(m) <==> Stranded(m, p)
  {
  }

  /** The free list holds every data page without a reference. */
  ghost predicate AllListed(m: Mem)
    requires Sizes(m)
  {
    forall p: nat {:trigger m.role[p]} :: p < |m.role| && m.role[p] == Plain && m.ref[p] == 0 ==> p in m.free
  }

  lemma NoStrays(m: Mem)
    requires Sizes(m)
    ensures Strays(m) == {} <==> AllListed(m)
  {
    forall p: nat ensures p in Strays(m) <==> Stranded(m, p) { InStrays(m, p); }
    if AllListed(m) {
      StraysFrom(m, {});
    } else {
      var p: nat :| p < |m.role| && m.role[p] == Plain && m.ref[p] == 0 && p !in m.free;
      assert p in Strays(m);
    }
  }

  ghost predicate StraysAre(m: Mem, all: set<nat>)
  {
    forall p: nat {:trigger Stranded(m, p)} :: Stranded(m, p) <==> p in all
  }

  lemma StraysFrom(m: Mem, all: set<nat>)
    requires StraysAre(m, all)
    ensures Strays(m) == all
  {
    forall p: nat ensures p in Strays(m) <==> p in all { InStrays(m, p); }
  }

  // -------- the steps of the page-table operations --------

  lemma TakeStrays(m: Mem)
    requires Inv(m) && m.free != []
    ensures m.free[0] !in Strays(m) && Strays(TakeFree(m)) == Strays(m) + {m.free[0]}
  {
    var m', f := TakeFree(m), m.free[0];
    assert f in m.free;
    forall p: nat ensures Stranded(m', p) <==> p in Strays(m) + {f} {
      InStrays(m, p);
      FirstAndRest(m.free, p);
    }
    StraysFrom(m', Strays(m) + {f});
  }

  lemma FirstAndRest(list: seq<nat>, p: nat)
    requires list != []
    ensures p in list <==> p == list[0] || p in list[1..]
    ensures (forall i, j :: 0 <= i < j < |list| ==> list[i] != list[j]) ==> list[0] !in list[1..]
  {
    assert list == [list[0]] + list[1..];
  }

  /** A frame that leaves the free list as a table or a root is not stranded. */
  lemma UsedStrays(m: Mem, m': Mem)
    requires Inv(m) && m.free != []
    requires var f := m.free[0];
             && f < |m.role| && m'.free == m.free[1..] && m'.ref == m.ref[f := 1]
             && |m'.role| == |m.role| && forall p: nat :: p < |m.role| && p != f ==> m'.role[p] == m.role[p]
    ensures Strays(m') == Strays(m)
  {
    forall p: nat ensures Stranded(m', p) <==> p in Strays(m) {
      InStrays(m, p);
      FirstAndRest(m.free, p);
    }
    StraysFrom(m', Strays(m));
  }

  lemma GrowStrays(m: Mem, s: Slot)
    requires Inv(m) && TableSlot(m, s) && !IsValid(At(m, s)) && (m.role[s.frame] == Root || m.role[s.frame].Pmd?)
    requires m.free != []
    ensures Strays(Grow(m, s)) == Strays(m)
  {
    assert m.free[0] in m.free;
    TableEntryDecodes(m.free[0]);
    LinkShape(m, s, TableEntry(m.free[0]));
    UsedStrays(m, Grow(m, s));
  }

  lemma SetupStrays(m: Mem)
    requires Inv(m) && m.free != []
    ensures Strays(SetupVm(m)) == Strays(m)
  {
    SetupShape(m);
    UsedStrays(m, SetupVm(m));
  }

  /** Counts, roles and the free list decide what is stranded. */
  lemma SameStrays(m: Mem, m': Mem)
    requires m'.ref == m.ref && m'.role == m.role && m'.free == m.free
    ensures Strays(m') == Strays(m)
  {
  }

  lemma SetLeafStrays(m: Mem, s: Slot, w: Word)
    requires CanSet(m, s, w)
    ensures Strays(SetLeaf(m, s, w)) == Strays(m) - {FrameOf(w)}
  {
    var m' := SetLeaf(m, s, w);
    assert m'.ref == m.ref[FrameOf(w) := m.ref[FrameOf(w)] + 1];
    forall p: nat ensures Stranded(m', p) <==> p in Strays(m) - {FrameOf(w)} { InStrays(m, p); }
    StraysFrom(m', Strays(m) - {FrameOf(w)});
  }

  lemma ClearLeafStrays(m: Mem, s: Slot)
    requires CanClear(m, s)
    ensures Strays(ClearLeaf(m, s)) == Strays(m)
  {
    ClearLeafRemoves(m, s);
    var m' := ClearLeaf(m, s);
    forall p: nat ensures Stranded(m', p) <==> p in Strays(m) { InStrays(m, p); }
    StraysFrom(m', Strays(m));
  }

  lemma WalkStrays(m: Mem, r: nat, v: Vpn)
    requires Inv(m) && IsRoot(m, r) && Private(v)
    ensures Strays(PgdirWalk(m, r, v, true).mem) == Strays(m)
  {
    WalkLevels(m, r, v);
    var s0 := Slot(r, v.u);
    if IsValid(At(m, s0)) {
      SecondStrays(m, r, v);
    } else if m.free != [] {
      EnsureTable(m, s0);
      GrowStrays(m, s0);
      SecondStrays(Grow(m, s0), r, v);
      assert PgdirWalk(m, r, v, true) == PgdirWalk(Grow(m, s0), r, v, true);
    }
  }

  lemma SecondStrays(m: Mem, r: nat, v: Vpn)
    requires Inv(m) && IsRoot(m, r) && Private(v) && IsValid(At(m, Slot(r, v.u)))
    ensures Strays(PgdirWalk(m, r, v, true).mem) == Strays(m)
  {
    WalkLevels(m, r, v);
    var s1 := Slot(FrameOf(At(m, Slot(r, v.u))), v.m);
    if !IsValid(At(m, s1)) && m.free != [] { GrowStrays(m, s1); }
  }

  lemma RemoveStrays(m: Mem, r: nat, v: Vpn)
    requires Inv(m) && IsRoot(m, r) && Private(v)
    ensures Strays(PageRemove(m, r, v).0) == Strays(m)
  {
    LookupRefines(m, r, v);
    match PageLookup(m, r, v)
    case Missing =>
    case Found(p, e) => ClearLeafStrays(m, e);
  }

  // -------- page_insert --------

  lemma InsertFreshStrays(m: Mem, r: nat, pp: nat, v: Vpn, perm: nat)
    requires CanInsert(m, r, pp, v, perm) && Mapping(m, r, v) == None
    ensures var (m', st) := InsertFresh(m, r, pp, v, perm);
            Strays(m') == if st == Ok then Strays(m) - {pp} else Strays(m)
  {
    WalkCreates(m, r, v);
    WalkStrays(m, r, v);
    var w := PgdirWalk(m, r, v, true);
    if w.status == Ok {
      LeafEntryDecodes(pp, perm);
      assert Holds(m, pp);
      assert w.mem.ref[pp] == m.ref[pp];
      assert Mapping(w.mem, r, v) == None;
      SetLeafStrays(w.mem, w.entry.value, LeafEntry(pp, perm));
    }
  }

  /** page_insert strands nothing; when it succeeds, its page is not stranded any more. */
  lemma InsertStrays(m: Mem, r: nat, pp: nat, v: Vpn, perm: nat)
    requires CanInsert(m, r, pp, v, perm)
    ensures var (m', st) := PageInsert(m, r, pp, v, perm);
            Strays(m') == if st == Ok then Strays(m) - {pp} else Strays(m)
  {
    LookupRefines(m, r, v);
    match PageLookup(m, r, v)
    case Missing => InsertFreshStrays(m, r, pp, v, perm);
    case Found(p, e) =>
      InRefs(m, p, e);
      assert CountOk(m, p);
      InStrays(m, p);
      if p == pp {
        SameStrays(m, Put(m, e, LeafEntry(pp, perm)));
      } else {
        var m1 := ReplaceStep(m, r, pp, v, perm, e);
        ClearLeafStrays(m, e);
        SetLeafStrays(m1, e, LeafEntry(pp, perm));
      }
  }

  // -------- the system calls --------

  ghost predicate Adds(m: Mem, m': Mem, more: set<nat>)
  {
    Strays(m') == Strays(m) + more && Strays(m) !! more
  }

  /** sys_mem_alloc takes a page and then finds no environment, or too few free pages for the tables. */
  ghost predicate AllocStrandsPage(s: KState, envid: Word, va: Word, perm: Word)
    requires s.cur.Some?
  {
    && perm % 2 == 1 && s.mem.free != []
    && var e := Envid2Env(s, envid, true);
       e == None || |s.mem.free| - 1 < MissingTables(s.mem, RootOf(s, e.value), VpnOf(va))
  }

  lemma MemAllocStrays(s: KState, envid: Word, va: Word, perm: Word)
    requires KInv(s) && s.cur.Some? && MemSafe(s, MemAlloc(envid, va, perm))
    ensures var (s', ret) := SysMemAlloc(s, envid, va, perm);
            Adds(s.mem, s'.mem, if AllocStrandsPage(s, envid, va, perm) then {s.mem.free[0]} else {})
  {
    if perm % 2 == 1 && s.mem.free != [] {
      MemAllocStrands(s, envid, va, perm);
      TakeStrays(s.mem);
      var s1 := s.(mem := TakeFree(s.mem));
      if Envid2Env(s1, envid, true).Some? {
        ResolvedIsLive(s, envid, true);
        AllocRefines(s.mem);
        var e := Envid2Env(s, envid, true).value;
        InsertRefines(s1.mem, RootOf(s, e), s.mem.free[0], VpnOf(va), UInt(perm));
        InsertStrays(s1.mem, RootOf(s, e), s.mem.free[0], VpnOf(va), UInt(perm));
      }
    }
  }

  /** A page that is mapped already can be mapped again without effect on what is stranded. */
  lemma ShareStrays(m: Mem, a: nat, u: Vpn, b: nat, w: Vpn, perm: nat)
    requires Inv(m) && IsRoot(m, a) && Private(u) && PageLookup(m, a, u).Found?
    requires CanInsert(m, b, PageLookup(m, a, u).page, w, perm)
    ensures Strays(PageInsert(m, b, PageLookup(m, a, u).page, w, perm).0) == Strays(m)
  {
    var p := PageLookup(m, a, u).page;
    LookupRefines(m, a, u);
    MappedFrame(m, a, u);
    InStrays(m, p);
    InsertStrays(m, b, p, w, perm);
  }

  lemma MemMapStrays(s: KState, srcid: Word, srcva: Word, dstid: Word, dstva: Word, perm: Word)
    requires KInv(s) && s.cur.Some? && MemSafe(s, MemMap(srcid, srcva, dstid, dstva, perm))
    ensures Strays(SysMemMap(s, srcid, srcva, dstid, dstva, perm).0.mem) == Strays(s.mem)
  {
    if Envid2Env(s, srcid, true).Some? && Envid2Env(s, dstid, true).Some? && perm % 2 == 1 {
      ResolvedIsLive(s, srcid, true);
      ResolvedIsLive(s, dstid, true);
      var a, b := RootOf(s, Envid2Env(s, srcid, true).value), RootOf(s, Envid2Env(s, dstid, true).value);
      if PageLookup(s.mem, a, VpnOf(srcva)).Found? {
        FoundIsMappable(s.mem, a, VpnOf(srcva));
        ShareStrays(s.mem, a, VpnOf(srcva), b, VpnOf(dstva), UInt(perm));
      }
    }
  }

  lemma SendPageStrays(s: KState, e: EnvIx, srcva: Word, perm: Word)
    requires KInv(s) && s.cur.Some? && s.envs[e].pgdir.Some? && srcva != 0
    requires MayShare(s.mem, RootOf(s, s.cur.value), VpnOf(srcva), RootOf(s, e), VpnOf(s.envs[e].ipcDstva), UInt(perm))
    ensures Strays(SendPage(s, e, srcva, perm).0.mem) == Strays(s.mem)
  {
    var a, b := RootOf(s, s.cur.value), RootOf(s, e);
    if PageLookup(s.mem, a, VpnOf(srcva)).Found? {
      FoundIsMappable(s.mem, a, VpnOf(srcva));
      ShareStrays(s.mem, a, VpnOf(srcva), b, VpnOf(s.envs[e].ipcDstva), UInt(perm));
    }
  }

  lemma SendStrays(s: KState, envid: Word, value: Word, srcva: Word, perm: Word)
    requires KInv(s) && s.cur.Some? && MemSafe(s, IpcCanSend(envid, value, srcva, perm))
    ensures Strays(SysIpcCanSend(s, envid, value, srcva, perm).0.mem) == Strays(s.mem)
  {
    if Envid2Env(s, envid, false).Some? {
      var e := Envid2Env(s, envid, false).value;
      ResolvedIsLive(s, envid, false);
      var _ := SendOutcomes(s, envid, value, srcva, perm, e);
      if Receiving(s, e) && srcva != 0 && srcva < UTOP { SendPageStrays(s, e, srcva, perm); }
    }
  }

  lemma UnmapStrays(s: KState, envid: Word, va: Word)
    requires KInv(s) && s.cur.Some? && MemSafe(s, MemUnmap(envid, va))
    ensures Strays(SysMemUnmap(s, envid, va).0.mem) == Strays(s.mem)
  {
    if Envid2Env(s, envid, true).Some? {
      ResolvedIsLive(s, envid, true);
      var r := RootOf(s, Envid2Env(s, envid, true).value);
      RemoveStrays(s.mem, r, VpnOf(va));
    }
  }

  // -------- fork --------

  lemma ForkPageStrays(m: Mem, parent: nat, child: nat, v: Vpn)
    requires CanEnterPage(m, parent, child, v) && m.free != []
    ensures var (m', st) := ForkPage(m, parent, child, v);
            Adds(m, m', if st == Complete then {} else {m.free[0]}) && st != OutOfPages
  {
    TakeStrays(m);
    UnmappedFaults(m, parent, child, v);
    if Mapping(m, parent, v).Some? {
      var m1, st := ForkPageSteps(m, parent, child, v);
      SameStrays(TakeFree(m), m1);
      InsertFreshStrays(m1, child, m.free[0], v, PTE_V);
    }
  }

  /** From page k on, the loop strands exactly these pages. */
  ghost predicate LoopStrands(m: Mem, parent: nat, child: nat, k: nat, top: nat, more: set<nat>)
  {
    forall r {:trigger IsLoop(m, parent, child, k, top, r)} :: IsLoop(m, parent, child, k, top, r) ==> Adds(m, r.0, more)
  }

  lemma StrandsNothing(m: Mem, parent: nat, child: nat, k: nat, top: nat)
    requires k >= top || m.free == []
    ensures LoopStrands(m, parent, child, k, top, {})
  {
  }

  lemma StrandsHere(m: Mem, parent: nat, child: nat, k: nat, top: nat, m1: Mem, one: ForkStatus)
    requires CanEnterPage(m, parent, child, Page(k)) && k < top && m.free != []
    requires (m1, one) == ForkPage(m, parent, child, Page(k)) && (one == Fault || (one == Partial && m1.free == []))
    ensures LoopStrands(m, parent, child, k, top, {m.free[0]})
  {
    ForkPageStrays(m, parent, child, Page(k));
    var rest := ForkPages(m1, parent, child, k + 1, top);
  }

  lemma StrandsLater(m: Mem, parent: nat, child: nat, k: nat, top: nat, m1: Mem, more: set<nat>)
    requires CanEnterPage(m, parent, child, Page(k)) && k < top && m.free != []
    requires ForkPage(m, parent, child, Page(k)) == (m1, Complete) && LoopStrands(m1, parent, child, k + 1, top, more)
    ensures LoopStrands(m, parent, child, k, top, more)
  {
    ForkPageStrays(m, parent, child, Page(k));
    assert IsLoop(m1, parent, child, k + 1, top, ForkPages(m1, parent, child, k + 1, top));
  }

  /** The page that is stranded when the loop stops before its end: the first of those left, if any is left. */
  function LastTaken(free: seq<nat>, stop: Stop, top: nat): (r: set<nat>)
    ensures |r| <= 1
  {
    if stop.page < top && 0 < stop.left <= |free| then {free[|free| - stop.left]} else {}
  }

  lemma LastTakenSame(free: seq<nat>, rest: seq<nat>, stop: Stop, top: nat)
    requires |rest| <= |free| && rest == free[|free| - |rest|..] && stop.left <= |rest|
    ensures LastTaken(rest, stop, top) == LastTaken(free, stop, top)
  {
  }

  /** From page k on, the loop strands what is taken when it stops. */
  ghost predicate StopStrands(m: Mem, parent: nat, child: nat, k: nat, top: nat, stop: Stop)
  {
    LoopStrands(m, parent, child, k, top, LastTaken(m.free, stop, top))
  }

  lemma StopsAtOnce(m: Mem, parent: nat, child: nat, k: nat, top: nat)
    requires k >= top || m.free == []
    ensures StopStrands(m, parent, child, k, top, Stop(k, |m.free|))
  {
    StrandsNothing(m, parent, child, k, top);
  }

  lemma RoundStrands(m: Mem, parent: nat, child: nat, first: nat, k: nat, top: nat, gap: nat) returns (m1: Mem, more: bool)
    requires AtRound(m, parent, child, first, k, top) && IsGap(m, parent, k, top, gap) && k < top && m.free != []
    ensures StopsAt(gap, first, k, top, |m.free|) == if more then StopsAt(gap, first, k + 1, top, |m1.free|) else Stop(k, |m.free|)
    ensures more ==> AtRound(m1, parent, child, first, k + 1, top) && IsGap(m1, parent, k + 1, top, gap)
    ensures more ==> forall stop {:trigger StopStrands(m1, parent, child, k + 1, top, stop)} ::
              StopStrands(m1, parent, child, k + 1, top, stop) && stop.left <= |m1.free| ==> StopStrands(m, parent, child, k, top, stop)
    ensures !more ==> StopStrands(m, parent, child, k, top, Stop(k, |m.free|))
  {
    PageIsPrivate(k);
    var one, need;
    m1, one, need := RoundAt(m, parent, child, first, k, top, gap);
    more := one == Complete;
    StopStep(gap, first, k, top, |m.free|, need, more);
    if more {
      forall stop | StopStrands(m1, parent, child, k + 1, top, stop) && stop.left <= |m1.free| ensures StopStrands(m, parent, child, k, top, stop) {
        LastTakenSame(m.free, m1.free, stop, top);
        StrandsLater(m, parent, child, k, top, m1, LastTaken(m1.free, stop, top));
      }
    } else {
      StrandsHere(m, parent, child, k, top, m1, one);
    }
  }

  /** What the loop strands, from the number of free pages and the parent's map alone: at most one page. */
  lemma {:induction false} LoopStrays(m: Mem, parent: nat, child: nat, first: nat, k: nat, top: nat, gap: nat) returns (stop: Stop)
    requires AtRound(m, parent, child, first, k, top) && IsGap(m, parent, k, top, gap)
    ensures stop == StopsAt(gap, first, k, top, |m.free|) && StopStrands(m, parent, child, k, top, stop)
    decreases top - k
  {
    stop := Stop(k, |m.free|);
    if k == top || m.free == [] {
      StopsAtOnce(m, parent, child, k, top);
    } else {
      var m1, more := RoundStrands(m, parent, child, first, k, top, gap);
      if more { stop := LoopStrays(m1, parent, child, first, k + 1, top, gap); }
    }
  }

  /** A fork strands the page at hand when it stops before the end of the stack with a page left. */
  ghost function ForkStrands(s: KState): (pages: set<nat>)
    ensures |pages| <= 1
  {
    if CanAllocEnv(s) then LastTaken(s.mem.free[1..], ForkStop(s), STACK_PAGES_END) else {}
  }

  lemma ForkLoopStrays(s: KState)
    requires KInv(s) && CanAllocEnv(s) && StackPrivate(s)
    ensures LoopStrands(SetupVm(s.mem), RootOf(s, s.cur.value), s.mem.free[0], s.kframe.sp / BY2PG, STACK_PAGES_END, ForkStrands(s))
  {
    var p, k := RootOf(s, s.cur.value), s.kframe.sp / BY2PG;
    if k < STACK_PAGES_END {
      var m, gap := ForkRounds(s);
      var _ := LoopStrays(m, p, s.mem.free[0], k, k, STACK_PAGES_END, gap);
    } else {
      StrandsNothing(SetupVm(s.mem), p, s.mem.free[0], k, STACK_PAGES_END);
    }
  }

  lemma LoopAdds(m: Mem, parent: nat, child: nat, k: nat, top: nat, more: set<nat>, loop: (Mem, ForkStatus))
    requires LoopStrands(m, parent, child, k, top, more) && loop == ForkPages(m, parent, child, k, top)
    ensures Adds(m, loop.0, more)
  {
    assert IsLoop(m, parent, child, k, top, loop);
  }

  lemma ForkStrays(s: KState)
    requires KInv(s) && s.cur.Some? && MemSafe(s, Fork)
    ensures Adds(s.mem, SysFork(s).0.mem, ForkStrands(s))
  {
    if s.envFree != [] && s.mem.free != [] {
      SetupStrays(s.mem);
      ForkLoopStrays(s);
      var _, _ := ForkBegin(s);
      var _, loop := ForkShape(s);
      LoopAdds(SetupVm(s.mem), RootOf(s, s.cur.value), s.mem.free[0], s.kframe.sp / BY2PG, STACK_PAGES_END, ForkStrands(s), loop);
    }
  }

  // -------- runs --------

  /** The pages a system call strands, told from the state before it: at most one. */
  ghost function StrandedBy(s: KState, call: Call): (pages: set<nat>)
    requires s.cur.Some?
    ensures |pages| <= 1
  {
    match call
    case MemAlloc(envid, va, perm) => if AllocStrandsPage(s, envid, va, perm) then {s.mem.free[0]} else {}
    case Fork => ForkStrands(s)
    case _ => {}
  }

  lemma CallStrays(s: KState, call: Call)
    requires KInv(s) && CanStep(s) && MemSafe(s, call)
    ensures Adds(s.mem, Serve(s, call).mem, StrandedBy(s, call))
  {
    match call
    case MemAlloc(envid, va, perm) => MemAllocStrays(s, envid, va, perm);
    case MemMap(srcid, srcva, dstid, dstva, perm) => MemMapStrays(s, srcid, srcva, dstid, dstva, perm);
    case MemUnmap(envid, va) => UnmapStrays(s, envid, va);
    case Fork => ForkStrays(s);
    case IpcCanSend(envid, value, srcva, perm) => SendStrays(s, envid, value, srcva, perm);
    case _ =>
  }

  ghost function StrandedAt(s: KState, ev: Event): (pages: set<nat>)
    requires CanStep(s)
    ensures |pages| <= 1
  {
    match ev
    case Syscall(f, call) => StrandedBy(s.(kframe := f), call)
    case Irq(_) => {}
  }

  lemma TrapStrays(s: KState, ev: Event)
    requires KInv(s) && CanStep(s) && SafeEvent(s, ev)
    ensures Adds(s.mem, Step(s, ev).mem, StrandedAt(s, ev))
  {
    match ev
    case Syscall(f, call) =>
      assert KInv(s.(kframe := f));
      CallStrays(s.(kframe := f), call);
    case Irq(_) =>
  }

  /** How many traps of a run strand a page. */
  ghost function Strandings(s: KState, evs: seq<Event>): nat
    decreases |evs|
  {
    if evs == [] || !CanStep(s) then 0
    else |StrandedAt(s, evs[0])| + Strandings(Step(s, evs[0]), evs[1..])
  }

  /** The number of stranded pages grows by one with each trap that strands one; none ever comes back. */
  lemma {:induction false} RunStrays(s: KState, evs: seq<Event>)
    requires KInv(s) && SafeRun(s, evs)
    ensures Strays(s.mem) <= Strays(Run(s, evs).mem)
    ensures |Strays(Run(s, evs).mem)| == |Strays(s.mem)| + Strandings(s, evs)
    decreases |evs|
  {
    if evs == [] || !CanStep(s) {
    } else {
      TrapStrays(s, evs[0]);
      StepGood(s, evs[0]);
      RunStrays(Step(s, evs[0]), evs[1..]);
    }
  }

  /**
   Conservation: from a state in which the free list holds every unreferenced
   data page, a run ends in such a state exactly when none of its traps strands
   a page.
   */
  lemma PagesConserved(s: KState, evs: seq<Event>)
    requires KInv(s) && SafeRun(s, evs) && AllListed(s.mem)
    ensures Inv(Run(s, evs).mem) && (AllListed(Run(s, evs).mem) <==> Strandings(s, evs) == 0)
  {
    RunKeepsInv(s, evs);
    RunStrays(s, evs);
    NoStrays(s.mem);
    NoStrays(Run(s, evs).mem);
  }

  /** page_init lists every frame that is not the kernel's. */
  lemma InitialListed(frames: seq<Frame>, kroot: nat, used: nat)
    requires used <= |frames| <= MAX_FRAMES
    ensures AllListed(InitialMem(frames, kroot, used))
  {
    var m := InitialMem(frames, kroot, used);
    forall p: nat | p < |m.role| && m.role[p] == Plain && m.ref[p] == 0 ensures p in m.free {
      assert m.free[|frames| - 1 - p] == p;
    }
  }
}
