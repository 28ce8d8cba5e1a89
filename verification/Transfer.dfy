/**
 What the page-moving system calls achieve when they succeed, and that they
 achieve nothing when they fail: fork, sys_mem_map and sys_ipc_can_send.
 */
module Transfer {
  import opened Bits
  import opened Mmu
  import opened Memory
  import opened MemoryProofs
  import opened PageTable
  import opened AddressSpace
  import opened ForkCost
  import opened Sched
  import opened Kernel
  import opened Isolation

  // -------- fork --------

  ghost predicate CanAllocEnv(s: KState)
  {
    s.cur.Some? && s.envFree != [] && s.mem.free != []
  }

  /** The page loop of a fork that found a free environment and a page for its root. */
  function ForkLoop(s: KState): (Mem, ForkStatus)
    requires CanAllocEnv(s)
  {
    ForkPages(SetupVm(s.mem), RootOf(s, s.cur.value), s.mem.free[0], s.kframe.sp / BY2PG, STACK_PAGES_END)
  }

  /** Page v of the child is a page that was free, mapped nowhere else, holding what the parent's page v holds. */
  ghost predicate ForkedPage(s: KState, s': KState, child: nat, v: Vpn)
    requires s.cur.Some? && Sizes(s.mem) && Sizes(s'.mem)
  {
    var parent := RootOf(s, s.cur.value);
    && Mapping(s.mem, parent, v).Some? && Mapping(s'.mem, child, v).Some?
    && var src := Mapping(s.mem, parent, v).value.frame;
       var g := Mapping(s'.mem, child, v).value.frame;
       && g in s.mem.free && Mapping(s'.mem, child, v).value.attrs == LeafAttrs(PTE_V)
       && src < |s.mem.frames| && g < |s'.mem.frames|
       && s'.mem.frames[g] == s.mem.frames[src]
       && Mapping(s'.mem, parent, v) == Mapping(s.mem, parent, v)
       && src < |s'.mem.frames| && s'.mem.frames[src] == s.mem.frames[src]
       && (forall x: nat, y {:trigger MapsPage(s'.mem, x, y, g)} ::
             IsRoot(s'.mem, x) && Private(y) && MapsPage(s'.mem, x, y, g) ==> x == child && y == v)
  }

  lemma ForkedFromCloned(s: KState, s': KState, v: Vpn)
    requires KInv(s) && CanAllocEnv(s) && Private(v) && Inv(s'.mem) && IsRoot(s'.mem, s.mem.free[0])
    requires ClonedPage(SetupVm(s.mem), s'.mem, RootOf(s, s.cur.value), s.mem.free[0], v)
    requires Keeps(s, s', None)
    ensures ForkedPage(s, s', s.mem.free[0], v)
  {
    var m := SetupVm(s.mem);
    var parent, child := RootOf(s, s.cur.value), s.mem.free[0];
    SetupRefines(s.mem);
    SetupShape(s.mem);
    assert IsRoot(s.mem, parent);
    assert Mapping(m, parent, v) == Mapping(s.mem, parent, v);
    MappedFrame(s.mem, parent, v);
    var src := Mapping(s.mem, parent, v).value.frame;
    assert m.frames[src] == s.mem.frames[src];
    var g := Mapping(s'.mem, child, v).value.frame;
    assert g in s.mem.free;
    forall x: nat, y | IsRoot(s'.mem, x) && Private(y) && MapsPage(s'.mem, x, y, g) ensures x == child && y == v {
      ClonesAreSole(m, s'.mem, parent, child, v, x, y);
    }
  }

  lemma ForkLoopClones(s: KState)
    requires KInv(s) && CanAllocEnv(s) && StackPrivate(s) && ForkLoop(s).1 == Complete
    ensures Sizes(SetupVm(s.mem)) && Inv(ForkLoop(s).0)
    ensures forall j: nat {:trigger Page(j)} :: s.kframe.sp / BY2PG <= j < STACK_PAGES_END ==>
              ClonedPage(SetupVm(s.mem), ForkLoop(s).0, RootOf(s, s.cur.value), s.mem.free[0], Page(j))
  {
    ForkStart(s);
    var k := s.kframe.sp / BY2PG;
    if k < STACK_PAGES_END {
      ForkPagesRefines(SetupVm(s.mem), RootOf(s, s.cur.value), s.mem.free[0], k, STACK_PAGES_END);
    }
  }

  /**
   Fork: if every allocation and insertion of the loop succeeds, the child is
   runnable with the parent's registers, except 0 in x0; each stack page from
   the stack pointer up is a fresh page of its own holding the parent's bytes;
   and the parent and every other environment are as they were.
   */
  lemma ForkClonesStack(s: KState)
    requires KInv(s) && CanAllocEnv(s) && StackPrivate(s) && ForkLoop(s).1 == Complete
    ensures var (s', ret) := SysFork(s);
            var e := s.envFree[0];
            && KInv(s') && Keeps(s, s', None) && s'.cur == s.cur
            && (forall d: EnvIx {:trigger s'.envs[d]} :: d != e ==> s'.envs[d] == s.envs[d])
            && s'.envs[e].status == EnvStatus.Runnable && s'.envs[e].tf == s.kframe.(x := s.kframe.x[0 := 0])
            && s'.envs[e].parent == s.envs[s.cur.value].id && s'.envs[e].pri == s.envs[s.cur.value].pri
            && s'.envs[e].pgdir.Some? && ret == AsInt(s'.envs[e].id)
            && forall j: nat {:trigger Page(j)} :: s.kframe.sp / BY2PG <= j < STACK_PAGES_END ==>
                 ForkedPage(s, s', s'.envs[e].pgdir.value, Page(j))
  {
    ForkGood(s);
    var _, _ := ForkBegin(s);
    var s', _ := ForkShape(s);
    ForkLoopClones(s);
    forall j: nat | s.kframe.sp / BY2PG <= j < STACK_PAGES_END ensures ForkedPage(s, s', s.mem.free[0], Page(j)) {
      PageIsPrivate(j);
      ForkedFromCloned(s, s', Page(j));
    }
  }

  /** The first page of the caller's stack that it does not map itself, or its end. */
  ghost function StackGap(s: KState): nat
    requires CanAllocEnv(s)
  {
    var k := s.kframe.sp / BY2PG;
    if k < STACK_PAGES_END then FirstGap(s.mem, RootOf(s, s.cur.value), k, STACK_PAGES_END) else k
  }

  /** Where a fork stops, and with how many free pages: the first goes to the root, the loop has the others. */
  ghost function ForkStop(s: KState): Stop
    requires CanAllocEnv(s)
  {
    var k := s.kframe.sp / BY2PG;
    if k < STACK_PAGES_END then StopsAt(StackGap(s), k, k, STACK_PAGES_END, |s.mem.free| - 1) else Stop(k, |s.mem.free| - 1)
  }

  /** The state in which fork's loop starts, and what its parts depend on. */
  lemma ForkRounds(s: KState) returns (m: Mem, gap: nat)
    requires KInv(s) && CanAllocEnv(s) && StackPrivate(s) && s.kframe.sp / BY2PG < STACK_PAGES_END
    ensures m == SetupVm(s.mem) && m.free == s.mem.free[1..] && gap == StackGap(s)
    ensures var p, k := RootOf(s, s.cur.value), s.kframe.sp / BY2PG;
            AtRound(m, p, s.mem.free[0], k, k, STACK_PAGES_END) && IsGap(m, p, k, STACK_PAGES_END, gap)
  {
    var p, k := RootOf(s, s.cur.value), s.kframe.sp / BY2PG;
    ForkStart(s);
    SetupRefines(s.mem);
    SetupShape(s.mem);
    m, gap := SetupVm(s.mem), StackGap(s);
    forall v | Private(v) ensures MissingTables(m, s.mem.free[0], v) == 2 { SetupMissing(s.mem, v); }
    FirstRound(m, p, s.mem.free[0], k, STACK_PAGES_END);
    assert IsRoot(s.mem, p);
    forall j: nat | k <= j < STACK_PAGES_END ensures Mapping(m, p, Page(j)) == Mapping(s.mem, p, Page(j)) { PageIsPrivate(j); }
  }

  /**
   The loop completes exactly when the caller maps its whole stack and the
   free list, besides the page for the root, is as long as PagesFor says. It
   faults exactly when it gets to an unmapped page with a free page left.
   */
  lemma ForkCompletes(s: KState)
    requires KInv(s) && CanAllocEnv(s) && StackPrivate(s)
    ensures var k := s.kframe.sp / BY2PG;
            ForkLoop(s).1 == Complete <==>
            RangeMapped(s.mem, RootOf(s, s.cur.value), k, STACK_PAGES_END) && |s.mem.free| >= 1 + PagesFor(k, STACK_PAGES_END)
    ensures ForkLoop(s).1 == Fault <==> ForkStop(s).page == StackGap(s) < STACK_PAGES_END && ForkStop(s).left > 0
    ensures ForkLoop(s).1 == OutOfPages <==> RunsShort(ForkStop(s), StackGap(s), STACK_PAGES_END)
  {
    var p, k := RootOf(s, s.cur.value), s.kframe.sp / BY2PG;
    if k < STACK_PAGES_END {
      var m, gap := ForkRounds(s);
      var stop := LoopEnds(m, p, s.mem.free[0], k, k, STACK_PAGES_END, gap);
      assert IsLoop(m, p, s.mem.free[0], k, STACK_PAGES_END, ForkLoop(s));
      StopsAtEnd(gap, k, STACK_PAGES_END, |m.free|);
    }
  }

  // -------- sys_mem_map and sys_ipc_can_send --------

  /** Page (a, u) of the state before is now also page (b, w), with one more reference unless it was there already. */
  ghost predicate Shared(m: Mem, m': Mem, a: nat, u: Vpn, b: nat, w: Vpn, perm: nat)
  {
    && Mapping(m, a, u).Some?
    && var p := Mapping(m, a, u).value.frame;
       && Mapping(m', b, w) == Some(Leaf(p, LeafAttrs(perm)))
       && Mapping(m', a, u).Some? && Mapping(m', a, u).value.frame == p
       && p < |m.ref| && p < |m'.ref|
       && m'.ref[p] == m.ref[p] + (if MapsPage(m, b, w, p) then 0 else 1)
  }

  /** No private mapping of any environment has changed. */
  ghost predicate NothingMapped(m: Mem, m': Mem)
  {
    forall x: nat, v {:trigger Mapping(m', x, v)} :: IsRoot(m, x) && Private(v) ==> Mapping(m', x, v) == Mapping(m, x, v)
  }

  lemma SharePage(m: Mem, a: nat, u: Vpn, b: nat, w: Vpn, perm: nat)
    requires Inv(m) && IsRoot(m, a) && IsRoot(m, b) && MayShare(m, a, u, b, w, perm) && PageLookup(m, a, u).Found?
    ensures var p := PageLookup(m, a, u).page;
            var (m', st) := PageInsert(m, b, p, w, perm);
            && (st == Ok || st == NoMem) && (st == Ok <==> MissingTables(m, b, w) <= |m.free|)
            && (st == Ok ==> Shared(m, m', a, u, b, w, perm))
            && (st == NoMem ==> NothingMapped(m, m') && p < |m'.ref| && m'.ref[p] == m.ref[p])
  {
    LookupRefines(m, a, u);
    FoundIsMappable(m, a, u);
    var p := PageLookup(m, a, u).page;
    InsertRefines(m, b, p, w, perm);
    InsertCounts(m, b, p, w, perm);
    ShareSource(m, PageInsert(m, b, p, w, perm).0, a, u, b, w, p, perm, PageInsert(m, b, p, w, perm).1);
  }

  lemma ShareSource(m: Mem, m': Mem, a: nat, u: Vpn, b: nat, w: Vpn, p: nat, perm: nat, st: Status)
    requires IsRoot(m, a) && IsRoot(m, b) && Private(u) && Private(w) && MapsPage(m, a, u, p)
    requires OnlyChanges(m, m', b, w, if st == Ok then Some(Leaf(p, LeafAttrs(perm))) else Mapping(m, b, w))
    ensures st == Ok ==> Mapping(m', b, w) == Some(Leaf(p, LeafAttrs(perm))) && MapsPage(m', a, u, p)
    ensures st == NoMem ==> NothingMapped(m, m')
  {
  }

  /** The source page is mapped, and the tables for the destination exist or can be had. */
  ghost predicate CanShare(m: Mem, a: nat, u: Vpn, b: nat, w: Vpn)
  {
    Mapping(m, a, u).Some? && MissingTables(m, b, w) <= |m.free|
  }

  /**
   sys_mem_map: when exactly it returns 0 and -E_BAD_ENV; on 0 the destination
   maps the source's page, on an error no mapping has changed.
   */
  lemma MemMapShares(s: KState, srcid: Word, srcva: Word, dstid: Word, dstva: Word, perm: Word)
    requires KInv(s) && s.cur.Some? && MemSafe(s, MemMap(srcid, srcva, dstid, dstva, perm))
    ensures var (s', ret) := SysMemMap(s, srcid, srcva, dstid, dstva, perm);
            var a, b := Envid2Env(s, srcid, true), Envid2Env(s, dstid, true);
            && s'.halted == s.halted && s'.envs == s.envs
            && (ret == -E_BAD_ENV <==> a == None || b == None)
            && (ret == 0 <==> a.Some? && b.Some? && perm % 2 == 1
                              && CanShare(s.mem, RootOf(s, a.value), VpnOf(srcva), RootOf(s, b.value), VpnOf(dstva)))
            && (ret == 0 ==>
                  && Shared(s.mem, s'.mem, RootOf(s, Envid2Env(s, srcid, true).value), VpnOf(srcva),
                            RootOf(s, Envid2Env(s, dstid, true).value), VpnOf(dstva), UInt(perm)))
            && (ret == -E_NO_MEM <==> a.Some? && b.Some?
                                      && (perm % 2 == 0 || !CanShare(s.mem, RootOf(s, a.value), VpnOf(srcva), RootOf(s, b.value), VpnOf(dstva))))
            && (ret != 0 ==> NothingMapped(s.mem, s'.mem))
            && s' == s.(mem := s'.mem)
            && Keeps(s, s', Target(s, MemMap(srcid, srcva, dstid, dstva, perm)))
  {
    MemMapGood(s, srcid, srcva, dstid, dstva, perm);
    if Envid2Env(s, srcid, true).Some? && Envid2Env(s, dstid, true).Some? && perm % 2 == 1 {
      var a, b := RootOf(s, Envid2Env(s, srcid, true).value), RootOf(s, Envid2Env(s, dstid, true).value);
      ResolvedIsLive(s, srcid, true);
      ResolvedIsLive(s, dstid, true);
      LookupRefines(s.mem, a, VpnOf(srcva));
      if PageLookup(s.mem, a, VpnOf(srcva)).Found? {
        SharePage(s.mem, a, VpnOf(srcva), b, VpnOf(dstva), UInt(perm));
      }
    }
  }

  lemma SendPageShares(s: KState, e: EnvIx, srcva: Word, perm: Word)
    requires KInv(s) && s.cur.Some? && s.envs[e].pgdir.Some? && srcva != 0
    requires MayShare(s.mem, RootOf(s, s.cur.value), VpnOf(srcva), RootOf(s, e), VpnOf(s.envs[e].ipcDstva), UInt(perm))
    ensures var (s', ret) := SendPage(s, e, srcva, perm);
            && s'.halted == s.halted && s'.envs == s.envs
            && (ret == 0 <==> CanShare(s.mem, RootOf(s, s.cur.value), VpnOf(srcva), RootOf(s, e), VpnOf(s.envs[e].ipcDstva)))
            && (ret == 0 ==> Shared(s.mem, s'.mem, RootOf(s, s.cur.value), VpnOf(srcva),
                                    RootOf(s, e), VpnOf(s.envs[e].ipcDstva), UInt(perm)))
            && (ret != 0 ==> NothingMapped(s.mem, s'.mem))
  {
    var a, b := RootOf(s, s.cur.value), RootOf(s, e);
    LookupRefines(s.mem, a, VpnOf(srcva));
    if PageLookup(s.mem, a, VpnOf(srcva)).Found? {
      SharePage(s.mem, a, VpnOf(srcva), b, VpnOf(s.envs[e].ipcDstva), UInt(perm));
    }
  }

  /** e waits for a message, and the page to send with it, if any, can be shared. */
  ghost predicate CanSend(s: KState, e: EnvIx, srcva: Word)
    requires s.cur.Some?
  {
    && Receiving(s, e) && srcva < UTOP
    && (srcva != 0 ==> CanShare(s.mem, RootOf(s, s.cur.value), VpnOf(srcva), RootOf(s, e), VpnOf(s.envs[e].ipcDstva)))
  }

  /** What a message makes of its receiver: runnable, out of its receive, with the message, and nothing else. */
  ghost predicate Woken(a: Env, b: Env, value: Word, from: Word, perm: Word)
  {
    && b.status == EnvStatus.Runnable && !b.ipcRecving && b.ipcValue == value && b.ipcFrom == from && b.ipcPerm == perm
    && b.id == a.id && b.parent == a.parent && b.tf == a.tf && b.pgdir == a.pgdir && b.pri == a.pri && b.runs == a.runs
    && b.ipcDstva == a.ipcDstva
  }

  /** The end of a send that gets as far as the page, by the outcome (p, r) of sharing it. */
  lemma SendEnds(s: KState, envid: Word, value: Word, srcva: Word, perm: Word, e: EnvIx) returns (s': KState, ret: int, p: KState, r: int)
    requires s.cur.Some? && Envid2Env(s, envid, false) == Some(e) && Receiving(s, e) && srcva < UTOP
    ensures (s', ret) == SysIpcCanSend(s, envid, value, srcva, perm) && (p, r) == SendPage(s, e, srcva, perm)
    ensures p == s.(mem := p.mem, halted := p.halted) && (r == 0 || r == -E_NO_MEM)
    ensures r != 0 || p.halted ==> s' == p && ret == r
    ensures r == 0 && !p.halted ==>
              && ret == 0 && s' == p.(envs := s'.envs) && s'.envs == s.envs[e := s'.envs[e]]
              && Woken(s.envs[e], s'.envs[e], value, s.envs[s.cur.value].id, perm)
  {
    p, r := SendPage(s, e, srcva, perm).0, SendPage(s, e, srcva, perm).1;
    s', ret := SysIpcCanSend(s, envid, value, srcva, perm).0, SysIpcCanSend(s, envid, value, srcva, perm).1;
  }

  /** A send that gets as far as the page. */
  lemma SendArrives(s: KState, envid: Word, value: Word, srcva: Word, perm: Word, e: EnvIx) returns (s': KState, ret: int)
    requires KInv(s) && s.cur.Some? && !s.halted && MemSafe(s, IpcCanSend(envid, value, srcva, perm))
    requires Envid2Env(s, envid, false) == Some(e) && Receiving(s, e) && srcva < UTOP
    ensures (s', ret) == SysIpcCanSend(s, envid, value, srcva, perm)
    ensures !s'.halted && s' == s.(mem := s'.mem, envs := s'.envs)
    ensures ret == 0 || ret == -E_NO_MEM
    ensures ret == 0 <==> CanSend(s, e, srcva)
    ensures ret == 0 ==>
              && s'.envs == s.envs[e := s'.envs[e]] && Woken(s.envs[e], s'.envs[e], value, s.envs[s.cur.value].id, perm)
              && (srcva == 0 ==> s'.mem == s.mem)
              && (srcva != 0 ==> Shared(s.mem, s'.mem, RootOf(s, s.cur.value), VpnOf(srcva),
                                        RootOf(s, e), VpnOf(s.envs[e].ipcDstva), UInt(perm)))
    ensures ret != 0 ==> s'.envs == s.envs && NothingMapped(s.mem, s'.mem)
  {
    var p, r;
    s', ret, p, r := SendEnds(s, envid, value, srcva, perm, e);
    if srcva != 0 {
      ResolvedIsLive(s, envid, false);
      SendPageShares(s, e, srcva, perm);
    }
  }

  /**
   sys_ipc_can_send, with the exact condition of each of its four answers: on
   success the blocked receiver is runnable with value, sender and permission
   delivered, and shares the sender's page if one was named; a failing send
   leaves every environment and every mapping alone.
   */
  lemma SendDelivers(s: KState, envid: Word, value: Word, srcva: Word, perm: Word)
    requires KInv(s) && s.cur.Some? && !s.halted && MemSafe(s, IpcCanSend(envid, value, srcva, perm))
    ensures var (s', ret) := SysIpcCanSend(s, envid, value, srcva, perm);
            && !s'.halted
            && (ret == -E_BAD_ENV <==> Envid2Env(s, envid, false) == None)
            && (ret == -E_IPC_NOT_RECV <==> Envid2Env(s, envid, false).Some? && !Receiving(s, Envid2Env(s, envid, false).value))
            && (ret == 0 <==> Envid2Env(s, envid, false).Some? && CanSend(s, Envid2Env(s, envid, false).value, srcva))
            && (ret == 0 ==>
                  && Envid2Env(s, envid, false).Some?
                  && var e := Envid2Env(s, envid, false).value;
                     && s.envs[e].status == EnvStatus.NotRunnable && s.envs[e].ipcRecving
                     && s'.envs == s.envs[e := s'.envs[e]] && Woken(s.envs[e], s'.envs[e], value, s.envs[s.cur.value].id, perm)
                     && (srcva == 0 ==> s'.mem == s.mem)
                     && (srcva != 0 ==> Shared(s.mem, s'.mem, RootOf(s, s.cur.value), VpnOf(srcva),
                                               RootOf(s, e), VpnOf(s.envs[e].ipcDstva), UInt(perm))))
            && (ret == -E_NO_MEM <==> Envid2Env(s, envid, false).Some? && Receiving(s, Envid2Env(s, envid, false).value)
                                      && !CanSend(s, Envid2Env(s, envid, false).value, srcva))
            && (ret != 0 ==> s'.envs == s.envs && NothingMapped(s.mem, s'.mem))
            && s' == s.(mem := s'.mem, envs := s'.envs)
            && Keeps(s, s', Target(s, IpcCanSend(envid, value, srcva, perm)))
  {
    IpcSendGood(s, envid, value, srcva, perm);
    if Envid2Env(s, envid, false).Some? {
      var e := Envid2Env(s, envid, false).value;
      if srcva < UTOP && Receiving(s, e) { var _, _ := SendArrives(s, envid, value, srcva, perm, e); }
    }
  }

  // -------- sys_mem_alloc --------

  /** A page nobody can reach: not free, not mapped, not a table. */
  ghost predicate Stranded(m: Mem, p: nat)
  {
    p < |m.role| && p < |m.ref| && p !in m.free && m.role[p] == Plain && m.ref[p] == 0
  }

  lemma MissingAfterAlloc(m: Mem, r: nat, v: Vpn)
    requires Inv(m) && IsRoot(m, r) && Private(v) && m.free != []
    ensures MissingTables(TakeFree(m), r, v) == MissingTables(m, r, v)
  {
    TakeFreeShape(m);
    WalkLevels(m, r, v);
    var s0 := Slot(r, v.u);
    assert Counted(TakeFree(m), s0) <==> Counted(m, s0);
    if IsValid(At(m, s0)) {
      var s1 := Slot(FrameOf(At(m, s0)), v.m);
      assert Counted(TakeFree(m), s1) <==> Counted(m, s1);
    }
  }

  lemma AllocStrands(m: Mem)
    requires Inv(m) && m.free != []
    ensures Stranded(TakeFree(m), m.free[0])
  {
    AllocRefines(m);
    assert m.free[0] in m.free;
  }

  /** page_insert of an unused page: mapped once, or left over when the tables cannot be had. */
  lemma InsertOrStrand(m: Mem, r: nat, p: nat, v: Vpn, perm: nat)
    requires CanInsert(m, r, p, v, perm) && Stranded(m, p) && (forall s :: !Points(m, s, p))
    ensures var (m', st) := PageInsert(m, r, p, v, perm);
            && (st == Ok || st == NoMem) && (st == NoMem <==> |m.free| < MissingTables(m, r, v))
            && (st == Ok ==> Mapping(m', r, v) == Some(Leaf(p, LeafAttrs(perm))) && p < |m'.ref| && m'.ref[p] == 1)
            && (st == NoMem ==> Stranded(m', p))
  {
    InsertRefines(m, r, p, v, perm);
    InsertCounts(m, r, p, v, perm);
    WalkLevels(m, r, v);
    LookupRefines(m, r, v);
    assert Holds(m, p);
    if MapsPage(m, r, v, p) {
      assert Points(m, LeafSlot(m, r, v).value, p);
    }
    if |m.free| < MissingTables(m, r, v) {
      assert PageInsert(m, r, p, v, perm) == InsertFresh(m, r, p, v, perm);
      InsertFreshCounts(m, r, p, v, perm);
    }
  }

  /**
   sys_mem_alloc takes its page before it looks at the environment: exactly
   when the environment does not resolve, or the tables for va cannot be had
   afterwards, the page is stranded. Otherwise it is mapped at va, once.
   */
  lemma MemAllocStrands(s: KState, envid: Word, va: Word, perm: Word)
    requires KInv(s) && s.cur.Some? && MemSafe(s, MemAlloc(envid, va, perm)) && perm % 2 == 1 && s.mem.free != []
    ensures var (s', ret) := SysMemAlloc(s, envid, va, perm);
            var p := s.mem.free[0];
            var e := Envid2Env(s, envid, true);
            && (Stranded(s'.mem, p) <==> e == None || |s.mem.free| - 1 < MissingTables(s.mem, RootOf(s, e.value), VpnOf(va)))
            && (Stranded(s'.mem, p) <==> ret != 0)
            && (ret == 0 ==> Mapping(s'.mem, RootOf(s, e.value), VpnOf(va)) == Some(Leaf(p, LeafAttrs(UInt(perm)))))
  {
    AllocRefines(s.mem);
    AllocStrands(s.mem);
    var e := Envid2Env(s, envid, true);
    if e.Some? {
      ResolvedIsLive(s, envid, true);
      MissingAfterAlloc(s.mem, RootOf(s, e.value), VpnOf(va));
      forall x ensures !Points(TakeFree(s.mem), x, s.mem.free[0]) { NoPointer(s.mem, x); }
      InsertOrStrand(TakeFree(s.mem), RootOf(s, e.value), s.mem.free[0], VpnOf(va), UInt(perm));
    }
  }

  lemma NoPointer(m: Mem, x: Slot)
    requires Inv(m) && m.free != []
    ensures !Points(TakeFree(m), x, m.free[0])
  {
    TakeFreeShape(m);
    assert m.free[0] in m.free;
    Unreferenced(m, m.free[0], x);
  }

  /** Nobody else maps p, and r maps it at v only. */
  ghost predicate SoleAt(m: Mem, r: nat, v: Vpn, p: nat)
  {
    MapsPage(m, r, v, p) && forall x: nat, y {:trigger MapsPage(m, x, y, p)} :: IsRoot(m, x) && Private(y) && MapsPage(m, x, y, p) ==> x == r && y == v
  }

  /** A page taken off the free list and inserted: zeroed, mapped here alone, every other mapping as it was. */
  lemma AllocInserts(m: Mem, r: nat, v: Vpn, perm: nat)
    requires Inv(m) && m.free != [] && IsRoot(m, r) && MaySet(TakeFree(m), r, m.free[0], v, perm)
    ensures var p := m.free[0];
            var (m', st) := PageInsert(TakeFree(m), r, p, v, perm);
            && Inv(m') && (st == Ok || st == NoMem) && (st == Ok <==> MissingTables(m, r, v) < |m.free|)
            && OnlyChanges(m, m', r, v, if st == Ok then Some(Leaf(p, LeafAttrs(perm))) else Mapping(m, r, v))
            && (st == Ok ==> p < |m'.frames| && m'.frames[p] == ZeroFrame() && SoleAt(m', r, v, p))
  {
    var p, m1 := m.free[0], TakeFree(m);
    AllocRefines(m);
    MissingAfterAlloc(m, r, v);
    InsertRefines(m1, r, p, v, perm);
    var (m', st) := PageInsert(m1, r, p, v, perm);
    assert Mapping(m1, r, v) == Mapping(m, r, v);
    OnlyChangesAfter(m, m1, m', r, v, if st == Ok then Some(Leaf(p, LeafAttrs(perm))) else Mapping(m, r, v));
    if st == Ok {
      assert Holds(m1, p);
      SoleAfterAlloc(m, m1, m', r, v, p);
    }
  }

  lemma SoleAfterAlloc(m: Mem, m1: Mem, m': Mem, r: nat, v: Vpn, p: nat)
    requires Inv(m) && SameRoots(m, m1) && SameRoots(m1, m') && IsRoot(m, r) && Private(v)
    requires (forall s :: !Points(m, s, p)) && MapsPage(m', r, v, p)
    requires OnlyChanges(m, m', r, v, Mapping(m', r, v))
    ensures SoleAt(m', r, v, p)
  {
    forall x: nat, y | IsRoot(m', x) && Private(y) && MapsPage(m', x, y, p) ensures x == r && y == v {
      assert IsRoot(m1, x);
      if x != r || y != v {
        WalkLevels(m, x, y);
        assert Mapping(m', x, y) == Mapping(m, x, y);
        assert Points(m, LeafSlot(m, x, y).value, p);
      }
    }
  }

  /**
   sys_mem_alloc, with the exact condition of its answers: on 0 the page is
   zeroed, at va, and mapped nowhere else; otherwise no mapping changes.
   */
  lemma MemAllocGives(s: KState, envid: Word, va: Word, perm: Word)
    requires KInv(s) && s.cur.Some? && MemSafe(s, MemAlloc(envid, va, perm))
    ensures var (s', ret) := SysMemAlloc(s, envid, va, perm);
            var e := Envid2Env(s, envid, true);
            && s'.halted == s.halted && s'.envs == s.envs
            && (ret == -E_INVAL <==> perm % 2 == 0)
            && (ret == -E_BAD_ENV <==> perm % 2 == 1 && s.mem.free != [] && e == None)
            && (ret == 0 <==> perm % 2 == 1 && e.Some? && MissingTables(s.mem, RootOf(s, e.value), VpnOf(va)) < |s.mem.free|)
            && (ret == -E_NO_MEM <==> perm % 2 == 1 && (s.mem.free == [] || (e.Some? && |s.mem.free| <= MissingTables(s.mem, RootOf(s, e.value), VpnOf(va)))))
            && s' == s.(mem := s'.mem)
            && (ret == 0 ==>
                  && var p := s.mem.free[0];
                  && p < |s'.mem.frames| && s'.mem.frames[p] == ZeroFrame()
                  && SoleAt(s'.mem, RootOf(s, e.value), VpnOf(va), p)
                  && OnlyChanges(s.mem, s'.mem, RootOf(s, e.value), VpnOf(va), Some(Leaf(p, LeafAttrs(UInt(perm))))))
            && (ret != 0 ==> NothingMapped(s.mem, s'.mem))
  {
    var e := Envid2Env(s, envid, true);
    if perm % 2 == 1 && s.mem.free != [] {
      AllocRefines(s.mem);
      forall x: nat, v | IsRoot(s.mem, x) && Private(v) ensures Mapping(TakeFree(s.mem), x, v) == Mapping(s.mem, x, v) { }
      if e.Some? {
        ResolvedIsLive(s, envid, true);
        AllocInserts(s.mem, RootOf(s, e.value), VpnOf(va), UInt(perm));
      }
    }
  }

  // -------- sys_mem_unmap --------

  /** sys_mem_unmap: the page is gone from one map, its frame loses one reference and is free again with the last. */
  lemma MemUnmapRemoves(s: KState, envid: Word, va: Word)
    requires KInv(s) && s.cur.Some? && MemSafe(s, MemUnmap(envid, va))
    ensures var (s', ret) := SysMemUnmap(s, envid, va);
            var e := Envid2Env(s, envid, true);
            && s' == s.(mem := s'.mem)
            && ret == (if e == None then -E_BAD_ENV else 0) && (e == None ==> s' == s)
            && (e.Some? ==> OnlyChanges(s.mem, s'.mem, RootOf(s, e.value), VpnOf(va), None))
            && (e.Some? && Mapping(s.mem, RootOf(s, e.value), VpnOf(va)) == None ==> s' == s)
            && (e.Some? && Mapping(s.mem, RootOf(s, e.value), VpnOf(va)).Some? ==>
                  && var p := Mapping(s.mem, RootOf(s, e.value), VpnOf(va)).value.frame;
                  && p < |s.mem.ref| && s.mem.ref[p] >= 1 && s'.mem.ref == s.mem.ref[p := s.mem.ref[p] - 1]
                  && s'.mem.free == (if s.mem.ref[p] == 1 then [p] + s.mem.free else s.mem.free))
  {
    if Envid2Env(s, envid, true).Some? {
      ResolvedIsLive(s, envid, true);
      RemoveRefines(s.mem, RootOf(s, Envid2Env(s, envid, true).value), VpnOf(va));
    }
  }
}
