/**
 What every trap keeps, and what it leaves alone: the global memory invariant
 together with one private table tree per environment, over every run of
 mapping calls, forks, scheduling and IPC.
 */
module Isolation {
  import opened Bits
  import opened Mmu
  import opened Memory
  import opened MemoryProofs
  import opened PageTable
  import opened AddressSpace
  import opened Sched
  import opened Kernel

  ghost predicate EnvsOk(s: KState)
  {
    && (forall e: EnvIx {:trigger s.envs[e].pgdir} :: s.envs[e].pgdir.Some? ==> IsRoot(s.mem, s.envs[e].pgdir.value))
    && (forall e: EnvIx, d: EnvIx {:trigger s.envs[e].pgdir, s.envs[d].pgdir} ::
          e != d && s.envs[e].pgdir.Some? ==> s.envs[e].pgdir != s.envs[d].pgdir)
    && (forall e: EnvIx {:trigger s.envs[e].status} :: s.envs[e].status != EnvStatus.Free ==> s.envs[e].pgdir.Some?)
    && (s.cur.Some? ==> s.envs[s.cur.value].pgdir.Some?)
  }

  ghost predicate FreeEnvsOk(s: KState)
  {
    && (forall i, j :: 0 <= i < j < |s.envFree| ==> s.envFree[i] != s.envFree[j])
    && (forall e {:trigger e in s.envFree} :: e in s.envFree ==> s.envs[e].status == EnvStatus.Free && s.envs[e].pgdir == None)
  }

  ghost predicate KInv(s: KState)
  {
    Inv(s.mem) && EnvsOk(s) && FreeEnvsOk(s)
  }

  /** Which private mappings a step may change: none, those of one page, or all those below one root. */
  datatype Scope = Nowhere | OnePage(root: nat, page: Vpn) | WholeSpace(root: nat)

  predicate InScope(t: Scope, r: nat, v: Vpn)
  {
    match t
    case Nowhere => false
    case OnePage(root, page) => r == root && v == page
    case WholeSpace(root) => r == root
  }

  /** Roots stay roots, data in use keeps its contents, and mappings out of scope stay. */
  ghost predicate MemStep(m: Mem, m': Mem, t: Scope)
    requires Sizes(m)
  {
    && Inv(m')
    && |m'.frames| == |m.frames|
    && (forall x: nat {:trigger IsRoot(m', x)} :: IsRoot(m, x) ==> IsRoot(m', x))
    && (forall x: nat, v {:trigger Mapping(m', x, v)} :: IsRoot(m, x) && !InScope(t, x, v) && Private(v) ==> Mapping(m', x, v) == Mapping(m, x, v))
    && (forall f: nat {:trigger m'.frames[f]} :: Holds(m, f) ==> m'.frames[f] == m.frames[f])
  }

  lemma MemStepSame(m: Mem)
    requires Inv(m)
    ensures MemStep(m, m, Nowhere)
  {
  }

  lemma StepOf(m: Mem, m': Mem, r: nat, v: Vpn, now: Option<Leaf>)
    requires Inv(m) && Inv(m') && DataKept(m, m') && OnlyChanges(m, m', r, v, now)
    ensures MemStep(m, m', OnePage(r, v))
  {
  }

  lemma AllocStep(m: Mem)
    requires Inv(m) && m.free != []
    ensures MemStep(m, TakeFree(m), Nowhere)
  {
    AllocRefines(m);
    StepOfKept(m, TakeFree(m));
  }

  lemma StepOfKept(m: Mem, m': Mem)
    requires Inv(m) && Inv(m') && DataKept(m, m') && MappingsKept(m, m')
    ensures MemStep(m, m', Nowhere)
  {
  }

  lemma InsertStep(m: Mem, r: nat, p: nat, v: Vpn, perm: nat) returns (m': Mem, st: Status)
    requires CanInsert(m, r, p, v, perm)
    ensures (m', st) == PageInsert(m, r, p, v, perm)
    ensures MemStep(m, m', OnePage(r, v)) && st != Panic
  {
    InsertRefines(m, r, p, v, perm);
    m', st := PageInsert(m, r, p, v, perm).0, PageInsert(m, r, p, v, perm).1;
    StepOf(m, m', r, v, if st == Ok then Some(Leaf(p, LeafAttrs(perm))) else Mapping(m, r, v));
  }

  lemma RemoveStep(m: Mem, r: nat, v: Vpn) returns (m': Mem)
    requires Inv(m) && IsRoot(m, r) && Private(v)
    ensures PageRemove(m, r, v) == (m', Ok) && MemStep(m, m', OnePage(r, v))
  {
    RemoveRefines(m, r, v);
    m' := PageRemove(m, r, v).0;
    StepOf(m, m', r, v, None);
  }

  // -------- the environment table --------

  /** A change to one environment that keeps its page directory and does not revive a free slot. */
  lemma PutEnvInv(s: KState, e: EnvIx, env: Env)
    requires KInv(s) && env.pgdir == s.envs[e].pgdir
    requires env.status != EnvStatus.Free ==> env.pgdir.Some?
    requires e in s.envFree ==> env.status == EnvStatus.Free
    ensures KInv(PutEnv(s, e, env))
  {
  }

  lemma NewMemInv(s: KState, m: Mem, t: Scope)
    requires KInv(s) && MemStep(s.mem, m, t)
    ensures KInv(s.(mem := m))
  {
  }

  lemma ResolvedIsLive(s: KState, envid: Word, checkperm: bool)
    requires KInv(s) && s.cur.Some? && Envid2Env(s, envid, checkperm).Some?
    ensures var e := Envid2Env(s, envid, checkperm).value;
            && s.envs[e].pgdir.Some? && RootOf(s, e) == s.envs[e].pgdir.value && IsRoot(s.mem, RootOf(s, e)) && e !in s.envFree
  {
  }

  lemma EnvRunInv(s: KState, e: EnvIx)
    requires KInv(s) && s.envs[e].pgdir.Some?
    ensures KInv(EnvRun(s, e)) && EnvRun(s, e).mem == s.mem && SameSpaces(s, EnvRun(s, e))
  {
  }

  /** No environment's page directory changes, nor does memory. */
  ghost predicate SameSpaces(s: KState, s': KState)
  {
    s'.mem == s.mem && forall e: EnvIx {:trigger s'.envs[e].pgdir} :: s'.envs[e].pgdir == s.envs[e].pgdir
  }

  lemma SchedInv(s: KState)
    requires KInv(s)
    ensures KInv(SchedYield(s)) && SameSpaces(s, SchedYield(s))
  {
    PickIsNearest(Statuses(s), s.pos);
    match Pick(Statuses(s), s.pos) {
      case None =>
      case Some(e) =>
        assert s.envs[e].status == EnvStatus.Runnable;
        EnvRunInv(s.(pos := e), e);
    }
  }

  // -------- one system call --------

  /** One page of one environment, or an environment with all it has. */
  datatype Place = Place(env: EnvIx, page: Vpn) | Whole(env: EnvIx)

  function PlaceAt(e: Option<EnvIx>, va: Word): Option<Place>
  {
    match e case None => None case Some(d) => Some(Place(d, VpnOf(va)))
  }

  predicate Receiving(s: KState, e: EnvIx)
  {
    s.envs[e].status == EnvStatus.NotRunnable && s.envs[e].ipcRecving
  }

  /**
   The page whose mapping a call may change, or the environment it destroys. A
   call that is refused for its arguments, and a send without a page, change
   none.
   */
  function Target(s: KState, call: Call): Option<Place>
    requires s.cur.Some?
  {
    match call
    case MemAlloc(envid, va, perm) => if perm % 2 == 0 then None else PlaceAt(Envid2Env(s, envid, true), va)
    case MemMap(srcid, _, dstid, dstva, perm) =>
      if perm % 2 == 0 || Envid2Env(s, srcid, true) == None then None else PlaceAt(Envid2Env(s, dstid, true), dstva)
    case MemUnmap(envid, va) => PlaceAt(Envid2Env(s, envid, true), va)
    case IpcCanSend(envid, _, srcva, _) =>
      (match Envid2Env(s, envid, false)
       case None => None
       case Some(e) => if srcva == 0 || srcva >= UTOP || !Receiving(s, e) then None else PlaceAt(Some(e), s.envs[e].ipcDstva))
    case EnvDestroy(envid, _) => (match Envid2Env(s, envid, true) case None => None case Some(e) => Some(Whole(e)))
    case _ => None
  }

  function ScopeOf(s: KState, t: Option<Place>): Scope
  {
    match t
    case Some(Place(e, v)) => OnePage(RootOf(s, e), v)
    case _ => Nowhere
  }

  /** Page p may be entered at v: a private page, and an insertion that keeps the counts. */
  ghost predicate MaySet(m: Mem, r: nat, p: nat, v: Vpn, perm: nat) { Private(v) && Fits(m, r, p, v, perm) }

  /** The page found at (a, u), if any, may be entered at (b, w). */
  ghost predicate MayShare(m: Mem, a: nat, u: Vpn, b: nat, w: Vpn, perm: nat)
  {
    Private(u) && (PageLookup(m, a, u).Found? ==> MaySet(m, b, PageLookup(m, a, u).page, w, perm))
  }

  /** The caller's stack pointer lies in a private slot, or above the stack. */
  predicate StackPrivate(s: KState)
  {
    s.kframe.sp / BY2PG < STACK_PAGES_END ==> 0x8_0000 <= s.kframe.sp / BY2PG
  }

  /** The sweep of env_free, which starts at slot 3, finds nothing to visit. */
  ghost predicate NothingSwept(m: Mem, r: nat)
  {
    forall i {:trigger Slot(r, i)} :: 3 <= i < ENTRIES ==> !IsValid(At(m, Slot(r, i)))
  }

  /**
   Calls for which the claims are made: those that do not get as far as the
   page tables, and those that name private addresses there and keep the counts
   when they insert. A destroy is one of them when its sweep visits nothing.
   */
  ghost predicate MemSafe(s: KState, call: Call)
    requires s.cur.Some?
  {
    match call
    case MemAlloc(envid, va, perm) =>
      var e := Envid2Env(s, envid, true);
      perm % 2 == 1 && s.mem.free != [] && e.Some? ==>
        MaySet(TakeFree(s.mem), RootOf(s, e.value), s.mem.free[0], VpnOf(va), UInt(perm))
    case MemMap(srcid, srcva, dstid, dstva, perm) =>
      var a, b := Envid2Env(s, srcid, true), Envid2Env(s, dstid, true);
      perm % 2 == 1 && a.Some? && b.Some? ==>
        MayShare(s.mem, RootOf(s, a.value), VpnOf(srcva), RootOf(s, b.value), VpnOf(dstva), UInt(perm))
    case MemUnmap(envid, va) => Envid2Env(s, envid, true).Some? ==> Private(VpnOf(va))
    case Fork => s.envFree != [] && s.mem.free != [] ==> StackPrivate(s)
    case IpcCanSend(envid, _, srcva, perm) =>
      var e := Envid2Env(s, envid, false);
      e.Some? && Receiving(s, e.value) && srcva != 0 && srcva < UTOP ==>
        MayShare(s.mem, RootOf(s, s.cur.value), VpnOf(srcva), RootOf(s, e.value), VpnOf(s.envs[e.value].ipcDstva), UInt(perm))
    case EnvDestroy(envid, after) =>
      var e := Envid2Env(s, envid, true);
      e.Some? ==> after == s.mem && NothingSwept(s.mem, RootOf(s, e.value))
    case _ => true
  }

  /** Every environment but a destroyed one keeps its page directory and all its private mappings but t; data in use keeps its contents. */
  ghost predicate Keeps(s: KState, s': KState, t: Option<Place>)
    requires Sizes(s.mem)
  {
    && (forall e: EnvIx {:trigger s'.envs[e].pgdir} :: s.envs[e].pgdir.Some? && t != Some(Whole(e)) ==> s'.envs[e].pgdir == s.envs[e].pgdir)
    && MemStep(s.mem, s'.mem, ScopeOf(s, t))
  }

  ghost predicate GoodStep(s: KState, s': KState, t: Option<Place>)
    requires Sizes(s.mem)
  {
    KInv(s') && Keeps(s, s', t)
  }

  lemma InsertCall(s: KState, e: EnvIx, p: nat, v: Vpn, perm: nat)
    requires KInv(s) && s.envs[e].pgdir.Some?
    requires CanInsert(s.mem, RootOf(s, e), p, v, perm)
    ensures GoodStep(s, AfterInsert(s, PageInsert(s.mem, RootOf(s, e), p, v, perm)).0, Some(Place(e, v)))
  {
    var m', st := InsertStep(s.mem, RootOf(s, e), p, v, perm);
    NewMemInv(s, m', OnePage(RootOf(s, e), v));
  }

  /** A page found by lookup in a private slot may be mapped again. */
  lemma FoundIsMappable(m: Mem, r: nat, v: Vpn)
    requires Inv(m) && IsRoot(m, r) && Private(v) && PageLookup(m, r, v).Found?
    ensures Mappable(m, PageLookup(m, r, v).page)
  {
    LookupRefines(m, r, v);
    MappedFrame(m, r, v);
    var p := PageLookup(m, r, v).page;
    assert m.ref[p] >= 1;
  }

  lemma MemAllocGood(s: KState, envid: Word, va: Word, perm: Word)
    requires KInv(s) && s.cur.Some? && MemSafe(s, MemAlloc(envid, va, perm))
    ensures GoodStep(s, SysMemAlloc(s, envid, va, perm).0, Target(s, MemAlloc(envid, va, perm)))
  {
    MemStepSame(s.mem);
    if perm % 2 != 0 && s.mem.free != [] {
      var m1 := TakeFree(s.mem);
      AllocRefines(s.mem);
      AllocStep(s.mem);
      NewMemInv(s, m1, Nowhere);
      var s1 := s.(mem := m1);
      if Envid2Env(s1, envid, true).Some? {
        var e := Envid2Env(s1, envid, true).value;
        ResolvedIsLive(s1, envid, true);
        InsertCall(s1, e, s.mem.free[0], VpnOf(va), UInt(perm));
        var s2 := SysMemAlloc(s, envid, va, perm).0;
        KeepsAfterAlloc(s, s1, s2, Place(e, VpnOf(va)));
      }
    }
  }

  lemma KeepsAfterAlloc(s: KState, s1: KState, s2: KState, t: Place)
    requires KInv(s) && KInv(s1) && s1 == s.(mem := s1.mem) && s.mem.free != [] && s1.mem == TakeFree(s.mem)
    requires Keeps(s1, s2, Some(t))
    ensures Keeps(s, s2, Some(t))
  {
    AllocRefines(s.mem);
    AllocStep(s.mem);
    forall x: nat, v | IsRoot(s.mem, x) && !InScope(ScopeOf(s, Some(t)), x, v) && Private(v) ensures Mapping(s2.mem, x, v) == Mapping(s.mem, x, v) {
      assert IsRoot(s1.mem, x);
      assert Mapping(s1.mem, x, v) == Mapping(s.mem, x, v);
    }
    forall x: nat | IsRoot(s.mem, x) ensures IsRoot(s2.mem, x) { assert IsRoot(s1.mem, x); }
    forall f: nat | Holds(s.mem, f) ensures s2.mem.frames[f] == s.mem.frames[f] {
      assert Holds(s1.mem, f);
    }
  }

  /** Mapping a page found at (a, u) of one environment into another. */
  lemma ShareCall(s: KState, a: nat, u: Vpn, b: EnvIx, w: Vpn, perm: nat)
    requires KInv(s) && IsRoot(s.mem, a) && s.envs[b].pgdir.Some?
    requires MayShare(s.mem, a, u, RootOf(s, b), w, perm) && PageLookup(s.mem, a, u).Found?
    ensures GoodStep(s, AfterInsert(s, PageInsert(s.mem, RootOf(s, b), PageLookup(s.mem, a, u).page, w, perm)).0, Some(Place(b, w)))
  {
    FoundIsMappable(s.mem, a, u);
    InsertCall(s, b, PageLookup(s.mem, a, u).page, w, perm);
  }

  lemma MemMapGood(s: KState, srcid: Word, srcva: Word, dstid: Word, dstva: Word, perm: Word)
    requires KInv(s) && s.cur.Some? && MemSafe(s, MemMap(srcid, srcva, dstid, dstva, perm))
    ensures GoodStep(s, SysMemMap(s, srcid, srcva, dstid, dstva, perm).0, Target(s, MemMap(srcid, srcva, dstid, dstva, perm)))
  {
    MemStepSame(s.mem);
    if Envid2Env(s, srcid, true).Some? && Envid2Env(s, dstid, true).Some? && perm % 2 == 1 {
      var a, b := Envid2Env(s, srcid, true).value, Envid2Env(s, dstid, true).value;
      ResolvedIsLive(s, srcid, true);
      ResolvedIsLive(s, dstid, true);
      LookupRefines(s.mem, RootOf(s, a), VpnOf(srcva));
      if PageLookup(s.mem, RootOf(s, a), VpnOf(srcva)).Found? {
        ShareCall(s, RootOf(s, a), VpnOf(srcva), b, VpnOf(dstva), UInt(perm));
      }
    }
  }

  lemma MemUnmapGood(s: KState, envid: Word, va: Word)
    requires KInv(s) && s.cur.Some? && MemSafe(s, MemUnmap(envid, va))
    ensures GoodStep(s, SysMemUnmap(s, envid, va).0, Target(s, MemUnmap(envid, va)))
  {
    MemStepSame(s.mem);
    if Envid2Env(s, envid, true).Some? {
      var e := Envid2Env(s, envid, true).value;
      ResolvedIsLive(s, envid, true);
      var m' := RemoveStep(s.mem, RootOf(s, e), VpnOf(va));
      NewMemInv(s, m', OnePage(RootOf(s, e), VpnOf(va)));
    }
  }

  lemma SetStatusGood(s: KState, envid: Word, status: Word)
    requires KInv(s) && s.cur.Some?
    ensures GoodStep(s, SysSetEnvStatus(s, envid, status).0, None)
  {
    MemStepSame(s.mem);
    if StatusOf(status).Some? && Envid2Env(s, envid, false).Some? {
      var e := Envid2Env(s, envid, false).value;
      ResolvedIsLive(s, envid, false);
      PutEnvInv(s, e, s.envs[e].(status := StatusOf(status).value));
    }
  }

  lemma SchedGood(s: KState, s1: KState)
    requires KInv(s) && KInv(s1) && SameSpaces(s, s1)
    ensures GoodStep(s, SchedYield(s1), None)
  {
    MemStepSame(s.mem);
    SchedInv(s1);
  }

  lemma IpcRecvGood(s: KState, dstva: Word)
    requires KInv(s) && s.cur.Some?
    ensures GoodStep(s, SysIpcRecv(s, dstva).0, None)
  {
    MemStepSame(s.mem);
    if dstva < UTOP {
      var c := s.cur.value;
      var env := s.envs[c].(status := EnvStatus.NotRunnable, ipcRecving := true, ipcDstva := dstva);
      assert c !in s.envFree;
      PutEnvInv(s, c, env);
      SchedGood(s, PutEnv(s, c, env).(tframe := s.kframe));
    }
  }

  lemma SendPageGood(s: KState, e: EnvIx, srcva: Word, perm: Word)
    requires KInv(s) && s.cur.Some? && s.envs[e].pgdir.Some?
    requires srcva != 0 ==> MayShare(s.mem, RootOf(s, s.cur.value), VpnOf(srcva), RootOf(s, e), VpnOf(s.envs[e].ipcDstva), UInt(perm))
    ensures GoodStep(s, SendPage(s, e, srcva, perm).0, if srcva == 0 then None else PlaceAt(Some(e), s.envs[e].ipcDstva))
    ensures SendPage(s, e, srcva, perm).0.envs == s.envs && SendPage(s, e, srcva, perm).0.envFree == s.envFree
  {
    MemStepSame(s.mem);
    if srcva != 0 {
      var r := RootOf(s, s.cur.value);
      LookupRefines(s.mem, r, VpnOf(srcva));
      if PageLookup(s.mem, r, VpnOf(srcva)).Found? {
        ShareCall(s, r, VpnOf(srcva), e, VpnOf(s.envs[e].ipcDstva), UInt(perm));
      }
    }
  }

  /** The ways sys_ipc_can_send can leave the state. */
  lemma SendOutcomes(s: KState, envid: Word, value: Word, srcva: Word, perm: Word, e: EnvIx) returns (s': KState)
    requires s.cur.Some? && Envid2Env(s, envid, false) == Some(e)
    ensures s' == SysIpcCanSend(s, envid, value, srcva, perm).0
    ensures !Receiving(s, e) || srcva >= UTOP ==> s' == s
    ensures s' == s || s' == SendPage(s, e, srcva, perm).0 || s' == WithMessage(s, SendPage(s, e, srcva, perm).0, e, value, perm)
  {
    s' := SysIpcCanSend(s, envid, value, srcva, perm).0;
  }

  function WithMessage(s: KState, s1: KState, e: EnvIx, value: Word, perm: Word): KState
    requires s.cur.Some?
  {
    PutEnv(s1, e, Delivered(s1.envs[e], value, s1.envs[s.cur.value].id, perm))
  }

  lemma MessageGood(s: KState, s1: KState, e: EnvIx, value: Word, perm: Word, t: Option<Place>)
    requires KInv(s) && s.cur.Some? && s.envs[e].pgdir.Some? && e !in s.envFree
    requires GoodStep(s, s1, t) && s1.envs == s.envs && s1.envFree == s.envFree
    ensures GoodStep(s, WithMessage(s, s1, e, value, perm), t)
  {
    PutEnvInv(s1, e, Delivered(s1.envs[e], value, s1.envs[s.cur.value].id, perm));
  }

  lemma IpcSendGood(s: KState, envid: Word, value: Word, srcva: Word, perm: Word)
    requires KInv(s) && s.cur.Some? && MemSafe(s, IpcCanSend(envid, value, srcva, perm))
    ensures GoodStep(s, SysIpcCanSend(s, envid, value, srcva, perm).0, Target(s, IpcCanSend(envid, value, srcva, perm)))
  {
    MemStepSame(s.mem);
    if Envid2Env(s, envid, false).Some? {
      var e := Envid2Env(s, envid, false).value;
      var _ := SendOutcomes(s, envid, value, srcva, perm, e);
      if Receiving(s, e) && srcva < UTOP {
        ResolvedIsLive(s, envid, false);
        SendPageGood(s, e, srcva, perm);
        MessageGood(s, SendPage(s, e, srcva, perm).0, e, value, perm, Target(s, IpcCanSend(envid, value, srcva, perm)));
        StaysPut(s, Target(s, IpcCanSend(envid, value, srcva, perm)));
      }
    }
  }

  lemma StaysPut(s: KState, t: Option<Place>)
    requires KInv(s)
    ensures GoodStep(s, s, t)
  {
  }

  // -------- fork --------

  lemma EnvAllocGood(s: KState, parent: Word)
    requires KInv(s)
    ensures var (s1, r) := EnvAlloc(s, parent);
            && GoodStep(s, s1, None) && s1.cur == s.cur && s1.kframe == s.kframe
            && (r.Some? ==>
                  && s.envs[r.value].pgdir == None && s.cur != r && r.value !in s1.envFree
                  && s.mem.free != [] && s1.mem == SetupVm(s.mem) && s1.envs[r.value].pgdir == Some(s.mem.free[0])
                  && (forall d: EnvIx {:trigger s1.envs[d]} :: d != r.value ==> s1.envs[d] == s.envs[d]))
  {
    MemStepSame(s.mem);
    if s.envFree != [] && s.mem.free != [] {
      assert s.envFree[0] in s.envFree;
      SetupRefines(s.mem);
      var (s1, r) := EnvAlloc(s, parent);
      SetupStep(s.mem);
      forall e | e in s1.envFree ensures s1.envs[e].status == EnvStatus.Free && s1.envs[e].pgdir == None && e != r.value {
        assert e in s.envFree;
      }
    }
  }

  lemma SetupStep(m: Mem)
    requires Inv(m) && m.free != []
    ensures MemStep(m, SetupVm(m), Nowhere)
  {
    SetupRefines(m);
    var m' := SetupVm(m);
    forall x: nat, y | IsRoot(m, x) && Private(y) ensures Mapping(m', x, y) == Mapping(m, x, y) { }
    forall f: nat | Holds(m, f) ensures m'.frames[f] == m.frames[f] { }
  }

  /** The page loop of fork, from the state env_alloc leaves behind. */
  lemma ForkLoopGood(m: Mem, parent: nat, child: nat, k: nat)
    requires Inv(m) && IsRoot(m, parent) && IsRoot(m, child) && parent != child
    requires k < STACK_PAGES_END ==> CanFork(m, parent, child, k, STACK_PAGES_END)
    ensures var (m', st) := ForkPages(m, parent, child, k, STACK_PAGES_END);
            MemStep(m, m', WholeSpace(child))
  {
    MemStepSame(m);
    if k < STACK_PAGES_END {
      ForkPagesRefines(m, parent, child, k, STACK_PAGES_END);
      var m' := ForkPages(m, parent, child, k, STACK_PAGES_END).0;
      forall x: nat | IsRoot(m, x) ensures IsRoot(m', x) { }
      forall x: nat, y | IsRoot(m, x) && x != child && Private(y) ensures Mapping(m', x, y) == Mapping(m, x, y) { }
    }
  }

  /** What happens below a root that is new happens nowhere, for the roots there were. */
  lemma MemStepChain(m: Mem, m1: Mem, m2: Mem, child: nat, t: Scope)
    requires Inv(m) && m.free != [] && m1 == SetupVm(m) && child == m.free[0] && MemStep(m, m1, Nowhere) && MemStep(m1, m2, t)
    requires t.Nowhere? || t.root == child
    ensures MemStep(m, m2, Nowhere)
  {
    SetupRefines(m);
    forall x: nat | IsRoot(m, x) ensures IsRoot(m2, x) { assert IsRoot(m1, x); }
    forall x: nat, y | IsRoot(m, x) && Private(y) ensures Mapping(m2, x, y) == Mapping(m, x, y) {
      assert IsRoot(m1, x) && x != child;
      assert Mapping(m1, x, y) == Mapping(m, x, y);
    }
    forall f: nat | Holds(m, f) ensures m2.frames[f] == m.frames[f] { assert Holds(m1, f); }
  }

  lemma ForkStart(s: KState)
    requires KInv(s) && s.cur.Some? && StackPrivate(s) && s.mem.free != []
    ensures var m := SetupVm(s.mem);
            var p := RootOf(s, s.cur.value);
            var c := s.mem.free[0];
            var k := s.kframe.sp / BY2PG;
            && Inv(m) && IsRoot(m, p) && IsRoot(m, c) && p != c
            && (k < STACK_PAGES_END ==> CanFork(m, p, c, k, STACK_PAGES_END))
  {
    SetupRefines(s.mem);
    var m := SetupVm(s.mem);
    var p := RootOf(s, s.cur.value);
    var k := s.kframe.sp / BY2PG;
    assert IsRoot(s.mem, p);
    forall j: nat | k <= j < STACK_PAGES_END
      ensures Mapping(m, s.mem.free[0], Page(j)) == None
    {
      PageIsPrivate(j);
    }
  }

  /** The state fork's loop starts from. */
  lemma ForkBegin(s: KState) returns (s2: KState, loop: (Mem, ForkStatus))
    requires KInv(s) && s.cur.Some? && s.envFree != [] && s.mem.free != []
    ensures var c, e, k := s.cur.value, s.envFree[0], s.kframe.sp / BY2PG;
            && s2 == ForkEntered(s) && KInv(s2) && e !in s2.envFree && e != c
            && RootOf(s2, c) == RootOf(s, c) && RootOf(s2, e) == s.mem.free[0]
            && (forall d: EnvIx {:trigger s2.envs[d].pgdir} :: s.envs[d].pgdir.Some? ==> s2.envs[d].pgdir == s.envs[d].pgdir)
            && SysFork(s) == ForkFinish(s2, e, loop)
            && loop == ForkPages(s2.mem, RootOf(s2, c), RootOf(s2, e), k, STACK_PAGES_END)
  {
    var c := s.cur.value;
    s2, loop := ForkParts(s);
    EnvAllocGood(s, s.envs[c].id);
    var (s1, r) := EnvAlloc(s, s.envs[c].id);
    PutEnvInv(s1, r.value, Child(s));
    assert s2.envs == PutEnv(s1, r.value, Child(s)).envs;
  }

  lemma ForkFinishGood(s: KState, e: EnvIx, m: Mem, st: ForkStatus)
    requires KInv(s) && s.envs[e].pgdir.Some? && e !in s.envFree && MemStep(s.mem, m, WholeSpace(RootOf(s, e)))
    ensures var s' := ForkFinish(s, e, (m, st)).0;
            && KInv(s') && s'.mem == m
            && forall d: EnvIx {:trigger s'.envs[d].pgdir} :: s'.envs[d].pgdir == s.envs[d].pgdir
  {
  }

  lemma ForkGood(s: KState)
    requires KInv(s) && s.cur.Some? && MemSafe(s, Fork)
    ensures GoodStep(s, SysFork(s).0, None)
  {
    MemStepSame(s.mem);
    if s.envFree != [] && s.mem.free != [] {
      var c, e, k := s.cur.value, s.envFree[0], s.kframe.sp / BY2PG;
      ForkStart(s);
      var s2, loop := ForkBegin(s);
      ForkLoopGood(s2.mem, RootOf(s2, c), RootOf(s2, e), k);
      SetupStep(s.mem);
      MemStepChain(s.mem, s2.mem, loop.0, s.mem.free[0], WholeSpace(s.mem.free[0]));
      ForkFinishGood(s2, e, loop.0, loop.1);
    }
  }

  // -------- destroy --------

  /** A destroy whose sweep visits nothing takes one environment out, and leaves every mapping of the others. */
  lemma DestroyGood(s: KState, envid: Word, after: Mem)
    requires KInv(s) && s.cur.Some? && MemSafe(s, EnvDestroy(envid, after))
    ensures GoodStep(s, SysEnvDestroy(s, envid, after).0, Target(s, EnvDestroy(envid, after)))
  {
    MemStepSame(s.mem);
    if Envid2Env(s, envid, true).Some? {
      var e := Envid2Env(s, envid, true).value;
      ResolvedIsLive(s, envid, true);
      var s1 := FreedInv(s, e);
      if e == s.cur.value { SchedInv(s1.(cur := None, tframe := s.kframe)); }
    }
  }

  lemma FreedInv(s: KState, e: EnvIx) returns (s1: KState)
    requires KInv(s) && e !in s.envFree
    ensures s1 == PutEnv(s, e, s.envs[e].(pgdir := None, status := EnvStatus.Free)).(envFree := [e] + s.envFree, mem := s.mem)
    ensures Inv(s1.mem) && FreeEnvsOk(s1) && EnvsOk(s1.(cur := None)) && (s.cur != Some(e) ==> EnvsOk(s1))
  {
    s1 := PutEnv(s, e, s.envs[e].(pgdir := None, status := EnvStatus.Free)).(envFree := [e] + s.envFree, mem := s.mem);
  }

  // -------- traps and runs --------

  ghost predicate SafeEvent(s: KState, ev: Event)
    requires CanStep(s)
  {
    match ev
    case Syscall(frame, call) => MemSafe(s.(kframe := frame), call)
    case Irq(_) => true
  }

  function EventTarget(s: KState, ev: Event): Option<Place>
    requires CanStep(s)
  {
    match ev
    case Syscall(frame, call) => Target(s.(kframe := frame), call)
    case Irq(_) => None
  }

  lemma CallGood(s: KState, call: Call)
    requires KInv(s) && CanStep(s) && MemSafe(s, call)
    ensures GoodStep(s, Serve(s, call), Target(s, call))
  {
    match call
    case MemAlloc(envid, va, perm) => MemAllocGood(s, envid, va, perm);
    case MemMap(srcid, srcva, dstid, dstva, perm) => MemMapGood(s, srcid, srcva, dstid, dstva, perm);
    case MemUnmap(envid, va) => MemUnmapGood(s, envid, va);
    case Fork => ForkGood(s);
    case SetEnvStatus(envid, status) => SetStatusGood(s, envid, status);
    case Yield => SchedGood(s, s.(tframe := s.kframe));
    case IpcRecv(dstva) => IpcRecvGood(s, dstva);
    case IpcCanSend(envid, value, srcva, perm) => IpcSendGood(s, envid, value, srcva, perm);
    case EnvDestroy(envid, after) => DestroyGood(s, envid, after);
  }

  /** One trap keeps the invariant and touches at most its target's address space. */
  lemma StepGood(s: KState, ev: Event)
    requires KInv(s) && CanStep(s) && SafeEvent(s, ev)
    ensures GoodStep(s, Step(s, ev), EventTarget(s, ev))
  {
    match ev
    case Irq(frame) => SchedGood(s, s.(tframe := frame));
    case Syscall(frame, call) =>
      var s1 := s.(kframe := frame);
      assert KInv(s1);
      CallGood(s1, call);
  }

  ghost predicate SafeRun(s: KState, evs: seq<Event>)
    decreases |evs|
  {
    evs == [] || !CanStep(s) || (SafeEvent(s, evs[0]) && SafeRun(Step(s, evs[0]), evs[1..]))
  }

  predicate Spares(t: Option<Place>, e: EnvIx, v: Vpn) { t != Some(Place(e, v)) && t != Some(Whole(e)) }

  /** No trap of the run targets page v of e, or destroys e. */
  ghost predicate Untargeted(s: KState, evs: seq<Event>, e: EnvIx, v: Vpn)
    decreases |evs|
  {
    evs == [] || !CanStep(s) || (Spares(EventTarget(s, evs[0]), e, v) && Untargeted(Step(s, evs[0]), evs[1..], e, v))
  }

  /** The memory invariant holds after every run: no mapped page is free, counts are exact, trees are disjoint. */
  lemma {:induction false} RunKeepsInv(s: KState, evs: seq<Event>)
    requires KInv(s) && SafeRun(s, evs)
    ensures KInv(Run(s, evs))
    decreases |evs|
  {
    if evs == [] || !CanStep(s) {
    } else {
      StepGood(s, evs[0]);
      RunKeepsInv(Step(s, evs[0]), evs[1..]);
    }
  }

  /** Page v of e is mapped to the same frame with the same permissions and contents, or not mapped in both states. */
  ghost predicate SamePageOf(s: KState, s': KState, e: EnvIx, v: Vpn)
  {
    && s.envs[e].pgdir.Some? && s'.envs[e].pgdir == s.envs[e].pgdir
    && var now := Mapping(s.mem, s.envs[e].pgdir.value, v);
       && Mapping(s'.mem, s.envs[e].pgdir.value, v) == now
       && (now.Some? ==>
             var f := now.value.frame;
             f < |s.mem.frames| && f < |s'.mem.frames| && s'.mem.frames[f] == s.mem.frames[f])
  }

  lemma StepKeepsPage(s: KState, s': KState, t: Option<Place>, e: EnvIx, v: Vpn)
    requires KInv(s) && GoodStep(s, s', t) && Spares(t, e, v) && s.envs[e].pgdir.Some? && Private(v)
    requires t.Some? ==> s.envs[t.value.env].pgdir.Some?
    ensures SamePageOf(s, s', e, v)
  {
    var r := s.envs[e].pgdir.value;
    assert IsRoot(s.mem, r);
    assert t.Some? && t.value.env != e ==> s.envs[t.value.env].pgdir != s.envs[e].pgdir;
    assert Mapping(s'.mem, r, v) == Mapping(s.mem, r, v);
    if Mapping(s.mem, r, v).Some? { MappedFrame(s.mem, r, v); }
  }

  /** A target has an address space. */
  lemma TargetIsLive(s: KState, ev: Event)
    requires KInv(s) && CanStep(s)
    ensures EventTarget(s, ev).Some? ==> s.envs[EventTarget(s, ev).value.env].pgdir.Some?
  {
    if ev.Syscall? {
      var s1 := s.(kframe := ev.frame);
      match ev.call
      case MemAlloc(envid, _, _) => if Envid2Env(s1, envid, true).Some? { ResolvedIsLive(s1, envid, true); }
      case MemMap(_, _, dstid, _, _) => if Envid2Env(s1, dstid, true).Some? { ResolvedIsLive(s1, dstid, true); }
      case MemUnmap(envid, _) => if Envid2Env(s1, envid, true).Some? { ResolvedIsLive(s1, envid, true); }
      case IpcCanSend(envid, _, _, _) => if Envid2Env(s1, envid, false).Some? { ResolvedIsLive(s1, envid, false); }
      case EnvDestroy(envid, _) => if Envid2Env(s1, envid, true).Some? { ResolvedIsLive(s1, envid, true); }
      case _ =>
    }
  }

  /**
   Isolation: whatever the traps do elsewhere, on other pages of e and in other
   environments, including mapping, unmapping and dropping the frame that e has
   at v, page v of e keeps its frame, its permissions and its contents until a
   call names it or destroys e.
   */
  lemma {:induction false} Isolation(s: KState, evs: seq<Event>, e: EnvIx, v: Vpn)
    requires KInv(s) && SafeRun(s, evs) && Untargeted(s, evs, e, v) && s.envs[e].pgdir.Some? && Private(v)
    ensures SamePageOf(s, Run(s, evs), e, v)
    decreases |evs|
  {
    if evs == [] || !CanStep(s) {
      StaysPut(s, None);
      StepKeepsPage(s, s, None, e, v);
    } else {
      var s1 := Step(s, evs[0]);
      StepGood(s, evs[0]);
      TargetIsLive(s, evs[0]);
      StepKeepsPage(s, s1, EventTarget(s, evs[0]), e, v);
      Isolation(s1, evs[1..], e, v);
    }
  }

  /** The private table trees of two environments share no slot, at any level. */
  lemma TreesDisjoint(s: KState, e: EnvIx, d: EnvIx, v: Vpn, w: Vpn)
    requires KInv(s) && e != d && s.envs[e].pgdir.Some? && s.envs[d].pgdir.Some? && Private(v) && Private(w)
    ensures RootOf(s, e) != RootOf(s, d)
    ensures var a, b := At(s.mem, Slot(RootOf(s, e), v.u)), At(s.mem, Slot(RootOf(s, d), w.u));
            IsValid(a) && IsValid(b) ==> FrameOf(a) != FrameOf(b)
    ensures LeafSlot(s.mem, RootOf(s, e), v).Some? && LeafSlot(s.mem, RootOf(s, d), w).Some? ==>
              LeafSlot(s.mem, RootOf(s, e), v).value.frame != LeafSlot(s.mem, RootOf(s, d), w).value.frame
  {
    var r, q := RootOf(s, e), RootOf(s, d);
    assert IsRoot(s.mem, r) && IsRoot(s.mem, q) && r != q;
    var a, b := Slot(r, v.u), Slot(q, w.u);
    if IsValid(At(s.mem, a)) && IsValid(At(s.mem, b)) {
      assert Counted(s.mem, a) && TargetOk(s.mem, a);
      assert Counted(s.mem, b) && TargetOk(s.mem, b);
    }
    if LeafSlot(s.mem, r, v).Some? { PathRoles(s.mem, r, v); }
    if LeafSlot(s.mem, q, w).Some? { PathRoles(s.mem, q, w); }
  }
}
