/**
 lib/env.c and lib/syscall_all.c in place: one object for the kernel's global
 state, whose methods follow the C functions statement by statement. Each
 computes the function of the same name in Kernel, about which the run-level
 results are stated.
 */
module Syscalls {
  import opened Bits
  import opened Mmu
  import opened Memory
  import opened AddressSpace
  import opened Pmap
  import opened Sched
  import opened Kernel
  import opened Isolation
  import opened Startup
  import Ids
  import Queue

  lemma SameVpn(va: Word)
    ensures RoundDown(va, BY2PG) < TWO64 && VpnOf(RoundDown(va, BY2PG)) == VpnOf(va)
  {
    RoundDownPage(va);
    SamePage(va / 4096 * 4096, va);
  }

  /** The value env_alloc gives the fields of environment e, when it becomes allocation n. */
  function AllocatedEnv(env: Env, e: EnvIx, n: Word, parent: Word): Env
  {
    env.(parent := parent, status := EnvStatus.Runnable, runs := 0, id := MakeId(n, e), tf := env.tf.(sp := USTACKTOP))
  }

  lemma EnvAllocSteps(s: KState, s1: KState, s2: KState, s3: KState, parent: Word)
    requires s.envFree != [] && s.mem.free != []
    requires s1 == PutEnv(s, s.envFree[0], s.envs[s.envFree[0]].(pgdir := Some(s.mem.free[0]))).(mem := SetupVm(s.mem))
    requires var n := (s1.nextId + 1) % TWO64;
             s2 == PutEnv(s1, s.envFree[0], AllocatedEnv(s1.envs[s.envFree[0]], s.envFree[0], n, parent)).(nextId := n)
    requires s3 == s2.(envFree := s2.envFree[1..])
    ensures Kernel.EnvAlloc(s, parent) == (s3, Some(s.envFree[0]))
  {
    assert s2.envs == s.envs[s.envFree[0] := s2.envs[s.envFree[0]]];
  }

  ghost function SharePage(s: KState, a: EnvIx, u: Vpn, b: EnvIx, w: Vpn, perm: Word): (KState, int)
  {
    match PageLookup(s.mem, RootOf(s, a), u)
    case Missing => (s, -E_NO_MEM)
    case Invalid => (s.(halted := true), 0)
    case Found(p, _) => AfterInsert(s, PageInsert(s.mem, RootOf(s, b), p, w, UInt(perm)))
  }

  lemma MapIsShare(s: KState, srcid: Word, srcva: Word, dstid: Word, dstva: Word, perm: Word)
    requires s.cur.Some? && Kernel.Envid2Env(s, srcid, true).Some? && Kernel.Envid2Env(s, dstid, true).Some? && perm % 2 == 1
    ensures Kernel.SysMemMap(s, srcid, srcva, dstid, dstva, perm) ==
            SharePage(s, Kernel.Envid2Env(s, srcid, true).value, VpnOf(srcva), Kernel.Envid2Env(s, dstid, true).value, VpnOf(dstva), perm)
  {
  }

  ghost predicate Insertable(m: Mem, root: nat, v: Vpn)
  {
    && Walkable(m, root, v) && Removable(m, root, v)
    && Walkable(Memory.PageRemove(m, root, v).0, root, v)
  }

  lemma LiveInsertable(s: KState, e: EnvIx, v: Vpn)
    requires KInv(s) && s.envs[e].pgdir.Some? && Private(v)
    ensures Insertable(s.mem, RootOf(s, e), v)
  {
    InvWalkable(s.mem, RootOf(s, e), v);
    InvInsertable(s.mem, RootOf(s, e), v);
  }

  /** PUDX, computed. */
  method TopIndex(va: nat) returns (slot: nat)
    ensures slot == va / 0x4000_0000 % 512
  {
    Indices(va);
    slot := Pudx(va);
  }

  lemma LiveShareable(s: KState, a: EnvIx, u: Vpn, b: EnvIx, w: Vpn, perm: nat)
    requires KInv(s) && s.envs[a].pgdir.Some? && s.envs[b].pgdir.Some? && MayShare(s.mem, RootOf(s, a), u, RootOf(s, b), w, perm)
    ensures Walkable(s.mem, RootOf(s, a), u)
    ensures PageLookup(s.mem, RootOf(s, a), u).Found? ==> Insertable(s.mem, RootOf(s, b), w)
  {
    LiveInsertable(s, a, u);
    if PageLookup(s.mem, RootOf(s, a), u).Found? { LiveInsertable(s, b, w); }
  }

  lemma AllocInsertable(s: KState, e: EnvIx, va: Word)
    requires KInv(s) && s.envs[e].pgdir.Some? && Private(VpnOf(va)) && s.mem.free != []
    ensures Insertable(TakeFree(s.mem), RootOf(s, e), VpnOf(va))
  {
    AllocRefines(s.mem);
    AllocStep(s.mem);
    NewMemInv(s, TakeFree(s.mem), Nowhere);
    LiveInsertable(s.(mem := TakeFree(s.mem)), e, VpnOf(va));
  }

  lemma ForkPageReady(m: Mem, parent: nat, child: nat, v: Vpn)
    requires CanEnterPage(m, parent, child, v) && m.free != []
    ensures Inv(TakeFree(m)) && IsRoot(TakeFree(m), parent) && Mapping(TakeFree(m), parent, v) == Mapping(m, parent, v)
    ensures Mapping(m, parent, v).Some? ==>
              Mapping(m, parent, v).value.frame < |m.frames| && Insertable(Copied(m, Mapping(m, parent, v).value.frame), child, v)
  {
    AllocRefines(m);
    var _ := AllocKeepsMapping(m, parent, v);
    if Mapping(m, parent, v).Some? {
      var m1, _ := ForkPageSteps(m, parent, child, v);
      InvWalkable(m1, child, v);
      InvInsertable(m1, child, v);
    }
  }

  lemma AllocKeepsMapping(m: Mem, r: nat, v: Vpn) returns (m1: Mem)
    requires Inv(m) && IsRoot(m, r) && Private(v) && m.free != []
    ensures m1 == TakeFree(m) && Inv(m1) && Mapping(m1, r, v) == Mapping(m, r, v) && IsRoot(m1, r)
  {
    AllocRefines(m);
    m1 := TakeFree(m);
  }

  /** The outcome of a loop that has seen st so far and goes on with `rest`. */
  function After(st: ForkStatus, rest: (Mem, ForkStatus)): (Mem, ForkStatus)
  {
    (rest.0, if st == Complete || rest.1 == OutOfPages || rest.1 == Fault then rest.1 else Partial)
  }

  /** The loop of fork stands before page k with outcome st so far, and comes to `all` in the end. */
  ghost predicate LoopAt(m: Mem, parent: nat, child: nat, k: nat, st: ForkStatus, all: (Mem, ForkStatus))
  {
    if st == OutOfPages || st == Fault || k >= STACK_PAGES_END then all == (m, st)
    else
      && CanFork(m, parent, child, k, STACK_PAGES_END)
      && forall rest {:trigger IsLoop(m, parent, child, k, STACK_PAGES_END, rest)} :: IsLoop(m, parent, child, k, STACK_PAGES_END, rest) ==> all == After(st, rest)
  }

  lemma LoopStarts(m: Mem, parent: nat, child: nat, k: nat)
    requires k < STACK_PAGES_END ==> CanFork(m, parent, child, k, STACK_PAGES_END)
    ensures LoopAt(m, parent, child, k, Complete, ForkPages(m, parent, child, k, STACK_PAGES_END))
  {
  }

  lemma ForkPageEnters(m: Mem, parent: nat, child: nat, k: nat)
    requires k < STACK_PAGES_END && CanFork(m, parent, child, k, STACK_PAGES_END)
    ensures CanEnterPage(m, parent, child, VpnOf(k * BY2PG))
  {
    PageIsPrivate(k);
    assert Mapping(m, child, Page(k)) == None;
  }

  lemma ForkPageLeaves(m: Mem, parent: nat, child: nat, k: nat, m1: Mem, one: ForkStatus)
    requires k < STACK_PAGES_END && CanFork(m, parent, child, k, STACK_PAGES_END)
    requires (m1, one) == ForkPage(m, parent, child, Page(k))
    ensures one != OutOfPages && one != Fault ==> CanFork(m1, parent, child, k + 1, STACK_PAGES_END)
    ensures ForkPages(m, parent, child, k, STACK_PAGES_END) ==
            if one == OutOfPages || one == Fault then (m1, one)
            else After(one, ForkPages(m1, parent, child, k + 1, STACK_PAGES_END))
  {
    PageIsPrivate(k);
    if m.free != [] {
      UnmappedFaults(m, parent, child, Page(k));
      if one != Fault {
        ForkPageRefines(m, parent, child, Page(k));
        ForkRest(m, m1, parent, child, k, STACK_PAGES_END);
      }
    }
  }

  /** Where fork's page loop starts, and what is left to do from there. */
  lemma ForkFrom(s: KState, t: KState)
    requires KInv(s) && s.cur.Some? && StackPrivate(s) && s.envFree != [] && s.mem.free != []
    requires var (s1, r) := Kernel.EnvAlloc(s, s.envs[s.cur.value].id);
             r == Some(s.envFree[0]) && t == PutEnv(s1, s.envFree[0], ForkEnv(s1, s1.envs[s.envFree[0]], s1.envs[s.cur.value]))
    ensures var c, e, k := s.cur.value, s.envFree[0], s.kframe.sp / BY2PG;
            && t.cur == s.cur && t.kframe == s.kframe
            && t.envs[c].pgdir.Some? && t.envs[e].pgdir.Some?
            && (k < STACK_PAGES_END ==> CanFork(t.mem, RootOf(t, c), RootOf(t, e), k, STACK_PAGES_END))
            && Kernel.SysFork(s) == ForkFinish(t, e, ForkPages(t.mem, RootOf(t, c), RootOf(t, e), k, STACK_PAGES_END))
  {
    var s2, _ := ForkBegin(s);
    assert t.envs == s2.envs;
    ForkStart(s);
  }

  lemma StackInsertable(m: Mem, root: nat)
    requires Inv(m) && IsRoot(m, root) && m.free != []
    ensures Insertable(Pin(TakeFree(m), m.free[0]), root, VpnOf(USTACKTOP - BY2PG))
  {
    PageIsPrivate(STACK_PAGES_END - 1);
    AllocRefines(m);
    PinRefines(TakeFree(m), m.free[0]);
    InvWalkable(Pin(TakeFree(m), m.free[0]), root, StackPage());
    InvInsertable(Pin(TakeFree(m), m.free[0]), root, StackPage());
  }

  lemma AllocatedRoot(s: KState)
    requires KInv(s)
    ensures var (s1, r) := Kernel.EnvAlloc(s, 0);
            r.Some? ==> Inv(s1.mem) && s1.envs[r.value].pgdir.Some? && IsRoot(s1.mem, s1.envs[r.value].pgdir.value)
  {
    EnvAllocGood(s, 0);
  }

  lemma StartedInv(frames: seq<Frame>, kroot: nat, used: nat, entry: Word, frame: Trapframe)
    requires kroot < used && used + 2 <= |frames| <= MAX_FRAMES
    requires forall i :: SHARED <= i < ENTRIES ==> !IsValid(frames[kroot][i])
    ensures KInv(Booted(frames, kroot, used))
    ensures KInv(Started(frames, kroot, used, entry, frame)) && CanStep(Started(frames, kroot, used, entry, frame))
  {
    BootedReady(frames, kroot, used);
    var _ := StartedReady(frames, kroot, used, entry, frame);
  }

  lemma FrameInv(s: KState, frame: Trapframe)
    requires KInv(s)
    ensures KInv(s.(kframe := frame))
  {
  }

  /** One round of fork's loop: page_alloc, bcopy of the caller's page, page_insert. */
  method ForkPageAt(mm: PhysMemory, parent: nat, child: nat, va: nat) returns (st: ForkStatus)
    requires mm.Valid() && CanEnterPage(mm.State(), parent, child, VpnOf(va))
    modifies mm`role, mm.frames, mm.ref, mm.freeList, mm.freeList.next, mm.freeList.prev
    ensures mm.Valid() && (mm.State(), st) == ForkPage(old(mm.State()), parent, child, VpnOf(va))
  {
    ghost var m := mm.State();
    if m.free != [] { ForkPageReady(m, parent, child, VpnOf(va)); }
    var alloc, page := mm.PageAlloc();
    if alloc != Ok {
      return OutOfPages;
    }
    var src := mm.ReadPage(parent, va);
    if src == None {
      return Fault;
    }
    mm.CopyPage(src.value, page);
    var inserted := mm.PageInsert(child, page, va, PTE_V);
    return if inserted == Ok then Complete else Partial;
  }

  /** One round, with the outcome of the loop so far. */
  method ForkRound(mm: PhysMemory, parent: nat, child: nat, va: nat, ghost k: nat, sofar: ForkStatus, ghost all: (Mem, ForkStatus)) returns (st: ForkStatus)
    requires mm.Valid() && va == k * BY2PG && k < STACK_PAGES_END && (sofar == Complete || sofar == Partial)
    requires LoopAt(mm.State(), parent, child, k, sofar, all)
    modifies mm`role, mm.frames, mm.ref, mm.freeList, mm.freeList.next, mm.freeList.prev
    ensures mm.Valid() && LoopAt(mm.State(), parent, child, k + 1, st, all)
  {
    ghost var m := mm.State();
    ForkPageEnters(m, parent, child, k);
    st := ForkPageAt(mm, parent, child, va);
    ForkPageLeaves(m, parent, child, k, mm.State(), st);
    assert IsLoop(m, parent, child, k, STACK_PAGES_END, ForkPages(m, parent, child, k, STACK_PAGES_END));
    st := if st == Complete then sofar else st;
  }

  /** The loop of fork, from the page-aligned address `start` to USTACKTOP. */
  method ForkLoop(mm: PhysMemory, parent: nat, child: nat, start: nat, ghost first: nat, ghost all: (Mem, ForkStatus)) returns (st: ForkStatus)
    requires mm.Valid() && start == first * BY2PG && LoopAt(mm.State(), parent, child, first, Complete, all)
    modifies mm`role, mm.frames, mm.ref, mm.freeList, mm.freeList.next, mm.freeList.prev
    ensures mm.Valid() && (mm.State(), st) == all
  {
    var currentsp := start;
    ghost var k := first;
    st := Complete;
    while currentsp < USTACKTOP && st != OutOfPages && st != Fault
      invariant mm.Valid() && currentsp == k * BY2PG
      invariant LoopAt(mm.State(), parent, child, k, st, all)
      decreases USTACKTOP - currentsp
      modifies mm`role, mm.frames, mm.ref, mm.freeList, mm.freeList.next, mm.freeList.prev
    {
      st := ForkRound(mm, parent, child, currentsp, k, st, all);
      currentsp := currentsp + BY2PG;
      k := k + 1;
    }
  }

  class KernelObject {
    const mm: PhysMemory
    const envs: array<Env>
    const envFree: Queue.List          // env_free_list over envs[i].env_link
    const sched: Scheduler
    var nextId: Word
    var cur: Option<EnvIx>             // curenv
    var kframe: Trapframe              // below KERNEL_SP
    var tframe: Trapframe              // below TIMESTACK
    var halted: bool

    ghost predicate Valid()
      reads this, mm, mm.frames, mm.ref, mm.freeList, mm.freeList.next, mm.freeList.prev
      reads envs, envFree, envFree.next, envFree.prev, sched
    {
      && mm.Valid() && mm.kroot < mm.npage
      && envs.Length == NENV && envFree.Valid() && envFree.next.Length == NENV
      && (forall i :: 0 <= i < |envFree.elems| ==> envFree.elems[i] < NENV)
      && -1 <= sched.pos < NENV
      && mm.freeList != envFree && mm.freeList.next != envFree.next && mm.freeList.prev != envFree.prev
    }

    ghost function State(): KState
      reads this, mm, mm.frames, mm.ref, mm.freeList, mm.freeList.next, mm.freeList.prev
      reads envs, envFree, envFree.next, envFree.prev, sched
      requires Valid()
    {
      KState(mm.State(), envs[..], envFree.elems, nextId, cur, sched.pos, kframe, tframe, halted)
    }

    /** The zeroed kernel data of a fresh boot. */
    constructor (npage: nat, kroot: nat, frames: array<Frame>)
      requires frames.Length == npage <= MAX_FRAMES && kroot < npage
      ensures Valid() && mm.npage == npage && mm.kroot == kroot && mm.frames == frames
      ensures State() == KState(mm.State(), seq(NENV, _ => BlankEnv()), [], 0, None, -1, BlankEnv().tf, BlankEnv().tf, false)
      ensures fresh(mm) && fresh(mm.ref) && fresh(mm.freeList) && fresh(mm.freeList.next) && fresh(mm.freeList.prev)
      ensures fresh(envs) && fresh(envFree) && fresh(envFree.next) && fresh(envFree.prev) && fresh(sched)
    {
      mm := new PhysMemory(npage, kroot, frames);
      envs := new Env[NENV](_ => BlankEnv());
      envFree := new Queue.List(NENV);
      sched := new Scheduler();
      nextId := 0;
      cur := None;
      kframe, tframe := BlankEnv().tf, BlankEnv().tf;
      halted := false;
    }

    /** mkenvid: the increment of next_env_id, the shift and the or. */
    method MkEnvId(e: EnvIx) returns (id: Word)
      requires Valid()
      modifies this`nextId
      ensures Valid() && State() == old(State()).(nextId := (old(nextId) + 1) % TWO64)
      ensures id == MakeId(nextId, e)
    {
      nextId := (nextId + 1) % TWO64;
      Ids.MakeIdPacks(nextId, e);
      id := BitOr(Shl(nextId, 11) % TWO64, e);
    }

    /** envid2env */
    method Envid2Env(envid: Word, checkperm: bool) returns (r: Option<EnvIx>)
      requires Valid() && cur.Some?
      ensures r == Kernel.Envid2Env(State(), envid, checkperm)
    {
      if envid == 0 {
        return cur;
      }
      var e := Envx(envid);
      if envs[e].status == EnvStatus.Free || envs[e].id != envid {
        return None;
      }
      if checkperm {
        if e != cur.value && envs[e].parent != envs[cur.value].id {
          return None;
        }
      }
      return Some(e);
    }

    /** env_init */
    method EnvInit()
      requires Valid()
      modifies envs, envFree, envFree.next, envFree.prev
      ensures Valid()
      ensures State() == old(State()).(envs := envs[..], envFree := AllEnvs())
      ensures forall e :: 0 <= e < NENV ==> envs[e] == old(envs[e]).(status := EnvStatus.Free)
    {
      envFree.Clear();
      var i := NENV;
      while i > 0
        invariant 0 <= i <= NENV
        invariant envFree.Valid() && envFree.elems == AllEnvs()[i..]
        invariant forall e :: 0 <= e < NENV ==> envs[e] == if e < i then old(envs[e]) else old(envs[e]).(status := EnvStatus.Free)
        modifies envs, envFree, envFree.next, envFree.prev
      {
        i := i - 1;
        envs[i] := envs[i].(status := EnvStatus.Free);
        envFree.InsertHead(i);
        assert AllEnvs()[i..] == [i] + AllEnvs()[i + 1..];
      }
    }

    /** env_setup_vm; it panics without a free page. */
    method EnvSetupVm(e: EnvIx) returns (ok: bool)
      requires Valid()
      modifies this`halted, mm`role, mm`pins, mm.frames, mm.ref, mm.freeList, mm.freeList.next, mm.freeList.prev, envs
      ensures Valid() && ok == (old(mm.State()).free != [])
      ensures !ok ==> State() == old(State()).(halted := true)
      ensures ok ==> State() == PutEnv(old(State()), e, old(envs[e]).(pgdir := Some(old(mm.State()).free[0]))).(mem := SetupVm(old(mm.State())))
    {
      var st, page := mm.EnvSetupVm();
      if st != Ok {
        halted := true;
        return false;
      }
      envs[e] := envs[e].(pgdir := Some(page));
      return true;
    }

    /** Assignments to fields of envs[e]. */
    method SetEnv(e: EnvIx, env: Env)
      requires Valid()
      modifies envs
      ensures Valid() && State() == PutEnv(old(State()), e, env)
    {
      envs[e] := env;
    }

    /** The field assignments of env_alloc. */
    method EnvFields(e: EnvIx, parent: Word)
      requires Valid()
      modifies this`nextId, envs
      ensures Valid()
      ensures var n := (old(nextId) + 1) % TWO64;
              State() == PutEnv(old(State()), e, AllocatedEnv(old(envs[e]), e, n, parent)).(nextId := n)
    {
      var env := envs[e].(parent := parent, status := EnvStatus.Runnable, runs := 0);
      var id := MkEnvId(e);
      env := env.(id := id);
      SetEnv(e, env.(tf := env.tf.(sp := USTACKTOP)));
    }

    /** LIST_FIRST and LIST_REMOVE on env_free_list. */
    method FirstFree() returns (r: Option<EnvIx>)
      requires Valid()
      ensures r == if envFree.elems == [] then None else Some(envFree.elems[0])
    {
      if envFree.first == Queue.Null {
        return None;
      }
      return Some(envFree.first.id);
    }

    method TakeEnv(e: EnvIx)
      requires Valid() && envFree.elems != [] && e == envFree.elems[0]
      modifies envFree, envFree.next, envFree.prev
      ensures Valid() && State() == old(State()).(envFree := old(envFree.elems)[1..])
    {
      envFree.Remove(e);
    }

    /** env_alloc after env_setup_vm; s is the state before both. */
    method EnvFill(e: EnvIx, parent: Word, ghost s: KState)
      requires Valid() && envFree.elems != [] && e == envFree.elems[0] && s.envFree == envFree.elems && s.mem.free != []
      requires State() == PutEnv(s, e, s.envs[e].(pgdir := Some(s.mem.free[0]))).(mem := SetupVm(s.mem))
      modifies this`nextId, envs, envFree, envFree.next, envFree.prev
      ensures Valid() && (State(), Some(e)) == Kernel.EnvAlloc(s, parent)
    {
      ghost var s1 := State();
      EnvFields(e, parent);
      ghost var s2 := State();
      TakeEnv(e);
      EnvAllocSteps(s, s1, s2, State(), parent);
    }

    /** env_alloc */
    method EnvAlloc(parent: Word) returns (r: Option<EnvIx>)
      requires Valid()
      modifies this`nextId, this`halted, mm`role, mm`pins, mm.frames, mm.ref, mm.freeList, mm.freeList.next, mm.freeList.prev
      modifies envs, envFree, envFree.next, envFree.prev
      ensures Valid() && (State(), r) == Kernel.EnvAlloc(old(State()), parent)
    {
      ghost var s := State();
      r := FirstFree();
      if r == None {
        return;
      }
      var ok := EnvSetupVm(r.value);
      if !ok {
        return None;
      }
      EnvFill(r.value, parent, s);
    }

    // -------- scheduling --------

    /** env_run up to env_pop_tf: bcopy of the interrupt frame into curenv, then the switch. */
    method EnvRun(e: EnvIx)
      requires Valid()
      modifies this`cur, envs
      ensures Valid() && State() == Kernel.EnvRun(old(State()), e)
    {
      if cur.Some? {
        var env := envs[cur.value].(tf := tframe);
        SetEnv(cur.value, env.(tf := env.tf.(pc := tframe.elr)));
      }
      cur := Some(e);
      SetEnv(e, envs[e].(runs := (envs[e].runs + 1) % TWO64));
    }

    /** sched_yield; where the source would spin for ever, `halted` is set. */
    method SchedYield()
      requires Valid()
      modifies this`cur, this`halted, envs, sched
      ensures Valid() && State() == Kernel.SchedYield(old(State()))
    {
      ghost var s := State();
      PickIsNearest(Statuses(s), s.pos);
      if forall e :: 0 <= e < NENV ==> envs[e].status != EnvStatus.Runnable {
        halted := true;
      } else {
        var st := seq(NENV, e requires 0 <= e < NENV reads this, envs requires envs.Length == NENV => envs[e].status);
        assert st == Statuses(s);
        var e, _ := sched.Choose(st);
        EnvRun(e);
      }
    }

    // -------- system calls --------

    /** sys_yield */
    method SysYield()
      requires Valid()
      modifies this`cur, this`halted, this`tframe, envs, sched
      ensures Valid() && State() == Kernel.SysYield(old(State()))
    {
      tframe := kframe;
      SchedYield();
    }

    /** sys_ipc_recv; false when it returns to its caller instead of blocking. */
    method SysIpcRecv(dstva: Word) returns (blocked: bool)
      requires Valid() && cur.Some?
      modifies this`cur, this`halted, this`tframe, envs, sched
      ensures Valid() && (State(), blocked) == Kernel.SysIpcRecv(old(State()), dstva)
    {
      if dstva >= UTOP {
        return false;
      }
      var env := envs[cur.value].(status := EnvStatus.NotRunnable);
      env := env.(ipcRecving := true);
      SetEnv(cur.value, env.(ipcDstva := dstva));
      SysYield();
      return true;
    }

    /** sys_set_env_status */
    method SysSetEnvStatus(envid: Word, status: Word) returns (ret: int)
      requires Valid() && cur.Some?
      modifies envs
      ensures Valid() && (State(), ret) == Kernel.SysSetEnvStatus(old(State()), envid, status)
    {
      if status != 1 && status != 2 && status != 0 {
        return -E_INVAL;
      }
      var r := Envid2Env(envid, false);
      if r == None {
        return -E_BAD_ENV;
      }
      envs[r.value] := envs[r.value].(status := StatusOf(status).value);
      return 0;
    }

    /** page_insert with the result the calls make of it; a panic halts. */
    method InsertInto(e: EnvIx, page: nat, va: Word, perm: Word) returns (ret: int)
      requires Valid() && page < mm.npage
      requires Insertable(mm.State(), RootOf(State(), e), VpnOf(va))
      modifies this`halted, mm`role, mm.frames, mm.ref, mm.freeList, mm.freeList.next, mm.freeList.prev
      ensures Valid()
      ensures (State(), ret) == AfterInsert(old(State()), Memory.PageInsert(old(mm.State()), RootOf(old(State()), e), page, VpnOf(va), UInt(perm)))
    {
      var root := match envs[e].pgdir case None => 0 case Some(r) => r;
      var st := mm.PageInsert(root, page, va, UInt(perm));
      match st {
        case Ok => ret := 0;
        case NoMem => ret := -E_NO_MEM;
        case Panic => halted := true; ret := 0;
      }
    }

    /** page_alloc, on the whole state */
    method PageAlloc() returns (ok: bool, page: nat)
      requires Valid()
      modifies mm.frames, mm.freeList, mm.freeList.next, mm.freeList.prev
      ensures Valid() && ok == (old(mm.State()).free != [])
      ensures !ok ==> State() == old(State())
      ensures ok ==> page == old(mm.State()).free[0] && page < mm.npage && State() == old(State()).(mem := TakeFree(old(mm.State())))
    {
      var st;
      st, page := mm.PageAlloc();
      ok := st == Ok;
    }

    /** sys_mem_alloc */
    method SysMemAlloc(envid: Word, va: Word, perm: Word) returns (ret: int)
      requires Valid() && KInv(State()) && cur.Some? && MemSafe(State(), MemAlloc(envid, va, perm))
      modifies this`halted, mm`role, mm.frames, mm.ref, mm.freeList, mm.freeList.next, mm.freeList.prev
      ensures Valid() && (State(), ret) == Kernel.SysMemAlloc(old(State()), envid, va, perm)
    {
      if perm % 2 == 0 {
        return -E_INVAL;
      }
      ghost var s := State();
      var ok, page := PageAlloc();
      if !ok {
        return -E_NO_MEM;
      }
      var r := Envid2Env(envid, true);
      if r == None {
        return -E_BAD_ENV;
      }
      AllocInsertable(s, r.value, va);
      ret := InsertInto(r.value, page, va, perm);
    }

    /** page_lookup in the address space of e */
    method LookupIn(e: EnvIx, va: Word) returns (found: LookupResult)
      requires Valid() && Walkable(mm.State(), RootOf(State(), e), VpnOf(va))
      modifies mm`role, mm.frames, mm.ref, mm.freeList, mm.freeList.next, mm.freeList.prev
      ensures Valid() && State() == old(State())
      ensures found == Memory.PageLookup(mm.State(), RootOf(State(), e), VpnOf(va))
      ensures found.Found? ==> found.page < mm.npage
    {
      var root := match envs[e].pgdir case None => 0 case Some(r) => r;
      found := mm.PageLookup(root, va);
    }

    /** page_lookup in the space of a, page_insert into that of b: what sys_mem_map and sys_ipc_can_send have in common. */
    method ShareInto(a: EnvIx, srcva: Word, b: EnvIx, dstva: Word, perm: Word) returns (ret: int)
      requires Valid()
      requires Walkable(mm.State(), RootOf(State(), a), VpnOf(srcva))
      requires Memory.PageLookup(mm.State(), RootOf(State(), a), VpnOf(srcva)).Found? ==> Insertable(mm.State(), RootOf(State(), b), VpnOf(dstva))
      modifies this`halted, mm`role, mm.frames, mm.ref, mm.freeList, mm.freeList.next, mm.freeList.prev
      ensures Valid() && (State(), ret) == SharePage(old(State()), a, VpnOf(srcva), b, VpnOf(dstva), perm)
    {
      var found := LookupIn(a, srcva);
      match found {
        case Missing => ret := -E_NO_MEM;
        case Invalid => halted := true; ret := 0;
        case Found(page, _) => ret := InsertInto(b, page, dstva, perm);
      }
    }

    /** sys_mem_map */
    method SysMemMap(srcid: Word, srcva: Word, dstid: Word, dstva: Word, perm: Word) returns (ret: int)
      requires Valid() && KInv(State()) && cur.Some? && MemSafe(State(), MemMap(srcid, srcva, dstid, dstva, perm))
      modifies this`halted, mm`role, mm.frames, mm.ref, mm.freeList, mm.freeList.next, mm.freeList.prev
      ensures Valid() && (State(), ret) == Kernel.SysMemMap(old(State()), srcid, srcva, dstid, dstva, perm)
    {
      var a := Envid2Env(srcid, true);
      if a == None {
        return -E_BAD_ENV;
      }
      var b := Envid2Env(dstid, true);
      if b == None {
        return -E_BAD_ENV;
      }
      if perm % 2 == 0 {
        return -E_NO_MEM;
      }
      LiveShareable(State(), a.value, VpnOf(srcva), b.value, VpnOf(dstva), UInt(perm));
      MapIsShare(State(), srcid, srcva, dstid, dstva, perm);
      ret := ShareRounded(a.value, srcva, b.value, dstva, perm);
    }

    /** ... on the addresses rounded down, which name the same pages. */
    method ShareRounded(a: EnvIx, srcva: Word, b: EnvIx, dstva: Word, perm: Word) returns (ret: int)
      requires Valid()
      requires Walkable(mm.State(), RootOf(State(), a), VpnOf(srcva))
      requires Memory.PageLookup(mm.State(), RootOf(State(), a), VpnOf(srcva)).Found? ==> Insertable(mm.State(), RootOf(State(), b), VpnOf(dstva))
      modifies this`halted, mm`role, mm.frames, mm.ref, mm.freeList, mm.freeList.next, mm.freeList.prev
      ensures Valid() && (State(), ret) == SharePage(old(State()), a, VpnOf(srcva), b, VpnOf(dstva), perm)
    {
      SameVpn(srcva);
      SameVpn(dstva);
      ret := ShareInto(a, RoundDown(srcva, BY2PG), b, RoundDown(dstva, BY2PG), perm);
    }

    /** sys_mem_unmap */
    method SysMemUnmap(envid: Word, va: Word) returns (ret: int)
      requires Valid() && KInv(State()) && cur.Some? && MemSafe(State(), MemUnmap(envid, va))
      modifies this`halted, mm`role, mm.frames, mm.ref, mm.freeList, mm.freeList.next, mm.freeList.prev
      ensures Valid() && (State(), ret) == Kernel.SysMemUnmap(old(State()), envid, va)
    {
      var r := Envid2Env(envid, true);
      if r == None {
        return -E_BAD_ENV;
      }
      LiveInsertable(State(), r.value, VpnOf(va));
      RemoveFrom(r.value, va);
      return 0;
    }

    /** page_remove in the address space of e; a panic halts. */
    method RemoveFrom(e: EnvIx, va: Word)
      requires Valid() && Insertable(mm.State(), RootOf(State(), e), VpnOf(va))
      modifies this`halted, mm`role, mm.frames, mm.ref, mm.freeList, mm.freeList.next, mm.freeList.prev
      ensures Valid() && (State(), 0) == AfterInsert(old(State()), Memory.PageRemove(old(mm.State()), RootOf(old(State()), e), VpnOf(va)))
    {
      var root := match envs[e].pgdir case None => 0 case Some(r) => r;
      var st := mm.PageRemove(root, va);
      if st == Panic {
        halted := true;
      }
    }

    /** sys_ipc_can_send */
    method SysIpcCanSend(envid: Word, value: Word, srcva: Word, perm: Word) returns (ret: int)
      requires Valid() && KInv(State()) && cur.Some? && !halted && MemSafe(State(), IpcCanSend(envid, value, srcva, perm))
      modifies this`halted, mm`role, mm.frames, mm.ref, mm.freeList, mm.freeList.next, mm.freeList.prev, envs
      ensures Valid() && (State(), ret) == Kernel.SysIpcCanSend(old(State()), envid, value, srcva, perm)
    {
      var r := Envid2Env(envid, false);
      if r == None {
        return -E_BAD_ENV;
      }
      var e := r.value;
      if envs[e].status != EnvStatus.NotRunnable || !envs[e].ipcRecving {
        return -E_IPC_NOT_RECV;
      }
      if srcva >= UTOP {
        return -E_NO_MEM;
      }
      ret := TransferPage(e, srcva, perm);
      if ret != 0 || halted {
        return;
      }
      SetEnv(e, Delivered(envs[e], value, envs[cur.value].id, perm));
    }

    /** The page transfer of sys_ipc_can_send, lib/syscall_all.c:274-285. */
    method TransferPage(e: EnvIx, srcva: Word, perm: Word) returns (ret: int)
      requires Valid() && KInv(State()) && cur.Some? && envs[e].pgdir.Some?
      requires srcva != 0 ==>
                 MayShare(mm.State(), RootOf(State(), cur.value), VpnOf(srcva), RootOf(State(), e), VpnOf(envs[e].ipcDstva), UInt(perm))
      modifies this`halted, mm`role, mm.frames, mm.ref, mm.freeList, mm.freeList.next, mm.freeList.prev
      ensures Valid() && (State(), ret) == SendPage(old(State()), e, srcva, perm)
    {
      if srcva == 0 {
        return 0;
      }
      LiveShareable(State(), cur.value, VpnOf(srcva), e, VpnOf(envs[e].ipcDstva), UInt(perm));
      ret := ShareInto(cur.value, srcva, e, envs[e].ipcDstva, perm);
    }

    // -------- fork --------

    /** The trapframe, status and priority of a forked child. */
    method ForkFields(e: EnvIx)
      requires Valid() && cur.Some?
      modifies envs
      ensures Valid() && State() == PutEnv(old(State()), e, ForkEnv(old(State()), old(envs[e]), old(envs[cur.value])))
    {
      var env := envs[e].(status := EnvStatus.NotRunnable, tf := kframe);
      env := env.(tf := env.tf.(x := env.tf.x[0 := 0]));
      SetEnv(e, env.(pri := envs[cur.value].pri));
    }

    /** The loop of fork, for a stack pointer. */
    method ForkStack(parent: nat, child: nat, sp: Word) returns (st: ForkStatus)
      requires Valid() && (sp / BY2PG < STACK_PAGES_END ==> CanFork(mm.State(), parent, child, sp / BY2PG, STACK_PAGES_END))
      modifies mm`role, mm.frames, mm.ref, mm.freeList, mm.freeList.next, mm.freeList.prev
      ensures Valid()
      ensures var r := ForkPages(old(mm.State()), parent, child, sp / BY2PG, STACK_PAGES_END);
              st == r.1 && State() == old(State()).(mem := r.0)
    {
      RoundDownPage(sp);
      ghost var k := sp / BY2PG;
      LoopStarts(mm.State(), parent, child, k);
      st := ForkLoop(mm, parent, child, RoundDown(sp, BY2PG), k, ForkPages(mm.State(), parent, child, k, STACK_PAGES_END));
    }

    /** What fork does with the outcome of its loop. */
    method ForkEnd(e: EnvIx, st: ForkStatus) returns (ret: int)
      requires Valid()
      modifies this`halted, envs
      ensures Valid() && (State(), ret) == ForkFinish(old(State()), e, (old(mm.State()), st))
    {
      match st {
        case OutOfPages => ret := -E_NO_MEM;
        case Fault => halted := true; ret := 0;
        case _ =>
          SetEnv(e, envs[e].(status := EnvStatus.Runnable));
          ret := AsInt(envs[e].id);
      }
    }

    /** sys_env_alloc */
    method SysFork() returns (ret: int)
      requires Valid() && KInv(State()) && cur.Some? && MemSafe(State(), Fork)
      modifies this`nextId, this`halted, mm`role, mm`pins, mm.frames, mm.ref, mm.freeList, mm.freeList.next, mm.freeList.prev
      modifies envs, envFree, envFree.next, envFree.prev
      ensures Valid() && (State(), ret) == Kernel.SysFork(old(State()))
    {
      ghost var s := State();
      var r := EnvAlloc(envs[cur.value].id);
      if r == None {
        return if halted then 0 else -E_NO_FREE_ENV;
      }
      var e := r.value;
      ForkFields(e);
      ForkFrom(s, State());
      ret := ForkTail(e, s);
    }

    /** fork from its page loop on; s is the state before the call. */
    method ForkTail(e: EnvIx, ghost s: KState) returns (ret: int)
      requires Valid() && cur.Some? && envs[cur.value].pgdir.Some? && envs[e].pgdir.Some? && s.cur.Some?
      requires var t := State();
               var p, c, k := RootOf(t, cur.value), RootOf(t, e), kframe.sp / BY2PG;
               && (k < STACK_PAGES_END ==> CanFork(t.mem, p, c, k, STACK_PAGES_END))
               && Kernel.SysFork(s) == ForkFinish(t, e, ForkPages(t.mem, p, c, k, STACK_PAGES_END))
      modifies this`halted, mm`role, mm.frames, mm.ref, mm.freeList, mm.freeList.next, mm.freeList.prev, envs
      ensures Valid() && (State(), ret) == Kernel.SysFork(s)
    {
      var st := ForkStack(envs[cur.value].pgdir.value, envs[e].pgdir.value, kframe.sp);
      ret := ForkEnd(e, st);
    }

    // -------- ends and beginnings --------

    /** The outer loop of env_free's sweep, lib/env.c:170-173, up to the first slot it would go into; none is ENTRIES. */
    method SweepFinds(root: nat) returns (slot: nat)
      requires Valid() && root < mm.npage
      ensures 3 <= slot <= ENTRIES && (slot == ENTRIES <==> NothingSwept(mm.State(), root))
    {
      slot := TopIndex(0xc000_0000);
      while slot < ENTRIES
        invariant 3 <= slot <= ENTRIES
        invariant forall i {:trigger Slot(root, i)} :: 3 <= i < slot ==> !IsValid(At(mm.State(), Slot(root, i)))
      {
        var w := mm.Load(Slot(root, slot));
        ValidIsOdd(w);
        if Mmu.Valid(w) {
          return;
        }
        slot := slot + 1;
      }
    }

    /** The tail of env_free, lib/env.c:190-192. */
    method EnvFree(e: EnvIx)
      requires Valid() && e !in envFree.elems
      modifies envs, envFree, envFree.next, envFree.prev
      ensures Valid()
      ensures var s := old(State());
              State() == PutEnv(s, e, s.envs[e].(pgdir := None, status := EnvStatus.Free)).(envFree := [e] + s.envFree)
    {
      SetEnv(e, envs[e].(pgdir := None, status := EnvStatus.Free));
      envFree.InsertHead(e);
    }

    /** env_destroy: a destroyed caller does not return. */
    method EnvDestroy(e: EnvIx)
      requires Valid() && e !in envFree.elems && cur.Some?
      modifies this`cur, this`halted, this`tframe, envs, envFree, envFree.next, envFree.prev, sched
      ensures Valid()
      ensures var s := old(State());
              var s1 := PutEnv(s, e, s.envs[e].(pgdir := None, status := EnvStatus.Free)).(envFree := [e] + s.envFree);
              State() == if s.cur == Some(e) then Kernel.SchedYield(s1.(cur := None, tframe := s.kframe)) else s1
    {
      EnvFree(e);
      if cur == Some(e) {
        cur := None;
        SysYield();
      }
    }

    /**
     sys_env_destroy. `swept` is the slot at which the sweep
     would start to work; what it does from there on is not modelled.
     */
    method SysEnvDestroy(envid: Word) returns (ret: int, swept: nat)
      requires Valid() && KInv(State()) && cur.Some?
      modifies this`cur, this`halted, this`tframe, envs, envFree, envFree.next, envFree.prev, sched
      ensures Valid() && (State(), ret) == Kernel.SysEnvDestroy(old(State()), envid, old(mm.State()))
      ensures swept == ENTRIES <==> MemSafe(old(State()), Call.EnvDestroy(envid, old(mm.State())))
    {
      swept := ENTRIES;
      ghost var s := State();
      var r := Envid2Env(envid, true);
      if r == None {
        return -E_BAD_ENV, swept;
      }
      ResolvedIsLive(s, envid, true);
      swept := SweepFinds(envs[r.value].pgdir.value);
      assert swept == ENTRIES <==> MemSafe(s, Call.EnvDestroy(envid, s.mem));
      EnvDestroy(r.value);
      return 0, swept;
    }

    /** page_alloc and an explicit pp_ref++. */
    method AllocPinned() returns (ok: bool, page: nat)
      requires Valid()
      modifies mm`pins, mm.frames, mm.ref, mm.freeList, mm.freeList.next, mm.freeList.prev
      ensures Valid() && ok == (old(mm.State()).free != [])
      ensures !ok ==> State() == old(State())
      ensures ok ==> page == old(mm.State()).free[0] && page < mm.npage
                     && State() == old(State()).(mem := Pin(TakeFree(old(mm.State())), page))
    {
      ok, page := PageAlloc();
      if ok {
        mm.IncRef(page);
        mm.pins := mm.pins[page := mm.pins[page] + 1];
      }
    }

    /** The stack of a first environment, lib/env.c:135-142. */
    method GiveStack(e: EnvIx) returns (st: Status)
      requires Valid() && Inv(mm.State()) && envs[e].pgdir.Some? && IsRoot(mm.State(), envs[e].pgdir.value)
      modifies mm`role, mm`pins, mm.frames, mm.ref, mm.freeList, mm.freeList.next, mm.freeList.prev
      ensures Valid()
      ensures var r := Startup.GiveStack(old(mm.State()), envs[e].pgdir.value);
              st == r.1 && State() == old(State()).(mem := r.0)
    {
      ghost var m := mm.State();
      if m.free != [] { StackInsertable(m, envs[e].pgdir.value); }
      var ok, page := AllocPinned();
      if !ok {
        return Panic;
      }
      st := mm.PageInsert(envs[e].pgdir.value, page, USTACKTOP - BY2PG, PTE_V);
    }

    /** env_create_priority */
    method EnvCreate(entry: Word, pri: Word)
      requires Valid() && KInv(State())
      modifies this`nextId, this`halted, mm`role, mm`pins, mm.frames, mm.ref, mm.freeList, mm.freeList.next, mm.freeList.prev
      modifies envs, envFree, envFree.next, envFree.prev
      ensures Valid() && State() == Startup.EnvCreate(old(State()), entry, pri)
    {
      AllocatedRoot(State());
      var r := EnvAlloc(0);
      if r == None {
        halted := true;
        return;
      }
      StackAndEntry(r.value, entry, pri);
    }

    /** env_create_priority behind its env_alloc, lib/env.c:134-147. */
    method StackAndEntry(e: EnvIx, entry: Word, pri: Word)
      requires Valid() && Inv(mm.State()) && envs[e].pgdir.Some? && IsRoot(mm.State(), envs[e].pgdir.value)
      modifies this`halted, mm`role, mm`pins, mm.frames, mm.ref, mm.freeList, mm.freeList.next, mm.freeList.prev, envs
      ensures Valid() && State() == WithStack(old(State()), e, entry, pri)
    {
      var st := GiveStack(e);
      if st == Panic {
        halted := true;
        return;
      }
      var env := envs[e].(pri := pri);
      SetEnv(e, env.(tf := env.tf.(pc := entry, sp := USTACKTOP)));
    }

    /** env_init on the zeroed environment table. */
    method EnvInitBlank()
      requires Valid() && forall e :: 0 <= e < NENV ==> envs[e] == BlankEnv()
      modifies envs, envFree, envFree.next, envFree.prev
      ensures Valid() && State() == old(State()).(envFree := AllEnvs())
    {
      EnvInit();
      assert envs[..] == old(envs[..]);
    }

    /** page_init and env_init on a fresh object. */
    method InitTables(freemem: Word)
      requires Valid() && freemem + BY2PG - 1 < TWO64 && Round(freemem, BY2PG) / BY2PG <= mm.npage
      requires State() == KState(mm.State(), seq(NENV, _ => BlankEnv()), [], 0, None, -1, BlankEnv().tf, BlankEnv().tf, false)
      modifies mm`role, mm`pins, mm.ref, mm.freeList, mm.freeList.next, mm.freeList.prev, envs, envFree, envFree.next, envFree.prev
      ensures Valid() && State() == Booted(mm.frames[..], mm.kroot, Round(freemem, BY2PG) / BY2PG)
    {
      assert forall e :: 0 <= e < NENV ==> envs[e] == State().envs[e];
      mm.PageInit(freemem);
      EnvInitBlank();
    }

    method FirstInterrupt(frame: Trapframe)
      requires Valid()
      modifies this`cur, this`halted, this`tframe, envs, sched
      ensures Valid() && State() == FirstRun(old(State()), frame)
    {
      tframe := frame;
      SchedYield();
    }

    /** init/main.c:26-29 and the first interrupt; `used` is where page_init starts to free. */
    method Start(freemem: Word, entry: Word, frame: Trapframe, ghost used: nat)
      requires Valid() && freemem + BY2PG - 1 < TWO64 && used == Round(freemem, BY2PG) / BY2PG
      requires State() == KState(mm.State(), seq(NENV, _ => BlankEnv()), [], 0, None, -1, BlankEnv().tf, BlankEnv().tf, false)
      requires mm.kroot < used && used + 2 <= mm.npage
      requires forall i :: SHARED <= i < ENTRIES ==> !IsValid(mm.frames[mm.kroot][i])
      modifies this, mm`role, mm`pins, mm.frames, mm.ref, mm.freeList, mm.freeList.next, mm.freeList.prev
      modifies envs, envFree, envFree.next, envFree.prev, sched
      ensures Valid() && State() == Started(old(mm.frames[..]), mm.kroot, used, entry, frame)
      ensures KInv(State()) && CanStep(State())
    {
      ghost var frames := mm.frames[..];
      InitTables(freemem);
      StartedInv(frames, mm.kroot, used, entry, frame);
      EnvCreate(entry, 1);
      FirstInterrupt(frame);
    }

    // -------- traps --------

    /** The system-call table, for the calls modelled. */
    method Dispatch(call: Call) returns (ret: int)
      requires Valid() && KInv(State()) && CanStep(State()) && MemSafe(State(), call)
      modifies this, mm`role, mm`pins, mm.frames, mm.ref, mm.freeList, mm.freeList.next, mm.freeList.prev
      modifies envs, envFree, envFree.next, envFree.prev, sched
      ensures Valid() && State() == Serve(old(State()), call)
    {
      ret := 0;
      match call {
        case MemAlloc(envid, va, perm) => ret := SysMemAlloc(envid, va, perm);
        case MemMap(srcid, srcva, dstid, dstva, perm) => ret := SysMemMap(srcid, srcva, dstid, dstva, perm);
        case MemUnmap(envid, va) => ret := SysMemUnmap(envid, va);
        case Fork => ret := SysFork();
        case SetEnvStatus(envid, status) => ret := SysSetEnvStatus(envid, status);
        case Yield => SysYield();
        case IpcRecv(dstva) => var _ := SysIpcRecv(dstva);
        case IpcCanSend(envid, value, srcva, perm) => ret := SysIpcCanSend(envid, value, srcva, perm);
        case EnvDestroy(envid, _) => var swept; ret, swept := SysEnvDestroy(envid);
      }
    }

    /** A trap from user mode: a timer interrupt or a system call. */
    method Trap(ev: Event)
      requires Valid() && KInv(State()) && CanStep(State()) && SafeEvent(State(), ev)
      modifies this, mm`role, mm`pins, mm.frames, mm.ref, mm.freeList, mm.freeList.next, mm.freeList.prev
      modifies envs, envFree, envFree.next, envFree.prev, sched
      ensures Valid() && State() == Step(old(State()), ev) && KInv(State())
    {
      StepGood(State(), ev);
      match ev {
        case Irq(frame) =>
          tframe := frame;
          SchedYield();
        case Syscall(frame, call) =>
          FrameInv(State(), frame);
          kframe := frame;
          var _ := Dispatch(call);
      }
    }
  }
}
