/**
 From page_init and env_init to the first user instruction: env_init and
 env_create_priority of lib/env.c on values, in the order of init/main.c. Every
 invariant that the run-level results start from holds here.
 */
module Startup {
  import opened Bits
  import opened Mmu
  import opened Memory
  import opened MemoryProofs
  import opened PageTable
  import opened AddressSpace
  import opened Sched
  import opened Kernel
  import opened Isolation
  import opened Ipc
  import opened Ids
  import opened Context
  import opened Conservation
  import opened Transfer

  // -------- the stack of a first environment --------

  /** The page below USTACKTOP. */
  function StackPage(): Vpn { Page(STACK_PAGES_END - 1) }

  /** An explicit pp_ref++, on top of those page_insert makes. */
  function Pin(m: Mem, f: nat): Mem
  {
    var m1 := Incr(m, f);
    if f < |m1.pins| then m1.(pins := m1.pins[f := m1.pins[f] + 1]) else m1
  }

  /** page_alloc, pp_ref++, page_insert; without a free page, the pp_ref++ goes through a null pointer. */
  function GiveStack(m: Mem, root: nat): (Mem, Status)
  {
    if m.free == [] then (m, Panic)
    else PageInsert(Pin(TakeFree(m), m.free[0]), root, m.free[0], StackPage(), PTE_V)
  }

  lemma PinRefines(m: Mem, f: nat)
    requires Inv(m) && Mappable(m, f) && m.ref[f] < 65535
    ensures var m1 := Pin(m, f);
            && Inv(m1) && MappingsKept(m, m1) && SameRoots(m, m1)
            && m1.frames == m.frames && m1.role == m.role && m1.free == m.free && m1.ref == m.ref[f := m.ref[f] + 1]
  {
    var m1 := Pin(m, f);
    forall s ensures Counted(m1, s) <==> Counted(m, s) { }
    forall s | Counted(m1, s) ensures TargetOk(m1, s) { assert Counted(m, s) && TargetOk(m, s); }
    forall t | 0 <= t < |m1.role| ensures ParentOk(m1, t) { assert ParentOk(m, t); }
    forall p | 0 <= p < |m1.ref| ensures CountOk(m1, p) { assert CountOk(m, p); RefsEqual(m, m1, p); }
    forall r, v | IsRoot(m, r) && Private(v) ensures Mapping(m1, r, v) == Mapping(m, r, v) { SamePath(m, m1, r, v); }
  }

  /** The page a first environment gets for its stack is zeroed, its own, and counted twice. */
  lemma GiveStackRefines(m: Mem, root: nat)
    requires Inv(m) && IsRoot(m, root) && Mapping(m, root, StackPage()) == None && m.free != []
    ensures var (m', st) := GiveStack(m, root);
            var f := m.free[0];
            && st != Panic && MemStep(m, m', OnePage(root, StackPage())) && m'.kroot == m.kroot
            && (st == Ok ==> Mapping(m', root, StackPage()) == Some(Leaf(f, LeafAttrs(PTE_V))))
            && f < |m'.frames| && m'.frames[f] == ZeroFrame()
            && f < |m'.ref| && m'.ref[f] == if st == Ok then 2 else 1
  {
    var f := m.free[0];
    var v := StackPage();
    PageIsPrivate(STACK_PAGES_END - 1);
    AllocRefines(m);
    var m1 := TakeFree(m);
    PinRefines(m1, f);
    var m2 := Pin(m1, f);
    assert Mapping(m1, root, v) == None && Mapping(m2, root, v) == None;
    SmallKeeps(f, PTE_V);
    InsertRefines(m2, root, f, v, PTE_V);
    InsertCounts(m2, root, f, v, PTE_V);
    var (m', st) := PageInsert(m2, root, f, v, PTE_V);
    assert Holds(m2, f);
    forall x: nat | IsRoot(m, x) ensures IsRoot(m', x) { assert IsRoot(m1, x) && IsRoot(m2, x); }
    forall x: nat, y | IsRoot(m, x) && x != root && Private(y) ensures Mapping(m', x, y) == Mapping(m, x, y) {
      assert IsRoot(m1, x) && IsRoot(m2, x);
      assert Mapping(m1, x, y) == Mapping(m, x, y) && Mapping(m2, x, y) == Mapping(m1, x, y);
    }
    forall g: nat | Holds(m, g) ensures m'.frames[g] == m.frames[g] { assert Holds(m1, g) && Holds(m2, g); }
  }

  // -------- env_create_priority --------

  function EnvCreate(s: KState, entry: Word, pri: Word): KState
  {
    match EnvAlloc(s, 0)
    case (s1, None) => s1.(halted := true)
    case (s1, Some(e)) => WithStack(s1, e, entry, pri)
  }

  /** What follows env_alloc: the stack page, and the fields the caller chooses. */
  function WithStack(s: KState, e: EnvIx, entry: Word, pri: Word): KState
  {
    var (m, st) := GiveStack(s.mem, RootOf(s, e));
    if st == Panic then s.(mem := m, halted := true)
    else PutEnv(s.(mem := m), e, s.envs[e].(pri := pri, tf := s.envs[e].tf.(pc := entry, sp := USTACKTOP)))
  }

  ghost predicate CanCreate(s: KState)
  {
    s.envFree != [] && |s.mem.free| >= 2
  }

  /** The environment env_create_priority makes of the first free slot. */
  function NewEnv(s: KState, entry: Word, pri: Word): Env
    requires s.envFree != [] && s.mem.free != []
  {
    var e := s.envFree[0];
    s.envs[e].(id := MakeId((s.nextId + 1) % TWO64, e), parent := 0, status := EnvStatus.Runnable, runs := 0, pri := pri,
               pgdir := Some(s.mem.free[0]), tf := s.envs[e].tf.(pc := entry, sp := USTACKTOP))
  }

  /** The same environment field by field. */
  ghost predicate NewIs(s: KState, env: Env, e: EnvIx, entry: Word, pri: Word)
    requires s.mem.free != []
  {
    && env.tf == s.envs[e].tf.(pc := entry, sp := USTACKTOP) && env.status == EnvStatus.Runnable
    && env.id == MakeId((s.nextId + 1) % TWO64, e) && env.parent == 0 && env.pri == pri && env.runs == 0
    && env.pgdir == Some(s.mem.free[0]) && SameIpc(env, s.envs[e])
  }

  lemma CreateShape(s: KState, entry: Word, pri: Word, m: Mem)
    requires CanCreate(s) && GiveStack(SetupVm(s.mem), s.mem.free[0]).0 == m && GiveStack(SetupVm(s.mem), s.mem.free[0]).1 != Panic
    ensures EnvCreate(s, entry, pri) ==
            s.(mem := m, envs := s.envs[s.envFree[0] := NewEnv(s, entry, pri)], envFree := s.envFree[1..], nextId := (s.nextId + 1) % TWO64)
  {
    var e := s.envFree[0];
    var (s1, r) := EnvAlloc(s, 0);
    assert EnvCreate(s, entry, pri).envs == s.envs[e := NewEnv(s, entry, pri)];
  }

  /** A new environment is runnable at its entry point, with a stack page of its own; nobody else notices. */
  lemma EnvCreateGood(s: KState, entry: Word, pri: Word) returns (s': KState)
    requires KInv(s) && CanCreate(s)
    ensures s' == EnvCreate(s, entry, pri)
    ensures var e := s.envFree[0];
            && GoodStep(s, s', None) && s'.halted == s.halted && s'.cur == s.cur && s.cur != Some(e)
            && s'.envFree == s.envFree[1..] && s'.nextId == (s.nextId + 1) % TWO64 && s'.pos == s.pos
            && s'.envs == s.envs[e := NewEnv(s, entry, pri)] && NewIs(s, s'.envs[e], e, entry, pri)
            && (|s.mem.free| >= 4 ==> Mapping(s'.mem, s.mem.free[0], StackPage()) == Some(Leaf(s.mem.free[1], LeafAttrs(PTE_V))))
  {
    EnvAllocGood(s, 0);
    var (s1, r) := EnvAlloc(s, 0);
    var e, root := s.envFree[0], s.mem.free[0];
    var m := CreateMem(s.mem);
    NewMemInv(s1, m, OnePage(root, StackPage()));
    PutEnvInv(s1.(mem := m), e, NewEnv(s, entry, pri));
    CreateShape(s, entry, pri, m);
    s' := EnvCreate(s, entry, pri);
    assert s' == PutEnv(s1.(mem := m), e, NewEnv(s, entry, pri));
  }

  /** Memory after the page directory and the stack of a new environment. */
  lemma CreateMem(m: Mem) returns (m2: Mem)
    requires Inv(m) && |m.free| >= 2
    ensures m2 == GiveStack(SetupVm(m), m.free[0]).0 && GiveStack(SetupVm(m), m.free[0]).1 != Panic
    ensures MemStep(SetupVm(m), m2, OnePage(m.free[0], StackPage())) && MemStep(m, m2, Nowhere)
    ensures |m.free| >= 4 ==> Mapping(m2, m.free[0], StackPage()) == Some(Leaf(m.free[1], LeafAttrs(PTE_V)))
  {
    var m1, root := SetupVm(m), m.free[0];
    SetupRefines(m);
    SetupShape(m);
    SetupStep(m);
    PageIsPrivate(STACK_PAGES_END - 1);
    GiveStackRefines(m1, root);
    m2 := GiveStack(m1, root).0;
    MemStepChain(m, m1, m2, root, OnePage(root, StackPage()));
    if |m.free| >= 4 { GiveStackSucceeds(m1, root); }
  }

  lemma GiveStackSucceeds(m: Mem, root: nat)
    requires Inv(m) && IsRoot(m, root) && Mapping(m, root, StackPage()) == None && |m.free| >= 3
    ensures GiveStack(m, root).1 == Ok
  {
    var f := m.free[0];
    var v := StackPage();
    PageIsPrivate(STACK_PAGES_END - 1);
    AllocRefines(m);
    PinRefines(TakeFree(m), f);
    InsertRefines(Pin(TakeFree(m), f), root, f, v, PTE_V);
  }

  // -------- the first states --------

  /** env_free_list as env_init leaves it: every environment, in order. */
  function AllEnvs(): (r: seq<EnvIx>)
    ensures |r| == NENV && forall e :: 0 <= e < NENV ==> r[e] == e
  {
    seq(NENV, e requires 0 <= e < NENV => e)
  }

  /** The state after boot_mmu_setup, aarch64_vm_init, page_init and env_init. */
  function Booted(frames: seq<Frame>, kroot: nat, used: nat): KState
    requires used <= |frames|
  {
    KState(InitialMem(frames, kroot, used), seq(NENV, _ => BlankEnv()), AllEnvs(), 0, None, -1, BlankEnv().tf, BlankEnv().tf, false)
  }

  function Contexts(s: KState): (l: Frames)
    ensures forall e :: 0 <= e < NENV ==> l[e] == s.envs[e].tf
  {
    seq(NENV, e requires 0 <= e < NENV => s.envs[e].tf)
  }

  /** What every run-level result asks of its first state. */
  ghost predicate Ready(s: KState)
  {
    KInv(s) && IpcOk(s) && NoneReceiving(s) && IdsOk(s) && ContextsOk(s, Contexts(s)) && !s.halted && s.cur == None
  }

  ghost predicate NoneReceiving(s: KState)
  {
    forall e: EnvIx {:trigger s.envs[e].ipcRecving} :: !s.envs[e].ipcRecving
  }

  lemma BootedReady(frames: seq<Frame>, kroot: nat, used: nat)
    requires kroot < used <= |frames| <= MAX_FRAMES
    requires forall i :: SHARED <= i < ENTRIES ==> !IsValid(frames[kroot][i])
    ensures Ready(Booted(frames, kroot, used))
  {
    InitialInv(frames, kroot, used);
    var s := Booted(frames, kroot, used);
    assert forall e: EnvIx :: s.envs[e] == BlankEnv();
    forall e: EnvIx ensures e in s.envFree { assert s.envFree[e] == e; }
  }

  /** The fields a creation touches, apart from memory. */
  ghost predicate Created(s: KState, s': KState, e: EnvIx)
  {
    && s.envFree != [] && e == s.envFree[0]
    && s'.halted == s.halted && s'.cur == s.cur && s'.envFree == s.envFree[1..] && s'.nextId == s.nextId + 1
    && s'.envs == s.envs[e := s'.envs[e]]
    && s'.envs[e].status == EnvStatus.Runnable && s'.envs[e].id == (s.nextId + 1) * 2048 + e
    && s'.envs[e].ipcRecving == s.envs[e].ipcRecving
  }

  lemma CreatedIpc(s: KState, s': KState, e: EnvIx)
    requires IpcOk(s) && NoneReceiving(s) && s.cur == None && Created(s, s', e)
    ensures IpcOk(s') && NoneReceiving(s')
  {
    RestDistinct(s.envFree);
    assert e in s.envFree;
  }

  lemma CreatedContexts(s: KState, s': KState, e: EnvIx)
    requires ContextsOk(s, Contexts(s)) && s.cur == None && Created(s, s', e)
    ensures ContextsOk(s', Contexts(s'))
  {
    FreeTail(s.envFree);
    forall d | d in s'.envFree ensures s'.envs[d].status == EnvStatus.Free { assert d in s.envFree && d != e; }
  }

  lemma CreateStep(s: KState, entry: Word, pri: Word) returns (s': KState)
    requires KInv(s) && IdsOk(s) && CanCreate(s) && s.nextId + 1 < SERIALS
    ensures s' == EnvCreate(s, entry, pri) && KInv(s') && Created(s, s', s.envFree[0])
  {
    NextId(s.nextId, s.envFree[0]);
    s' := EnvCreateGood(s, entry, pri);
  }

  lemma NextId(n: Word, e: EnvIx)
    requires n + 1 < SERIALS
    ensures (n + 1) % TWO64 == n + 1 && MakeId((n + 1) % TWO64, e) == (n + 1) * 2048 + e
  {
  }

  lemma CreateReady(s: KState, entry: Word, pri: Word) returns (s': KState)
    requires Ready(s) && CanCreate(s) && s.nextId + 1 < SERIALS
    ensures s' == EnvCreate(s, entry, pri) && Ready(s') && Created(s, s', s.envFree[0])
  {
    s' := CreateStep(s, entry, pri);
    FreshSlot(s, s', s.envFree[0]);
    CreatedIpc(s, s', s.envFree[0]);
    CreatedContexts(s, s', s.envFree[0]);
  }

  /** The first interrupt arrives with no environment current, and the scheduler picks one to start. */
  function FirstRun(s: KState, frame: Trapframe): KState
  {
    SchedYield(s.(tframe := frame))
  }

  lemma FirstRunReady(s: KState, frame: Trapframe) returns (s': KState)
    requires Ready(s) && exists e :: 0 <= e < NENV && s.envs[e].status == EnvStatus.Runnable
    ensures s' == FirstRun(s, frame)
    ensures KInv(s') && IpcOk(s') && NoneReceiving(s') && IdsOk(s') && Resumed(s', Contexts(s)) && CanStep(s') && s'.nextId == s.nextId
  {
    var s1 := s.(tframe := frame);
    s' := FirstRun(s, frame);
    FirstRunStarts(s1);
    FirstRunKeeps(s1);
    SchedResumes(s1, Contexts(s));
  }

  lemma FirstRunStarts(s: KState)
    requires !s.halted && exists e :: 0 <= e < NENV && s.envs[e].status == EnvStatus.Runnable
    ensures CanStep(SchedYield(s))
  {
    PickIsNearest(Statuses(s), s.pos);
    assert exists e :: 0 <= e < NENV && Statuses(s)[e] == EnvStatus.Runnable;
  }

  lemma FirstRunKeeps(s: KState)
    requires KInv(s) && IpcOk(s) && NoneReceiving(s) && IdsOk(s) && !s.halted
    ensures var s' := SchedYield(s);
            KInv(s') && IpcOk(s') && NoneReceiving(s') && IdsOk(s') && s'.nextId == s.nextId
  {
    SchedInv(s);
    var s' := YieldIpc(s);
    forall e: EnvIx ensures !s'.envs[e].ipcRecving { assert SameIpc(s'.envs[e], s.envs[e]); }
    SchedKept(s);
    KeptIsStep(s, SchedYield(s));
  }

  /** init/main.c from page_init on: one environment is created and started. */
  function Started(frames: seq<Frame>, kroot: nat, used: nat, entry: Word, frame: Trapframe): KState
    requires used <= |frames|
  {
    FirstRun(EnvCreate(Booted(frames, kroot, used), entry, 1), frame)
  }

  /** The registers with which each environment starts: the first at its entry point, on top of an empty stack. */
  function FirstFrames(entry: Word): Frames
  {
    var blank := BlankEnv().tf;
    seq(NENV, e requires 0 <= e < NENV => if e == 0 then blank.(pc := entry, sp := USTACKTOP) else blank)
  }

  lemma CreatedFrames(s: KState, s': KState, entry: Word, pri: Word)
    requires forall e: EnvIx {:trigger s.envs[e]} :: s.envs[e] == BlankEnv()
    requires s.envFree != [] && s.envFree[0] == 0 && s.mem.free != [] && s'.envs == s.envs[0 := NewEnv(s, entry, pri)]
    ensures Contexts(s') == FirstFrames(entry)
  {
    forall e: EnvIx ensures Contexts(s')[e] == FirstFrames(entry)[e] { }
  }

  /** The first interrupt starts environment 0, which alone is runnable, at its entry point. */
  lemma StartedReady(frames: seq<Frame>, kroot: nat, used: nat, entry: Word, frame: Trapframe) returns (s: KState)
    requires kroot < used && used + 2 <= |frames| <= MAX_FRAMES
    requires forall i :: SHARED <= i < ENTRIES ==> !IsValid(frames[kroot][i])
    ensures s == Started(frames, kroot, used, entry, frame)
    ensures KInv(s) && IpcOk(s) && NoneReceiving(s) && IdsOk(s) && CanStep(s) && s.nextId == 1
    ensures Resumed(s, FirstFrames(entry)) && s.cur == Some(0) && s.envs[0].tf.pc == entry && s.envs[0].tf.sp == USTACKTOP
  {
    BootedReady(frames, kroot, used);
    var s0 := Booted(frames, kroot, used);
    assert s0.envFree[0] == 0;
    var s1 := CreateReady(s0, entry, 1);
    var _ := EnvCreateGood(s0, entry, 1);
    CreatedFrames(s0, s1, entry, 1);
    assert s1.envs[0].status == EnvStatus.Runnable;
    s := FirstRunReady(s1, frame);
    OnlyFirst(s1.(tframe := frame));
  }

  /** With environment 0 alone runnable and none current, the scheduler starts it as it is. */
  lemma OnlyFirst(s: KState)
    requires s.cur == None && s.envs[0].status == EnvStatus.Runnable
    requires forall e: EnvIx {:trigger s.envs[e].status} :: e != 0 ==> s.envs[e].status != EnvStatus.Runnable
    ensures var s' := SchedYield(s);
            && s' == s.(cur := Some(0), pos := 0, envs := s'.envs)
            && s'.envs == s.envs[0 := s.envs[0].(runs := (s.envs[0].runs + 1) % TWO64)]
  {
    PickIsNearest(Statuses(s), s.pos);
    assert Statuses(s)[0] == EnvStatus.Runnable;
  }

  lemma GiveStackFree(m: Mem, root: nat)
    requires Inv(m) && IsRoot(m, root) && Mapping(m, root, StackPage()) == None && m.free != []
    ensures |GiveStack(m, root).0.free| >= |m.free| - 3
  {
    var f, v := m.free[0], StackPage();
    PageIsPrivate(STACK_PAGES_END - 1);
    AllocRefines(m);
    PinRefines(TakeFree(m), f);
    var m2 := Pin(TakeFree(m), f);
    assert Mapping(m2, root, v) == None;
    LookupRefines(m2, root, v);
    SmallKeeps(f, PTE_V);
    InsertFreshCounts(m2, root, f, v, PTE_V);
  }

  /** A creation leaves at least four pages fewer. */
  lemma CreateFree(s: KState, entry: Word, pri: Word)
    requires KInv(s) && CanCreate(s)
    ensures |EnvCreate(s, entry, pri).mem.free| >= |s.mem.free| - 4
  {
    var m := CreateMem(s.mem);
    CreateShape(s, entry, pri, m);
    SetupRefines(s.mem);
    SetupShape(s.mem);
    PageIsPrivate(STACK_PAGES_END - 1);
    GiveStackFree(SetupVm(s.mem), s.mem.free[0]);
  }

  /** The fields of an environment made of a blank slot 0 by the first creation. */
  lemma FirstFields(s: KState, env: Env, entry: Word)
    requires s.mem.free != [] && s.nextId == 0 && s.envs[0] == BlankEnv() && NewIs(s, env, 0, entry, 1)
    ensures env.id == 2048 && env.status == EnvStatus.Runnable && !env.ipcRecving
    ensures env.parent == 0 && env.pri == 1 && env.runs == 0
  {
    NextId(0, 0);
  }

  /** The first creation, when its stack could be had. */
  lemma FirstCreated(s: KState, entry: Word, m: Mem) returns (s1: KState)
    requires CanCreate(s) && s.envFree[0] == 0 && s.nextId == 0 && s.envs[0] == BlankEnv()
    requires GiveStack(SetupVm(s.mem), s.mem.free[0]).0 == m && GiveStack(SetupVm(s.mem), s.mem.free[0]).1 != Panic
    ensures s1 == EnvCreate(s, entry, 1) && s1.envs == s.envs[0 := s1.envs[0]]
    ensures s1.nextId == 1 && s1.envFree == s.envFree[1..] && s1.cur == s.cur
    ensures var env := s1.envs[0];
            && env.id == 2048 && env.status == EnvStatus.Runnable && !env.ipcRecving
            && env.parent == 0 && env.pri == 1 && env.runs == 0
  {
    CreateShape(s, entry, 1, m);
    s1 := EnvCreate(s, entry, 1);
    FirstFields(s, s1.envs[0], entry);
  }

  /** The state in which the first interrupt arrives. */
  lemma FirstState(frames: seq<Frame>, kroot: nat, used: nat, entry: Word) returns (s1: KState)
    requires kroot < used && used + 2 <= |frames| <= MAX_FRAMES
    requires forall i :: SHARED <= i < ENTRIES ==> !IsValid(frames[kroot][i])
    ensures s1 == EnvCreate(Booted(frames, kroot, used), entry, 1)
    ensures s1.cur == None && s1.nextId == 1 && s1.envFree == AllEnvs()[1..] && |s1.mem.free| >= |frames| - used - 4
    ensures s1.envs[0].id == 2048 && s1.envs[0].status == EnvStatus.Runnable && !s1.envs[0].ipcRecving
    ensures s1.envs[0].parent == 0 && s1.envs[0].pri == 1 && s1.envs[0].runs == 0
    ensures forall e: EnvIx {:trigger s1.envs[e]} :: e != 0 ==> s1.envs[e] == BlankEnv()
  {
    BootedReady(frames, kroot, used);
    var s0 := Booted(frames, kroot, used);
    assert s0.envFree[0] == 0;
    CreateFree(s0, entry, 1);
    var m := CreateMem(s0.mem);
    s1 := FirstCreated(s0, entry, m);
  }

  /** The first interrupt changes where the scheduler stands, which environment is current, and how often that one was run. */
  lemma FirstRunIs(s1: KState, frame: Trapframe) returns (s: KState)
    requires s1.cur == None && s1.envs[0].status == EnvStatus.Runnable && s1.envs[0].runs == 0
    requires forall e: EnvIx {:trigger s1.envs[e]} :: e != 0 ==> s1.envs[e] == BlankEnv()
    ensures s == FirstRun(s1, frame)
    ensures s.mem == s1.mem && s.pos == 0 && s.nextId == s1.nextId && s.envFree == s1.envFree
    ensures s.envs == s1.envs[0 := s1.envs[0].(runs := 1)]
  {
    OnlyFirst(s1.(tframe := frame));
    s := FirstRun(s1, frame);
  }

  /** The environments and the number of free pages with which the first one starts. */
  lemma StartedShape(frames: seq<Frame>, kroot: nat, used: nat, entry: Word, frame: Trapframe) returns (s: KState)
    requires kroot < used && used + 2 <= |frames| <= MAX_FRAMES
    requires forall i :: SHARED <= i < ENTRIES ==> !IsValid(frames[kroot][i])
    ensures s == Started(frames, kroot, used, entry, frame)
    ensures s.pos == 0 && s.nextId == 1 && s.envFree == AllEnvs()[1..] && |s.mem.free| >= |frames| - used - 4
    ensures s.envs[0].id == 2048 && s.envs[0].status == EnvStatus.Runnable && !s.envs[0].ipcRecving
    ensures s.envs[0].parent == 0 && s.envs[0].pri == 1 && s.envs[0].runs == 1
    ensures forall e: EnvIx {:trigger s.envs[e]} :: e != 0 ==> s.envs[e] == BlankEnv()
  {
    var s1 := FirstState(frames, kroot, used, entry);
    s := FirstRunIs(s1, frame);
  }

  // -------- the free list at the start --------

  lemma PinStrays(m: Mem, f: nat)
    requires Inv(m) && Mappable(m, f) && m.ref[f] < 65535
    ensures Strays(Pin(m, f)) == Strays(m) - {f}
  {
    var m1 := Pin(m, f);
    assert m1.ref == m.ref[f := m.ref[f] + 1];
    forall p: nat ensures Stranded(m1, p) <==> p in Strays(m) - {f} { InStrays(m, p); }
    StraysFrom(m1, Strays(m) - {f});
  }

  lemma GiveStackStrays(m: Mem, root: nat)
    requires Inv(m) && IsRoot(m, root) && m.free != []
    ensures Strays(GiveStack(m, root).0) == Strays(m)
  {
    var f := m.free[0];
    PageIsPrivate(STACK_PAGES_END - 1);
    AllocRefines(m);
    var m1 := TakeFree(m);
    TakeStrays(m);
    PinRefines(m1, f);
    PinStrays(m1, f);
    SmallKeeps(f, PTE_V);
    assert IsRoot(Pin(m1, f), root);
    InsertStrays(Pin(m1, f), root, f, StackPage(), PTE_V);
  }

  lemma CreateListed(s: KState, entry: Word, pri: Word)
    requires KInv(s) && CanCreate(s) && AllListed(s.mem)
    ensures var m := EnvCreate(s, entry, pri).mem; Sizes(m) && AllListed(m)
  {
    var s' := EnvCreateGood(s, entry, pri);
    SetupRefines(s.mem);
    SetupStrays(s.mem);
    GiveStackStrays(SetupVm(s.mem), s.mem.free[0]);
    NoStrays(s.mem);
    NoStrays(s'.mem);
  }

  /** When the first environment starts, the free list holds every data page without a reference. */
  lemma StartedListed(frames: seq<Frame>, kroot: nat, used: nat, entry: Word, frame: Trapframe)
    requires kroot < used && used + 2 <= |frames| <= MAX_FRAMES
    requires forall i :: SHARED <= i < ENTRIES ==> !IsValid(frames[kroot][i])
    ensures var m := Started(frames, kroot, used, entry, frame).mem; Sizes(m) && AllListed(m)
  {
    BootedReady(frames, kroot, used);
    InitialListed(frames, kroot, used);
    CreateListed(Booted(frames, kroot, used), entry, 1);
  }

  /** What holds at every moment of a run from s, whose environments start with the frames `first`, and what each part of it asks of the run's traps. */
  ghost predicate RunResults(s: KState, evs: seq<Event>, first: Frames)
  {
    && (SafeRun(s, evs) ==> KInv(Run(s, evs)) && (AllListed(Run(s, evs).mem) <==> Strandings(s, evs) == 0))
    && (Allocations(s, evs) + 2 < SERIALS ==> IdsOk(Run(s, evs)) && Run(s, evs).nextId == 1 + Allocations(s, evs))
    && (WellTrapped(evs) ==> ContextsOk(Run(s, evs), CapturedRun(s, evs, first)))
    && (IpcRun(s, evs) ==> IpcOk(Run(s, evs)) && forall e: EnvIx :: Bit(Run(s, evs), e) == Begun(s, evs, e) - Sent(s, evs, e))
  }

  /** From power-on to any later trap: the invariants of memory, the free list, ids, contexts and IPC hold together. */
  lemma EveryRun(frames: seq<Frame>, kroot: nat, used: nat, entry: Word, frame: Trapframe, evs: seq<Event>)
    requires kroot < used && used + 2 <= |frames| <= MAX_FRAMES
    requires forall i :: SHARED <= i < ENTRIES ==> !IsValid(frames[kroot][i])
    ensures RunResults(Started(frames, kroot, used, entry, frame), evs, FirstFrames(entry))
  {
    var s := StartedReady(frames, kroot, used, entry, frame);
    StartedListed(frames, kroot, used, entry, frame);
    RunsFrom(s, evs, FirstFrames(entry));
  }

  lemma RunsFrom(s: KState, evs: seq<Event>, first: Frames)
    requires KInv(s) && IpcOk(s) && NoneReceiving(s) && IdsOk(s) && s.nextId == 1 && ContextsOk(s, first)
    requires AllListed(s.mem)
    ensures RunResults(s, evs, first)
  {
    if SafeRun(s, evs) { PagesConserved(s, evs); RunKeepsInv(s, evs); }
    if Allocations(s, evs) + 2 < SERIALS { assert Issued(s, 2048); IssuedForever(s, evs, 2048); }
    if WellTrapped(evs) { RunContexts(s, evs, first); }
    if IpcRun(s, evs) {
      forall e: EnvIx ensures IpcOk(Run(s, evs)) && Bit(Run(s, evs), e) == Begun(s, evs, e) - Sent(s, evs, e) { Pairing(s, evs, e); }
      assert IpcOk(Run(s, evs)) by { Pairing(s, evs, 0); }
    }
  }
}
