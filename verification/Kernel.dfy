/**
 lib/env.c, lib/syscall_all.c, lib/sched.c on values: one state for memory,
 environments, scheduler position and saved register frames, and one step per
 trap. Interrupts are masked in the kernel, so a trap runs to its end.
 */
module Kernel {
  import opened Bits
  import opened Mmu
  import opened Memory
  import opened AddressSpace
  import opened Sched

  const E_BAD_ENV: int := 2
  const E_INVAL: int := 3
  const E_NO_MEM: int := 4
  const E_NO_FREE_ENV: int := 5
  const E_IPC_NOT_RECV: int := 6

  const UTOP: nat := 0xe000_0000
  const USTACKTOP: nat := 0xdfff_e000       // UTOP - 2 * BY2PG
  const STACK_PAGES_END: nat := 0xd_fffe    // USTACKTOP / BY2PG

  type Regs = x: seq<Word> | |x| == 31 witness seq(31, _ => 0)

  datatype Trapframe = Trapframe(x: Regs, sp: Word, elr: Word, pstate: Word, pc: Word)

  datatype Env = Env(
    tf: Trapframe,
    id: Word,
    parent: Word,
    status: EnvStatus,
    pgdir: Option<nat>,        // frame of env_pgdir; None is NULL
    pri: Word,
    runs: Word,
    ipcValue: Word,
    ipcFrom: Word,
    ipcRecving: bool,
    ipcDstva: Word,
    ipcPerm: Word
  )

  type EnvIx = e: int | 0 <= e < NENV
  function BlankEnv(): Env
  {
    Env(Trapframe(seq(31, _ => 0), 0, 0, 0, 0), 0, 0, EnvStatus.Free, None, 0, 0, 0, 0, false, 0, 0)
  }

  type Envs = s: seq<Env> | |s| == NENV witness seq(NENV, _ => BlankEnv())
  type Pos = p: int | -1 <= p < NENV

  datatype KState = KState(
    mem: Mem,
    envs: Envs,
    envFree: seq<EnvIx>,       // env_free_list
    nextId: Word,              // next_env_id
    cur: Option<EnvIx>,        // curenv
    pos: Pos,                  // the scheduler's pos
    kframe: Trapframe,         // the frame below KERNEL_SP, filled by a system call
    tframe: Trapframe,         // the frame below TIMESTACK, filled by an interrupt
    halted: bool               // panic, unhandled fault, or a scheduler with nothing to run
  )

  // -------- environments --------

  /** ENVX */
  function Envx(id: Word): EnvIx { id % NENV }

  const SERIALS: nat := 0x20_0000_0000_0000   // 2^53: serial numbers that fit above the low 11 bits

  /** mkenvid's value for counter n: serial number and slot, packed (MakeIdPacks relates this to the shift and the or). */
  function MakeId(n: Word, e: EnvIx): Word
  {
    n % SERIALS * 2048 + e
  }

  function PutEnv(s: KState, e: EnvIx, env: Env): KState
  {
    s.(envs := s.envs[e := env])
  }

  /** The table root of an environment; a NULL env_pgdir is address 0. */
  function RootOf(s: KState, e: EnvIx): nat
  {
    match s.envs[e].pgdir case None => 0 case Some(r) => r
  }

  /** envid2env; None stands for -E_BAD_ENV. */
  function Envid2Env(s: KState, envid: Word, checkperm: bool): Option<EnvIx>
    requires s.cur.Some?
  {
    var e := Envx(envid);
    if envid == 0 then s.cur
    else if s.envs[e].status == EnvStatus.Free || s.envs[e].id != envid then None
    else if checkperm && e != s.cur.value && s.envs[e].parent != s.envs[s.cur.value].id then None
    else Some(e)
  }

  /** env_alloc; running out of pages in env_setup_vm is a panic. */
  function EnvAlloc(s: KState, parent: Word): (KState, Option<EnvIx>)
  {
    if s.envFree == [] then (s, None)
    else if s.mem.free == [] then (s.(halted := true), None)
    else
      var e := s.envFree[0];
      var n := (s.nextId + 1) % TWO64;
      var env := s.envs[e];
      var env' := env.(parent := parent, status := EnvStatus.Runnable, runs := 0, id := MakeId(n, e),
                       pgdir := Some(s.mem.free[0]), tf := env.tf.(sp := USTACKTOP));
      (s.(mem := SetupVm(s.mem), nextId := n, envs := s.envs[e := env'], envFree := s.envFree[1..]), Some(e))
  }

  // -------- scheduling --------

  function Statuses(s: KState): (st: seq<EnvStatus>)
    ensures |st| == NENV && forall e :: 0 <= e < NENV ==> st[e] == s.envs[e].status
  {
    seq(NENV, e requires 0 <= e < NENV => s.envs[e].status)
  }

  /** env_run, up to the return to user mode: the interrupted registers are saved, e becomes current. */
  function EnvRun(s: KState, e: EnvIx): KState
  {
    var s1 := match s.cur
              case None => s
              case Some(c) => PutEnv(s, c, s.envs[c].(tf := s.tframe.(pc := s.tframe.elr)));
    PutEnv(s1, e, s1.envs[e].(runs := (s1.envs[e].runs + 1) % TWO64)).(cur := Some(e))
  }

  /** sched_yield. With nothing runnable it never returns. */
  function SchedYield(s: KState): KState
  {
    match Pick(Statuses(s), s.pos)
    case None => s.(halted := true)
    case Some(e) => PickIsNearest(Statuses(s), s.pos); EnvRun(s.(pos := e), e)
  }

  // -------- system calls: the new state and the value returned in x0 --------

  function AsInt(w: Word): int
  {
    if w % 0x1_0000_0000 < 0x8000_0000 then w % 0x1_0000_0000 else w % 0x1_0000_0000 - 0x1_0000_0000
  }

  /** The outcome of a system call that ends in page_insert; a panic halts. */
  function AfterInsert(s: KState, r: (Mem, Status)): (KState, int)
  {
    match r.1
    case Ok => (s.(mem := r.0), 0)
    case NoMem => (s.(mem := r.0), -E_NO_MEM)
    case Panic => (s.(mem := r.0, halted := true), 0)
  }

  function UInt(perm: Word): nat { perm % 0x1_0000_0000 }

  function SysMemAlloc(s: KState, envid: Word, va: Word, perm: Word): (KState, int)
    requires s.cur.Some?
  {
    if perm % 2 == 0 then (s, -E_INVAL)
    else if s.mem.free == [] then (s, -E_NO_MEM)
    else
      var s1 := s.(mem := TakeFree(s.mem));
      match Envid2Env(s1, envid, true)
      case None => (s1, -E_BAD_ENV)
      case Some(e) => AfterInsert(s1, PageInsert(s1.mem, RootOf(s1, e), s.mem.free[0], VpnOf(va), UInt(perm)))
  }

  function SysMemMap(s: KState, srcid: Word, srcva: Word, dstid: Word, dstva: Word, perm: Word): (KState, int)
    requires s.cur.Some?
  {
    match Envid2Env(s, srcid, true)
    case None => (s, -E_BAD_ENV)
    case Some(a) =>
      match Envid2Env(s, dstid, true)
      case None => (s, -E_BAD_ENV)
      case Some(b) =>
        if perm % 2 == 0 then (s, -E_NO_MEM)
        else
          match PageLookup(s.mem, RootOf(s, a), VpnOf(srcva))
          case Missing => (s, -E_NO_MEM)
          case Invalid => (s.(halted := true), 0)
          case Found(p, _) => AfterInsert(s, PageInsert(s.mem, RootOf(s, b), p, VpnOf(dstva), UInt(perm)))
  }

  function SysMemUnmap(s: KState, envid: Word, va: Word): (KState, int)
    requires s.cur.Some?
  {
    match Envid2Env(s, envid, true)
    case None => (s, -E_BAD_ENV)
    case Some(e) => AfterInsert(s, PageRemove(s.mem, RootOf(s, e), VpnOf(va)))
  }

  /** What fork sets in the new environment, besides env_alloc. */
  function ForkEnv(s: KState, child: Env, parent: Env): Env
  {
    child.(status := EnvStatus.NotRunnable, tf := s.kframe.(x := s.kframe.x[0 := 0]), pri := parent.pri)
  }

  /** The end of fork, after the page loop. */
  function ForkFinish(s: KState, e: EnvIx, r: (Mem, ForkStatus)): (KState, int)
  {
    var s1 := s.(mem := r.0);
    match r.1
    case OutOfPages => (s1, -E_NO_MEM)
    case Fault => (s1.(halted := true), 0)
    case _ => (PutEnv(s1, e, s1.envs[e].(status := EnvStatus.Runnable)), AsInt(s1.envs[e].id))
  }

  /** sys_env_alloc */
  function SysFork(s: KState): (KState, int)
    requires s.cur.Some?
  {
    var c := s.cur.value;
    match EnvAlloc(s, s.envs[c].id)
    case (s1, None) => (s1, if s1.halted then 0 else -E_NO_FREE_ENV)
    case (s1, Some(e)) =>
      var s2 := PutEnv(s1, e, ForkEnv(s, s1.envs[e], s1.envs[c]));
      ForkFinish(s2, e, ForkPages(s2.mem, RootOf(s2, c), RootOf(s2, e), s2.envs[e].tf.sp / BY2PG, STACK_PAGES_END))
  }

  /** The environment a fork makes of the first free slot, before its page loop. */
  function Child(s: KState): Env
    requires s.cur.Some? && s.envFree != [] && s.mem.free != []
  {
    var e := s.envFree[0];
    s.envs[e].(tf := s.kframe.(x := s.kframe.x[0 := 0]), id := MakeId((s.nextId + 1) % TWO64, e), parent := s.envs[s.cur.value].id,
               status := EnvStatus.NotRunnable, pgdir := Some(s.mem.free[0]), pri := s.envs[s.cur.value].pri, runs := 0)
  }

  /** The state in which a fork starts its page loop. */
  function ForkEntered(s: KState): KState
    requires s.cur.Some? && s.envFree != [] && s.mem.free != []
  {
    PutEnv(s, s.envFree[0], Child(s)).(mem := SetupVm(s.mem), nextId := (s.nextId + 1) % TWO64, envFree := s.envFree[1..])
  }

  /** fork in its two parts: the new environment, and what the outcome of the page loop leads to. */
  lemma ForkParts(s: KState) returns (s2: KState, loop: (Mem, ForkStatus))
    requires s.cur.Some? && s.envFree != [] && s.mem.free != []
    ensures s2 == ForkEntered(s) && SysFork(s) == ForkFinish(s2, s.envFree[0], loop)
    ensures loop == ForkPages(s2.mem, RootOf(s2, s.cur.value), RootOf(s2, s.envFree[0]), s.kframe.sp / BY2PG, STACK_PAGES_END)
  {
    var c, e := s.cur.value, s.envFree[0];
    var s1 := EnvAlloc(s, s.envs[c].id).0;
    s2 := PutEnv(s1, e, ForkEnv(s, s1.envs[e], s1.envs[c]));
    assert s2.envs == ForkEntered(s).envs;
    loop := ForkPages(s2.mem, RootOf(s2, c), RootOf(s2, e), s2.envs[e].tf.sp / BY2PG, STACK_PAGES_END);
  }

  /** The end of fork changes memory, the halt flag and the status of the child. */
  lemma FinishShape(s: KState, e: EnvIx, loop: (Mem, ForkStatus)) returns (s': KState)
    requires s.envs[e].status == EnvStatus.NotRunnable
    ensures s' == ForkFinish(s, e, loop).0
    ensures s' == s.(mem := loop.0, halted := s'.halted, envs := s'.envs) && s'.envs == s.envs[e := s.envs[e].(status := s'.envs[e].status)]
    ensures s'.halted <==> s.halted || loop.1 == Fault
    ensures s'.envs[e].status == if loop.1 == Complete || loop.1 == Partial then EnvStatus.Runnable else EnvStatus.NotRunnable
    ensures ForkFinish(s, e, loop).1 == if loop.1 == OutOfPages then -E_NO_MEM else if loop.1 == Fault then 0 else AsInt(s.envs[e].id)
  {
    s' := ForkFinish(s, e, loop).0;
  }

  /** What a fork leaves of everything but memory: only the new environment, the free list and the counter change. */
  lemma ForkShape(s: KState) returns (s': KState, loop: (Mem, ForkStatus))
    requires s.cur.Some? && s.envFree != [] && s.mem.free != []
    ensures s' == SysFork(s).0
    ensures var e := s.envFree[0];
            && s'.envs == s.envs[e := Child(s).(status := s'.envs[e].status)]
            && s'.envs[e].status == (if loop.1 == Complete || loop.1 == Partial then EnvStatus.Runnable else EnvStatus.NotRunnable)
            && s'.envFree == s.envFree[1..] && s'.nextId == (s.nextId + 1) % TWO64
            && s'.cur == s.cur && s'.pos == s.pos && s'.kframe == s.kframe && s'.tframe == s.tframe
            && s'.mem == loop.0 && (s'.halted <==> s.halted || loop.1 == Fault)
            && SysFork(s).1 == (if loop.1 == OutOfPages then -E_NO_MEM else if loop.1 == Fault then 0 else AsInt(s'.envs[e].id))
    ensures loop == ForkPages(SetupVm(s.mem), RootOf(ForkEntered(s), s.cur.value), s.mem.free[0], s.kframe.sp / BY2PG, STACK_PAGES_END)
  {
    var s2;
    s2, loop := ForkParts(s);
    s' := FinishShape(s2, s.envFree[0], loop);
  }

  function StatusOf(status: Word): Option<EnvStatus>
  {
    if status == 0 then Some(EnvStatus.Free) else if status == 1 then Some(EnvStatus.Runnable)
    else if status == 2 then Some(EnvStatus.NotRunnable) else None
  }

  function SysSetEnvStatus(s: KState, envid: Word, status: Word): (KState, int)
    requires s.cur.Some?
  {
    match StatusOf(status)
    case None => (s, -E_INVAL)
    case Some(st) =>
      match Envid2Env(s, envid, false)
      case None => (s, -E_BAD_ENV)
      case Some(e) => (PutEnv(s, e, s.envs[e].(status := st)), 0)
  }

  /** sys_yield: the system-call frame takes the place of the interrupt frame. */
  function SysYield(s: KState): KState
  {
    SchedYield(s.(tframe := s.kframe))
  }

  /** sys_ipc_recv; false when it returns to its caller instead of blocking. */
  function SysIpcRecv(s: KState, dstva: Word): (KState, bool)
    requires s.cur.Some?
  {
    var c := s.cur.value;
    if dstva >= UTOP then (s, false)
    else
      var env := s.envs[c].(status := EnvStatus.NotRunnable, ipcRecving := true, ipcDstva := dstva);
      (SchedYield(PutEnv(s, c, env).(tframe := s.kframe)), true)
  }

  function Delivered(env: Env, value: Word, from: Word, perm: Word): Env
  {
    env.(ipcValue := value, ipcFrom := from, ipcPerm := perm, ipcRecving := false, status := EnvStatus.Runnable)
  }

  /** The page transfer of sys_ipc_can_send. */
  function SendPage(s: KState, e: EnvIx, srcva: Word, perm: Word): (KState, int)
    requires s.cur.Some?
  {
    if srcva == 0 then (s, 0)
    else
      match PageLookup(s.mem, RootOf(s, s.cur.value), VpnOf(srcva))
      case Missing => (s, -E_NO_MEM)
      case Invalid => (s.(halted := true), 0)
      case Found(p, _) => AfterInsert(s, PageInsert(s.mem, RootOf(s, e), p, VpnOf(s.envs[e].ipcDstva), UInt(perm)))
  }

  /** sys_ipc_can_send */
  function SysIpcCanSend(s: KState, envid: Word, value: Word, srcva: Word, perm: Word): (KState, int)
    requires s.cur.Some?
  {
    match Envid2Env(s, envid, false)
    case None => (s, -E_BAD_ENV)
    case Some(e) =>
      if s.envs[e].status != EnvStatus.NotRunnable || !s.envs[e].ipcRecving then (s, -E_IPC_NOT_RECV)
      else if srcva >= UTOP then (s, -E_NO_MEM)
      else
        var (s1, r) := SendPage(s, e, srcva, perm);
        if r != 0 || s1.halted then (s1, r)
        else (PutEnv(s1, e, Delivered(s1.envs[e], value, s1.envs[s.cur.value].id, perm)), 0)
  }

  /**
   sys_env_destroy. The page-table sweep of env_free may leave memory in any
   state, given as `after`; what is modelled is the status, the free list and
   the switch away from a destroyed caller.
   */
  function SysEnvDestroy(s: KState, envid: Word, after: Mem): (KState, int)
    requires s.cur.Some?
  {
    match Envid2Env(s, envid, true)
    case None => (s, -E_BAD_ENV)
    case Some(e) =>
      var s1 := PutEnv(s, e, s.envs[e].(pgdir := None, status := EnvStatus.Free)).(envFree := [e] + s.envFree, mem := after);
      if e == s.cur.value then (SchedYield(s1.(cur := None, tframe := s.kframe)), 0) else (s1, 0)
  }

  // -------- traps --------

  datatype Call =
    | MemAlloc(envid: Word, va: Word, perm: Word)
    | MemMap(srcid: Word, srcva: Word, dstid: Word, dstva: Word, perm: Word)
    | MemUnmap(envid: Word, va: Word)
    | Fork
    | SetEnvStatus(envid: Word, status: Word)
    | Yield
    | IpcRecv(dstva: Word)
    | IpcCanSend(envid: Word, value: Word, srcva: Word, perm: Word)
    | EnvDestroy(envid: Word, after: Mem)

  datatype Event =
    | Syscall(frame: Trapframe, call: Call)
    | Irq(frame: Trapframe)

  function Serve(s: KState, call: Call): KState
    requires s.cur.Some?
  {
    match call
    case MemAlloc(envid, va, perm) => SysMemAlloc(s, envid, va, perm).0
    case MemMap(srcid, srcva, dstid, dstva, perm) => SysMemMap(s, srcid, srcva, dstid, dstva, perm).0
    case MemUnmap(envid, va) => SysMemUnmap(s, envid, va).0
    case Fork => SysFork(s).0
    case SetEnvStatus(envid, status) => SysSetEnvStatus(s, envid, status).0
    case Yield => SysYield(s)
    case IpcRecv(dstva) => SysIpcRecv(s, dstva).0
    case IpcCanSend(envid, value, srcva, perm) => SysIpcCanSend(s, envid, value, srcva, perm).0
    case EnvDestroy(envid, after) => SysEnvDestroy(s, envid, after).0
  }

  /** A trap can occur only while an environment runs. */
  predicate CanStep(s: KState) { s.cur.Some? && !s.halted }

  function Step(s: KState, ev: Event): KState
    requires CanStep(s)
  {
    match ev
    case Syscall(frame, call) => Serve(s.(kframe := frame), call)
    case Irq(frame) => SchedYield(s.(tframe := frame))
  }

  /** The state after a series of traps; a halted kernel takes no more. */
  function Run(s: KState, evs: seq<Event>): KState
    decreases |evs|
  {
    if evs == [] || !CanStep(s) then s else Run(Step(s, evs[0]), evs[1..])
  }
}
