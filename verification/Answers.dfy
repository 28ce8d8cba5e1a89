/**
 What every system call answers and does, in the fields of the environments
 (lib/syscall_all.c, lib/env.c): the exact condition of each answer, what is
 stored where, and that nothing else is. The run-level results follow: whose
 mappings a trap may change, and that a woken environment gets the processor.
 */
module Answers {
  import opened Bits
  import opened Mmu
  import opened Memory
  import opened AddressSpace
  import opened ForkCost
  import opened Sched
  import opened Kernel
  import opened Isolation
  import opened Transfer
  import opened Ipc
  import opened Context
  import opened Fairness

  // -------- envid2env --------

  /** Which ids resolve, and for whom, in the fields of the table. */
  lemma ResolvesIff(s: KState, id: Word, checkperm: bool, e: EnvIx)
    requires s.cur.Some?
    ensures id != 0 ==>
              (Envid2Env(s, id, checkperm) == Some(e) <==>
               && e == id % NENV && s.envs[e].id == id && s.envs[e].status != EnvStatus.Free
               && (checkperm ==> s.cur == Some(e) || s.envs[e].parent == s.envs[s.cur.value].id))
    ensures id == 0 ==> (Envid2Env(s, id, checkperm) == Some(e) <==> s.cur == Some(e))
  {
  }

  // -------- sched_yield and the switch --------

  /** b is the frame a as env_run saves it. */
  ghost predicate SavedFrom(b: Trapframe, a: Trapframe)
  {
    b.x == a.x && b.sp == a.sp && b.pstate == a.pstate && b.elr == a.elr && b.pc == a.elr
  }

  /** The fields of an environment besides its registers and its run count. */
  ghost predicate SameRest(a: Env, b: Env)
  {
    && b.id == a.id && b.parent == a.parent && b.status == a.status && b.pgdir == a.pgdir && b.pri == a.pri
    && b.ipcValue == a.ipcValue && b.ipcFrom == a.ipcFrom && b.ipcRecving == a.ipcRecving && b.ipcDstva == a.ipcDstva && b.ipcPerm == a.ipcPerm
  }

  /**
   sched_yield with something to run: the interrupted environment's registers
   are those of the interrupt frame, the chosen one is current and has run once
   more, pos is its slot, and nothing else changes.
   */
  lemma SwitchDoes(s: KState) returns (s': KState)
    ensures s' == SchedYield(s)
    ensures Pick(Statuses(s), s.pos) == None ==> s' == s.(halted := true)
    ensures Pick(Statuses(s), s.pos).Some? ==>
              var q := Pick(Statuses(s), s.pos).value;
              && q < NENV && s.envs[q].status == EnvStatus.Runnable && s' == s.(cur := Some(q), pos := q, envs := s'.envs)
              && forall d: EnvIx {:trigger s'.envs[d]} ::
                   && SameRest(s.envs[d], s'.envs[d])
                   && (if s.cur == Some(d) then SavedFrom(s'.envs[d].tf, s.tframe) else s'.envs[d].tf == s.envs[d].tf)
                   && s'.envs[d].runs == if d == q then (s.envs[d].runs + 1) % TWO64 else s.envs[d].runs
  {
    PickIsNearest(Statuses(s), s.pos);
    s' := SchedYield(s);
  }

  /** sys_yield saves the system call's frame, not the last interrupt's. */
  lemma YieldDoes(s: KState) returns (s': KState)
    requires s.cur.Some?
    ensures s' == SysYield(s) && (s'.halted || SavedFrom(s'.envs[s.cur.value].tf, s.kframe))
    ensures s'.kframe == s.kframe && s'.mem == s.mem && s'.envFree == s.envFree && s'.nextId == s.nextId
    ensures forall d: EnvIx {:trigger s'.envs[d]} :: SameRest(s.envs[d], s'.envs[d])
  {
    s' := SwitchDoes(s.(tframe := s.kframe));
  }

  // -------- sys_set_env_status --------

  /** The three statuses, by their numbers: 0 is free, 1 runnable, 2 not runnable. */
  lemma SetStatusDoes(s: KState, id: Word, status: Word)
    requires s.cur.Some?
    ensures var (s', ret) := SysSetEnvStatus(s, id, status);
            var e := Envid2Env(s, id, false);
            && (ret == -E_INVAL <==> status > 2)
            && (ret == -E_BAD_ENV <==> status <= 2 && e == None)
            && (ret == 0 <==> status <= 2 && e.Some?)
            && (ret != 0 ==> s' == s)
            && (ret == 0 ==>
                  && s' == s.(envs := s.envs[e.value := s'.envs[e.value]])
                  && s'.envs[e.value] == s.envs[e.value].(status := s'.envs[e.value].status)
                  && (status == 0 ==> s'.envs[e.value].status == EnvStatus.Free)
                  && (status == 1 ==> s'.envs[e.value].status == EnvStatus.Runnable)
                  && (status == 2 ==> s'.envs[e.value].status == EnvStatus.NotRunnable))
  {
  }

  // -------- sys_ipc_recv --------

  /** The caller of sys_ipc_recv waits for a message at dstva with the frame of its call, or gets its call back with nothing changed. */
  lemma RecvDoes(s: KState, dstva: Word) returns (s': KState)
    requires s.cur.Some?
    ensures s' == SysIpcRecv(s, dstva).0
    ensures dstva >= UTOP ==> s' == s
    ensures dstva < UTOP ==>
              && var c := s.cur.value;
              && s'.envs[c].status == EnvStatus.NotRunnable && s'.envs[c].ipcRecving && s'.envs[c].ipcDstva == dstva
              && SameMessage(s.envs[c], s'.envs[c]) && s'.envs[c].id == s.envs[c].id && s'.envs[c].parent == s.envs[c].parent
              && s'.envs[c].pgdir == s.envs[c].pgdir && s'.envs[c].pri == s.envs[c].pri
              && (s'.halted || (SavedFrom(s'.envs[c].tf, s.kframe) && s'.cur.Some? && s'.cur.value != c))
              && (forall d: EnvIx {:trigger s'.envs[d]} :: d != c ==> SameRest(s.envs[d], s'.envs[d]) && s'.envs[d].tf == s.envs[d].tf)
              && s'.mem == s.mem && s'.envFree == s.envFree && s'.nextId == s.nextId && s'.kframe == s.kframe
  {
    s' := SysIpcRecv(s, dstva).0;
    if dstva < UTOP {
      var c := s.cur.value;
      var env := s.envs[c].(status := EnvStatus.NotRunnable, ipcRecving := true, ipcDstva := dstva);
      var _ := SwitchDoes(PutEnv(s, c, env).(tframe := s.kframe));
    }
  }

  // -------- sys_env_destroy --------

  /** A destroyed environment is free, first on the free list, without page directory; its id and the rest stay. Memory is `after`. */
  lemma DestroyDoes(s: KState, id: Word, after: Mem) returns (s': KState, ret: int)
    requires s.cur.Some? && !s.halted
    ensures (s', ret) == SysEnvDestroy(s, id, after)
    ensures var e := Envid2Env(s, id, true);
            && ret == (if e == None then -E_BAD_ENV else 0) && (e == None ==> s' == s)
            && (e.Some? ==>
                  && s'.envFree == [e.value] + s.envFree && s'.mem == after && s'.nextId == s.nextId
                  && s'.envs[e.value].status == EnvStatus.Free && s'.envs[e.value].pgdir == None
                  && s'.envs[e.value].id == s.envs[e.value].id && s'.envs[e.value].parent == s.envs[e.value].parent
                  && s'.envs[e.value].tf == s.envs[e.value].tf && SameIpc(s'.envs[e.value], s.envs[e.value])
                  && (forall d: EnvIx {:trigger s'.envs[d]} :: d != e.value ==> SameRest(s.envs[d], s'.envs[d]) && s'.envs[d].tf == s.envs[d].tf)
                  && (e != s.cur ==> s'.cur == s.cur && !s'.halted && forall d: EnvIx :: d != e.value ==> s'.envs[d] == s.envs[d])
                  && (e == s.cur ==> s'.halted || (s'.cur.Some? && s'.cur != e)))
  {
    s', ret := SysEnvDestroy(s, id, after).0, SysEnvDestroy(s, id, after).1;
    if Envid2Env(s, id, true).Some? {
      var e := Envid2Env(s, id, true).value;
      var s1 := PutEnv(s, e, s.envs[e].(pgdir := None, status := EnvStatus.Free)).(envFree := [e] + s.envFree, mem := after);
      if e == s.cur.value { var _ := SwitchDoes(s1.(cur := None, tframe := s.kframe)); }
    }
  }

  // -------- env_alloc --------

  /** A new environment, field by field, and that it is the only thing that is new. */
  lemma AllocDoes(s: KState, parent: Word)
    ensures var (s', r) := EnvAlloc(s, parent);
            && (r.Some? <==> s.envFree != [] && s.mem.free != [])
            && (s.envFree == [] ==> s' == s) && (s.envFree != [] && s.mem.free == [] ==> s' == s.(halted := true))
            && (r.Some? ==>
                  && var e := s.envFree[0];
                  && r == Some(e) && s'.envFree == s.envFree[1..] && s'.nextId == (s.nextId + 1) % TWO64 && s'.mem == SetupVm(s.mem)
                  && s' == s.(envs := s'.envs, envFree := s'.envFree, nextId := s'.nextId, mem := s'.mem)
                  && (forall d: EnvIx :: d != e ==> s'.envs[d] == s.envs[d])
                  && s'.envs[e].parent == parent && s'.envs[e].status == EnvStatus.Runnable && s'.envs[e].runs == 0
                  && s'.envs[e].id == MakeId(s'.nextId, e) && s'.envs[e].pgdir == Some(s.mem.free[0]) && s'.envs[e].tf.sp == USTACKTOP
                  && s'.envs[e].pri == s.envs[e].pri && SameIpc(s'.envs[e], s.envs[e]))
  {
  }

  // -------- sys_env_alloc --------

  /** The child of a fork by c into a slot, field by field, apart from its status. */
  ghost predicate ChildOf(s: KState, child: Env, slot: Env, e: EnvIx)
    requires s.cur.Some?
  {
    && child.tf.x == s.kframe.x[0 := 0] && child.tf.sp == s.kframe.sp && child.tf.pc == s.kframe.pc
    && child.tf.elr == s.kframe.elr && child.tf.pstate == s.kframe.pstate
    && child.parent == s.envs[s.cur.value].id && child.pri == s.envs[s.cur.value].pri && child.runs == 0
    && child.id == MakeId((s.nextId + 1) % TWO64, e) && SameIpc(child, slot)
  }

  /** No id reads as an error code: its low eleven bits are a slot. */
  lemma IdIsNoError(n: Word, e: EnvIx)
    ensures AsInt(MakeId(n, e)) != -E_NO_MEM && AsInt(MakeId(n, e)) != -E_NO_FREE_ENV
    ensures AsInt(MakeId(n, e)) != -E_BAD_ENV && AsInt(MakeId(n, e)) != -E_INVAL
  {
    SlotBits(MakeId(n, e), n % SERIALS, e);
  }

  lemma SlotBits(id: Word, n: nat, e: EnvIx)
    requires id == n * 2048 + e
    ensures AsInt(id) % 2048 == e
  {
    LowOfLow(id);
    LowOfSlot(n, e);
    SignedLow(id % 0x1_0000_0000);
  }

  lemma LowOfLow(id: nat)
    ensures id % 0x1_0000_0000 % 2048 == id % 2048
  {
  }

  lemma LowOfSlot(n: nat, e: EnvIx)
    ensures (n * 2048 + e) % 2048 == e
  {
  }

  lemma SignedLow(low: nat)
    ensures (low - 0x1_0000_0000) % 2048 == low % 2048
  {
  }

  /**
   fork, with the exact condition of each answer: -E_NO_FREE_ENV without a free
   environment, and then nothing has changed; -E_NO_MEM when the loop runs
   short, and then the child stays as it is, never runnable; the child's id, as
   an int, otherwise, the child runnable. A kernel without a page for the root,
   or with an unmapped page to copy, halts. In every case only the first free
   slot of the table has changed.
   */
  lemma ForkAnswers(s: KState) returns (s': KState, ret: int)
    requires KInv(s) && s.cur.Some? && !s.halted && MemSafe(s, Fork)
    ensures (s', ret) == SysFork(s)
    ensures ret == -E_NO_FREE_ENV <==> s.envFree == []
    ensures s.envFree == [] ==> s' == s
    ensures s.envFree != [] && s.mem.free == [] ==> s' == s.(halted := true)
    ensures ret == -E_NO_MEM <==> CanAllocEnv(s) && RunsShort(ForkStop(s), StackGap(s), STACK_PAGES_END)
    ensures CanAllocEnv(s) ==>
              var e := s.envFree[0];
              && (s'.halted <==> ForkStop(s).page == StackGap(s) < STACK_PAGES_END && ForkStop(s).left > 0)
              && s'.envFree == s.envFree[1..] && s'.nextId == (s.nextId + 1) % TWO64 && s'.cur == s.cur
              && (forall d: EnvIx :: d != e ==> s'.envs[d] == s.envs[d])
              && ChildOf(s, s'.envs[e], s.envs[e], e) && s'.envs[e].pgdir == Some(s.mem.free[0])
              && (ret == -E_NO_MEM || s'.halted ==> s'.envs[e].status == EnvStatus.NotRunnable)
              && (ret != -E_NO_MEM && !s'.halted ==> s'.envs[e].status == EnvStatus.Runnable && ret == AsInt(s'.envs[e].id))
  {
    s', ret := SysFork(s).0, SysFork(s).1;
    if CanAllocEnv(s) {
      IdIsNoError((s.nextId + 1) % TWO64, s.envFree[0]);
      var loop := ForkOutcome(s);
      ForkCompletes(s);
    }
  }

  /** The answer of a fork that found an environment and a page, by the outcome of its loop. */
  lemma ForkOutcome(s: KState) returns (loop: (Mem, ForkStatus))
    requires KInv(s) && CanAllocEnv(s) && !s.halted
    ensures loop == ForkLoop(s)
    ensures var (s', ret) := SysFork(s);
            var e := s.envFree[0];
            && (s'.halted <==> loop.1 == Fault)
            && s'.envFree == s.envFree[1..] && s'.nextId == (s.nextId + 1) % TWO64 && s'.cur == s.cur
            && (forall d: EnvIx :: d != e ==> s'.envs[d] == s.envs[d])
            && ChildOf(s, s'.envs[e], s.envs[e], e) && s'.envs[e].pgdir == Some(s.mem.free[0])
            && s'.envs[e].status == (if loop.1 == Complete || loop.1 == Partial then EnvStatus.Runnable else EnvStatus.NotRunnable)
            && ret == (if loop.1 == OutOfPages then -E_NO_MEM else if loop.1 == Fault then 0 else AsInt(s'.envs[e].id))
  {
    var s';
    s', loop := ForkShape(s);
    var _, _ := ForkBegin(s);
  }

  // -------- the permission argument --------

  /** The permission word reaches page_insert as an unsigned int: its upper half does not matter, to any call. */
  lemma PermissionIsInt(s: KState, perm: Word, wide: Word)
    requires s.cur.Some? && perm % 0x1_0000_0000 == wide % 0x1_0000_0000
    ensures forall id, va {:trigger SysMemAlloc(s, id, va, wide)} :: SysMemAlloc(s, id, va, wide) == SysMemAlloc(s, id, va, perm)
    ensures forall a, va, b, vb {:trigger SysMemMap(s, a, va, b, vb, wide)} :: SysMemMap(s, a, va, b, vb, wide) == SysMemMap(s, a, va, b, vb, perm)
    ensures forall e, va {:trigger SendPage(s, e, va, wide)} :: SendPage(s, e, va, wide) == SendPage(s, e, va, perm)
  {
    SameParity(perm, wide);
  }

  lemma SameParity(a: nat, b: nat)
    requires a % 0x1_0000_0000 == b % 0x1_0000_0000
    ensures a % 2 == b % 2
  {
    LowBit(a);
    LowBit(b);
  }

  lemma LowBit(a: nat)
    ensures a % 0x1_0000_0000 % 2 == a % 2
  {
  }

  // -------- every trap --------

  /** The environment a trap can free or take apart: the caller's own, or a child's, by their fields. */
  ghost predicate OwnOrChild(s: KState, e: EnvIx)
    requires s.cur.Some?
  {
    s.cur == Some(e) || s.envs[e].parent == s.envs[s.cur.value].id
  }

  /** The environment a trap sends to, blocked in a receive. */
  ghost predicate SentTo(s: KState, ev: Event, e: EnvIx)
  {
    && ev.Syscall? && ev.call.IpcCanSend? && s.envs[e].status == EnvStatus.NotRunnable && s.envs[e].ipcRecving
    && (ev.call.envid == 0 ==> s.cur == Some(e)) && (ev.call.envid != 0 ==> s.envs[e].id == ev.call.envid)
  }

  /** What a trap targets belongs to the caller or a child of its, or to the receiver of its send. */
  lemma TargetIsOwn(s: KState, ev: Event)
    requires CanStep(s)
    ensures EventTarget(s, ev).Some? ==>
              var e := EventTarget(s, ev).value.env;
              OwnOrChild(s, e) || (SentTo(s, ev, e) && EventTarget(s, ev) == Some(Place(e, VpnOf(s.envs[e].ipcDstva))))
    ensures EventTarget(s, ev).Some? && EventTarget(s, ev).value.Whole? ==> OwnOrChild(s, EventTarget(s, ev).value.env)
  {
    if ev.Syscall? && EventTarget(s, ev).Some? {
      var e := EventTarget(s, ev).value.env;
      var s1 := s.(kframe := ev.frame);
      match ev.call
      case MemAlloc(id, _, _) => ResolvesIff(s1, id, true, e);
      case MemMap(_, _, id, _, _) => ResolvesIff(s1, id, true, e);
      case MemUnmap(id, _) => ResolvesIff(s1, id, true, e);
      case EnvDestroy(id, _) => ResolvesIff(s1, id, true, e);
      case IpcCanSend(id, _, _, _) => ResolvesIff(s1, id, false, e);
      case _ =>
    }
  }

  /**
   Over every run: a trap that changes a mapping of e, or takes its page
   directory away, is a trap of e itself or of its parent, or a send to e while
   e is blocked in a receive, and then it changes no page but the one e receives
   at.
   */
  lemma OnlyOwnChange(s: KState, evs: seq<Event>, ev: Event, e: EnvIx, v: Vpn)
    requires KInv(s) && SafeRun(s, evs) && CanStep(Run(s, evs)) && SafeEvent(Run(s, evs), ev)
    requires Run(s, evs).envs[e].pgdir.Some? && Private(v)
    ensures var t := Run(s, evs);
            SamePageOf(t, Step(t, ev), e, v) || OwnOrChild(t, e) || (SentTo(t, ev, e) && v == VpnOf(t.envs[e].ipcDstva))
  {
    var t := Run(s, evs);
    RunKeepsInv(s, evs);
    StepGood(t, ev);
    TargetIsOwn(t, ev);
    TargetIsLive(t, ev);
    if Spares(EventTarget(t, ev), e, v) { StepKeepsPage(t, Step(t, ev), EventTarget(t, ev), e, v); }
  }

  // -------- statuses over runs --------

  /** The trap names e in a call that sets statuses: a set, a destroy, a send that arrives, or a receive by e itself. */
  predicate SetsStatus(s: KState, ev: Event, e: EnvIx)
    requires CanStep(s)
  {
    ev.Syscall? &&
    match ev.call
    case SetEnvStatus(id, _) => Envid2Env(s, id, false) == Some(e)
    case EnvDestroy(id, _) => Envid2Env(s, id, true) == Some(e)
    case IpcRecv(dstva) => dstva < UTOP && s.cur == Some(e)
    case IpcCanSend(_, _, _, _) => Sends(s, ev, e)
    case _ => false
  }

  /** Any other trap leaves an environment in use its id, parent, status, page directory, priority and message. */
  lemma EnvKept(s: KState, ev: Event, e: EnvIx)
    requires CanStep(s) && !SetsStatus(s, ev, e) && e !in s.envFree
    ensures SameRest(s.envs[e], Step(s, ev).envs[e]) && e !in Step(s, ev).envFree
  {
    match ev
    case Irq(f) => var _ := SwitchDoes(s.(tframe := f));
    case Syscall(f, call) =>
      var s1 := s.(kframe := f);
      match call
      case Fork => ForkKeeps(s1, e);
      case Yield => var _ := SwitchDoes(s1.(tframe := f));
      case IpcRecv(dstva) => var _ := RecvDoes(s1, dstva);
      case IpcCanSend(id, value, srcva, perm) => SendIpc(s1, id, value, srcva, perm);
      case SetEnvStatus(id, status) => SetStatusDoes(s1, id, status);
      case EnvDestroy(id, after) => var _, _ := DestroyDoes(s1, id, after);
      case MemAlloc(_, _, _) => MemCallIpc(s1, call);
      case MemMap(_, _, _, _, _) => MemCallIpc(s1, call);
      case MemUnmap(_, _) => MemCallIpc(s1, call);
  }

  lemma ForkKeeps(s: KState, e: EnvIx)
    requires s.cur.Some? && e !in s.envFree
    ensures SysFork(s).0.envs[e] == s.envs[e] && e !in SysFork(s).0.envFree
  {
    if s.envFree != [] && s.mem.free != [] { var _, _ := ForkShape(s); }
  }

  /** No trap of the run sets the status of e. */
  predicate Undisturbed(s: KState, evs: seq<Event>, e: EnvIx)
    decreases |evs|
  {
    evs == [] || !CanStep(s) || (!SetsStatus(s, evs[0], e) && Undisturbed(Step(s, evs[0]), evs[1..], e))
  }

  lemma {:induction false} UndisturbedKeeps(s: KState, evs: seq<Event>, e: EnvIx)
    requires e !in s.envFree && Undisturbed(s, evs, e)
    ensures SameRest(s.envs[e], Run(s, evs).envs[e]) && e !in Run(s, evs).envFree
    decreases |evs|
  {
    if evs == [] || !CanStep(s) {
    } else {
      EnvKept(s, evs[0], e);
      UndisturbedKeeps(Step(s, evs[0]), evs[1..], e);
    }
  }

  /** The scheduler is asked with the status of an undisturbed environment as it was. */
  lemma DecisionKeeps(s: KState, ev: Event, e: EnvIx)
    requires CanStep(s) && Switches(s, ev) && !SetsStatus(s, ev, e)
    ensures Decision(s, ev).envs[e].status == s.envs[e].status
  {
  }

  lemma {:induction false} StaysRunnable(s: KState, evs: seq<Event>, e: EnvIx)
    requires s.envs[e].status == EnvStatus.Runnable && e !in s.envFree && Undisturbed(s, evs, e)
    ensures RunnableThroughout(s, evs, e)
    decreases |evs|
  {
    if evs == [] || !CanStep(s) {
    } else {
      if Switches(s, evs[0]) { DecisionKeeps(s, evs[0], e); }
      EnvKept(s, evs[0], e);
      StaysRunnable(Step(s, evs[0]), evs[1..], e);
    }
  }

  /**
   A send that succeeds wakes its receiver: unless its status is set again, it is
   chosen within as many scheduling decisions as its cyclic distance.
   */
  lemma WokenIsChosen(s: KState, ev: Event, e: EnvIx, evs: seq<Event>) returns (s1: KState, i: nat)
    requires CanStep(s) && Sends(s, ev, e) && e !in s.envFree
    requires Undisturbed(Step(s, ev), evs, e) && Decisions(Step(s, ev), evs) >= Distance(Step(s, ev).pos, e)
    ensures s1 == Step(s, ev) && s1.envs[e].status == EnvStatus.Runnable && ChosenAt(s1, evs, e, i)
  {
    s1 := Step(s, ev);
    StepIpc(s, ev, e);
    SendIpc(s.(kframe := ev.frame), ev.call.envid, ev.call.value, ev.call.srcva, ev.call.perm);
    StaysRunnable(s1, evs, e);
    i := RunIsFair(s1, evs, e);
  }

  /** No scheduling decision of the run chooses e. */
  ghost predicate NeverChosen(s: KState, evs: seq<Event>, e: EnvIx)
    decreases |evs|
  {
    evs == [] || !CanStep(s)
    || ((Switches(s, evs[0]) ==> Step(s, evs[0]).halted || Step(s, evs[0]).cur != Some(e)) && NeverChosen(Step(s, evs[0]), evs[1..], e))
  }

  lemma NotPicked(s: KState, ev: Event, e: EnvIx)
    requires CanStep(s) && Switches(s, ev) && Decision(s, ev).envs[e].status != EnvStatus.Runnable
    ensures Step(s, ev).halted || Step(s, ev).cur != Some(e)
  {
    SwitchDecides(s, ev);
    var _ := SwitchDoes(Decision(s, ev));
  }

  lemma {:induction false} StaysOut(s: KState, evs: seq<Event>, e: EnvIx)
    requires s.envs[e].status != EnvStatus.Runnable && e !in s.envFree && Undisturbed(s, evs, e)
    ensures NeverChosen(s, evs, e)
    decreases |evs|
  {
    if evs == [] || !CanStep(s) {
    } else {
      if Switches(s, evs[0]) { DecisionKeeps(s, evs[0], e); NotPicked(s, evs[0], e); }
      EnvKept(s, evs[0], e);
      StaysOut(Step(s, evs[0]), evs[1..], e);
    }
  }

  /**
   A suspended environment, status 2, still resolves and is not chosen until its
   status is set again or a send reaches it.
   */
  lemma SuspendedStays(s: KState, f: Trapframe, id: Word, evs: seq<Event>) returns (s1: KState, e: EnvIx)
    requires CanStep(s) && Envid2Env(s, id, false).Some? && Envid2Env(s, id, false).value !in s.envFree
    requires Undisturbed(Step(s, Syscall(f, SetEnvStatus(id, 2))), evs, Envid2Env(s, id, false).value)
    ensures s1 == Step(s, Syscall(f, SetEnvStatus(id, 2))) && Envid2Env(s, id, false) == Some(e)
    ensures Run(s1, evs).envs[e].status == EnvStatus.NotRunnable && NeverChosen(s1, evs, e)
    ensures id != 0 && Run(s1, evs).cur.Some? ==> Envid2Env(Run(s1, evs), id, false) == Some(e)
  {
    e := Envid2Env(s, id, false).value;
    s1 := Step(s, Syscall(f, SetEnvStatus(id, 2)));
    SetStatusDoes(s.(kframe := f), id, 2);
    UndisturbedKeeps(s1, evs, e);
    StaysOut(s1, evs, e);
    ResolvesIff(s, id, false, e);
    if Run(s1, evs).cur.Some? { ResolvesIff(Run(s1, evs), id, false, e); }
  }

  /** In any state, only a destroy by its own or its parent's trap takes an environment's page directory away, and nothing gives it another. */
  lemma OnlyOwnDestroyed(s: KState, ev: Event, e: EnvIx)
    requires CanStep(s) && e !in s.envFree && Step(s, ev).envs[e].pgdir != s.envs[e].pgdir
    ensures ev.Syscall? && ev.call.EnvDestroy? && OwnOrChild(s, e) && Step(s, ev).envs[e].pgdir == None
  {
    if !SetsStatus(s, ev, e) {
      EnvKept(s, ev, e);
      assert false;
    }
    var s1 := s.(kframe := ev.frame);
    match ev.call
    case SetEnvStatus(id, status) => SetStatusDoes(s1, id, status);
    case EnvDestroy(id, after) =>
      ResolvesIff(s1, id, true, e);
      var _, _ := DestroyDoes(s1, id, after);
    case IpcRecv(dstva) => var _ := RecvDoes(s1, dstva);
    case IpcCanSend(id, value, srcva, perm) => SendIpc(s1, id, value, srcva, perm);
  }

  // -------- registers --------

  /**
   A trap that switches saves the frame it was entered with, all registers of
   it, for the environment it interrupts, with pc taken from elr; and no other
   environment's registers change in any trap but for a fork's child.
   */
  lemma TrapSaves(s: KState, ev: Event, d: EnvIx)
    requires CanStep(s) && !Step(s, ev).halted
    ensures Switches(s, ev) && s.cur == Some(d) && (ev.Syscall? ==> !ev.call.EnvDestroy?) ==>
              SavedFrom(Step(s, ev).envs[d].tf, FrameOfEvent(ev))
    ensures !(Switches(s, ev) && s.cur == Some(d)) && d !in s.envFree ==> Step(s, ev).envs[d].tf == s.envs[d].tf
  {
    match ev
    case Irq(f) => var _ := SwitchDoes(s.(tframe := f));
    case Syscall(f, call) =>
      var s1 := s.(kframe := f);
      match call
      case Fork => if d !in s.envFree { ForkKeeps(s1, d); }
      case Yield => var _ := SwitchDoes(s1.(tframe := f));
      case IpcRecv(dstva) => var _ := RecvDoes(s1, dstva);
      case IpcCanSend(id, value, srcva, perm) => SendIpc(s1, id, value, srcva, perm);
      case SetEnvStatus(id, status) => SetStatusDoes(s1, id, status);
      case EnvDestroy(id, after) => var _, _ := DestroyDoes(s1, id, after);
      case MemAlloc(_, _, _) => MemCallIpc(s1, call);
      case MemMap(_, _, _, _, _) => MemCallIpc(s1, call);
      case MemUnmap(_, _) => MemCallIpc(s1, call);
  }
}
