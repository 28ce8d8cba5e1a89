/**
 IPC over runs: sys_ipc_recv, sys_ipc_can_send (lib/syscall_all.c:227-296) and
 their user-side callers (user/ipc.c). Receives and successful sends pair off,
 and a receiver wakes up exactly with what one send delivered.
 */
module Ipc {
  import opened Bits
  import opened Memory
  import opened Sched
  import opened Kernel

  /**
   No receiver, living or dead, is runnable, and none is running. An
   environment destroyed in mid-receive keeps its bit.
   */
  ghost predicate IpcOk(s: KState)
  {
    && (forall e: EnvIx {:trigger s.envs[e].ipcRecving} :: s.envs[e].ipcRecving ==> s.envs[e].status != EnvStatus.Runnable)
    && (forall e {:trigger e in s.envFree} :: e in s.envFree ==> s.envs[e].status == EnvStatus.Free)
    && (forall i, j :: 0 <= i < j < |s.envFree| ==> s.envFree[i] != s.envFree[j])
    && (s.cur.Some? ==> s.cur.value !in s.envFree)
    && (CanStep(s) ==> !s.envs[s.cur.value].ipcRecving)
  }

  /**
   The two calls that could make a receiver runnable without a send:
   a fork into a slot whose environment was destroyed in mid-receive, and
   sys_set_env_status to RUNNABLE. Every other trap is covered as it is.
   */
  predicate NoRevival(s: KState, ev: Event)
    requires CanStep(s)
  {
    ev.Syscall? ==>
      match ev.call
      case Fork => s.envFree != [] && s.mem.free != [] ==> !s.envs[s.envFree[0]].ipcRecving
      case SetEnvStatus(envid, status) =>
        status == 1 && Envid2Env(s, envid, false).Some? ==> !s.envs[Envid2Env(s, envid, false).value].ipcRecving
      case _ => true
  }

  predicate IpcRun(s: KState, evs: seq<Event>)
    decreases |evs|
  {
    evs == [] || !CanStep(s) || (NoRevival(s, evs[0]) && IpcRun(Step(s, evs[0]), evs[1..]))
  }

  /** The current environment starts to receive. */
  predicate BeginsReceive(s: KState, ev: Event, e: EnvIx)
    requires CanStep(s)
  {
    ev.Syscall? && ev.call.IpcRecv? && ev.call.dstva < UTOP && s.cur == Some(e)
  }

  /** A send that returns 0 to its caller, having reached e. */
  predicate Sends(s: KState, ev: Event, e: EnvIx)
    requires CanStep(s)
  {
    && ev.Syscall? && ev.call.IpcCanSend?
    && var s1 := s.(kframe := ev.frame);
       var (s', ret) := SysIpcCanSend(s1, ev.call.envid, ev.call.value, ev.call.srcva, ev.call.perm);
       ret == 0 && !s'.halted && Envid2Env(s1, ev.call.envid, false) == Some(e)
  }

  ghost predicate SameMessage(a: Env, b: Env)
  {
    a.ipcValue == b.ipcValue && a.ipcFrom == b.ipcFrom && a.ipcPerm == b.ipcPerm
  }

  /** What one trap does to the IPC state of environment e. */
  ghost predicate IpcEffect(s: KState, ev: Event, s': KState, e: EnvIx)
    requires CanStep(s)
  {
    && (BeginsReceive(s, ev, e) ==> s'.envs[e].ipcRecving && s'.envs[e].status == EnvStatus.NotRunnable && SameMessage(s'.envs[e], s.envs[e]))
    && s'.envs[e].ipcDstva == (if BeginsReceive(s, ev, e) then ev.call.dstva else s.envs[e].ipcDstva)
    && (Sends(s, ev, e) ==>
          && s.envs[e].ipcRecving && !s'.envs[e].ipcRecving && s'.envs[e].status == EnvStatus.Runnable
          && s'.envs[e].ipcValue == ev.call.value && s'.envs[e].ipcFrom == s.envs[s.cur.value].id && s'.envs[e].ipcPerm == ev.call.perm)
    && (!BeginsReceive(s, ev, e) && !Sends(s, ev, e) ==>
          s'.envs[e].ipcRecving == s.envs[e].ipcRecving && SameMessage(s'.envs[e], s.envs[e]))
  }

  /** The parts of an environment's state that only IPC changes. */
  ghost predicate SameIpc(a: Env, b: Env)
  {
    a.ipcRecving == b.ipcRecving && a.ipcDstva == b.ipcDstva && SameMessage(a, b)
  }

  /** Scheduling changes neither statuses nor messages, and leaves a runnable environment current. */
  lemma SchedIpc(s: KState)
    ensures var s' := SchedYield(s);
            && s'.envFree == s.envFree
            && (forall e: EnvIx {:trigger s'.envs[e]} :: s'.envs[e].status == s.envs[e].status && SameIpc(s'.envs[e], s.envs[e]))
            && (if Pick(Statuses(s), s.pos) == None then s' == s.(halted := true)
                else s'.cur.Some? && s'.halted == s.halted && s'.envs[s'.cur.value].status == EnvStatus.Runnable)
  {
    PickIsNearest(Statuses(s), s.pos);
  }

  /** Calls that only move pages. */
  ghost predicate OnlyMemory(s: KState, s': KState)
  {
    s'.envs == s.envs && s'.envFree == s.envFree && s'.cur == s.cur
  }

  lemma MemCallIpc(s: KState, call: Call)
    requires s.cur.Some? && (call.MemAlloc? || call.MemMap? || call.MemUnmap?)
    ensures OnlyMemory(s, Serve(s, call))
  {
  }

  lemma SendPageIpc(s: KState, e: EnvIx, srcva: Word, perm: Word)
    requires s.cur.Some?
    ensures OnlyMemory(s, SendPage(s, e, srcva, perm).0)
  {
  }

  lemma SendIpc(s: KState, envid: Word, value: Word, srcva: Word, perm: Word)
    requires s.cur.Some? && !s.halted
    ensures var (s', ret) := SysIpcCanSend(s, envid, value, srcva, perm);
            && s'.envFree == s.envFree && s'.cur == s.cur
            && (ret == 0 && !s'.halted ==>
                  && Envid2Env(s, envid, false).Some?
                  && var e := Envid2Env(s, envid, false).value;
                     && s.envs[e].ipcRecving && s.envs[e].status == EnvStatus.NotRunnable
                     && s'.envs == s.envs[e := Delivered(s.envs[e], value, s.envs[s.cur.value].id, perm)])
            && (ret != 0 || s'.halted ==> s'.envs == s.envs)
  {
    match Envid2Env(s, envid, false)
    case None =>
    case Some(e) => SendPageIpc(s, e, srcva, perm);
  }

  /** The rest of a duplicate-free list is duplicate-free and lacks its first element. */
  lemma RestDistinct(list: seq<EnvIx>)
    requires list != [] && forall i, j :: 0 <= i < j < |list| ==> list[i] != list[j]
    ensures list[0] !in list[1..]
    ensures forall d :: d in list[1..] ==> d in list
    ensures forall i, j :: 0 <= i < j < |list[1..]| ==> list[1..][i] != list[1..][j]
  {
    if list[0] in list[1..] {
      var i :| 1 <= i < |list| && list[i] == list[0];
    }
  }

  lemma ForkIpc(s: KState) returns (s': KState)
    requires s.cur.Some? && !s.halted
    ensures s' == SysFork(s).0
    ensures forall e: EnvIx {:trigger s'.envs[e]} :: SameIpc(s'.envs[e], s.envs[e])
    ensures IpcOk(s) && (s.envFree != [] && s.mem.free != [] ==> !s.envs[s.envFree[0]].ipcRecving) ==> IpcOk(s')
  {
    if s.envFree != [] && s.mem.free != [] {
      var t, _ := ForkShape(s);
      s' := t;
      if IpcOk(s) {
        RestDistinct(s.envFree);
        assert s.envFree[0] in s.envFree && s.cur.value != s.envFree[0];
      }
    } else {
      s' := SysFork(s).0;
    }
  }

  lemma DestroyIpc(s: KState, envid: Word, after: Mem) returns (s': KState)
    requires s.cur.Some? && !s.halted
    ensures s' == SysEnvDestroy(s, envid, after).0
    ensures forall e: EnvIx {:trigger s'.envs[e]} :: SameIpc(s'.envs[e], s.envs[e])
    ensures IpcOk(s) ==> IpcOk(s')
  {
    s' := SysEnvDestroy(s, envid, after).0;
    if Envid2Env(s, envid, true).Some? {
      var e := Envid2Env(s, envid, true).value;
      var s1 := PutEnv(s, e, s.envs[e].(pgdir := None, status := EnvStatus.Free)).(envFree := [e] + s.envFree, mem := after);
      assert IpcOk(s) ==> e !in s.envFree;
      if e == s.cur.value { SchedIpc(s1.(cur := None, tframe := s.kframe)); }
    }
  }

  lemma RecvIpc(s: KState, dstva: Word) returns (s': KState)
    requires s.cur.Some? && !s.halted
    ensures s' == SysIpcRecv(s, dstva).0
    ensures forall e: EnvIx {:trigger s'.envs[e]} ::
              && SameMessage(s'.envs[e], s.envs[e])
              && s'.envs[e].ipcRecving == (s.envs[e].ipcRecving || (dstva < UTOP && e == s.cur.value))
              && s'.envs[e].ipcDstva == if dstva < UTOP && e == s.cur.value then dstva else s.envs[e].ipcDstva
    ensures IpcOk(s) ==> IpcOk(s')
  {
    s' := SysIpcRecv(s, dstva).0;
    if dstva < UTOP {
      var c := s.cur.value;
      var env := s.envs[c].(status := EnvStatus.NotRunnable, ipcRecving := true, ipcDstva := dstva);
      SchedIpc(PutEnv(s, c, env).(tframe := s.kframe));
    }
  }

  lemma SetStatusIpc(s: KState, envid: Word, status: Word) returns (s': KState)
    requires s.cur.Some? && !s.halted
    ensures s' == SysSetEnvStatus(s, envid, status).0
    ensures forall e: EnvIx {:trigger s'.envs[e]} :: SameIpc(s'.envs[e], s.envs[e])
    ensures IpcOk(s) && (status == 1 && Envid2Env(s, envid, false).Some? ==> !s.envs[Envid2Env(s, envid, false).value].ipcRecving) ==> IpcOk(s')
  {
    s' := SysSetEnvStatus(s, envid, status).0;
  }

  /** sched_yield from a running state. */
  lemma YieldIpc(s: KState) returns (s': KState)
    requires !s.halted
    ensures s' == SchedYield(s)
    ensures forall e: EnvIx {:trigger s'.envs[e]} :: SameIpc(s'.envs[e], s.envs[e])
    ensures IpcOk(s) ==> IpcOk(s')
  {
    s' := SchedYield(s);
    SchedIpc(s);
  }

  /** The effect of one trap on environment e, in any state. */
  lemma StepIpc(s: KState, ev: Event, e: EnvIx)
    requires CanStep(s)
    ensures IpcEffect(s, ev, Step(s, ev), e)
  {
    match ev
    case Irq(f) => var _ := YieldIpc(s.(tframe := f));
    case Syscall(f, call) =>
      var s1 := s.(kframe := f);
      match call
      case Fork => var _ := ForkIpc(s1);
      case Yield => var _ := YieldIpc(s1.(tframe := s1.kframe));
      case IpcRecv(dstva) => var _ := RecvIpc(s1, dstva);
      case IpcCanSend(envid, value, srcva, perm) => SendIpc(s1, envid, value, srcva, perm);
      case SetEnvStatus(envid, status) => var _ := SetStatusIpc(s1, envid, status);
      case EnvDestroy(envid, after) => var _ := DestroyIpc(s1, envid, after);
      case MemAlloc(_, _, _) => MemCallIpc(s1, call);
      case MemMap(_, _, _, _, _) => MemCallIpc(s1, call);
      case MemUnmap(_, _) => MemCallIpc(s1, call);
  }

  lemma StepIpcOk(s: KState, ev: Event)
    requires CanStep(s) && IpcOk(s) && NoRevival(s, ev)
    ensures IpcOk(Step(s, ev))
  {
    match ev
    case Irq(f) => var _ := YieldIpc(s.(tframe := f));
    case Syscall(f, call) =>
      var s1 := s.(kframe := f);
      match call
      case Fork => var _ := ForkIpc(s1);
      case Yield => var _ := YieldIpc(s1.(tframe := s1.kframe));
      case IpcRecv(dstva) => var _ := RecvIpc(s1, dstva);
      case IpcCanSend(envid, value, srcva, perm) => SendIpc(s1, envid, value, srcva, perm);
      case SetEnvStatus(envid, status) => var _ := SetStatusIpc(s1, envid, status);
      case EnvDestroy(envid, after) => var _ := DestroyIpc(s1, envid, after);
      case MemAlloc(_, _, _) => MemCallIpc(s1, call);
      case MemMap(_, _, _, _, _) => MemCallIpc(s1, call);
      case MemUnmap(_, _) => MemCallIpc(s1, call);
  }

  // -------- pairing --------

  /** Receives that e has begun in the run. */
  function Begun(s: KState, evs: seq<Event>, e: EnvIx): nat
    decreases |evs|
  {
    if evs == [] || !CanStep(s) then 0
    else (if BeginsReceive(s, evs[0], e) then 1 else 0) + Begun(Step(s, evs[0]), evs[1..], e)
  }

  /** Sends that have reached e in the run. */
  function Sent(s: KState, evs: seq<Event>, e: EnvIx): nat
    decreases |evs|
  {
    if evs == [] || !CanStep(s) then 0
    else (if Sends(s, evs[0], e) then 1 else 0) + Sent(Step(s, evs[0]), evs[1..], e)
  }

  /** Receives that e has begun with its bit still set from an earlier one. */
  function Doubled(s: KState, evs: seq<Event>, e: EnvIx): nat
    decreases |evs|
  {
    if evs == [] || !CanStep(s) then 0
    else (if BeginsReceive(s, evs[0], e) then Bit(s, e) else 0) + Doubled(Step(s, evs[0]), evs[1..], e)
  }

  function Bit(s: KState, e: EnvIx): nat { if s.envs[e].ipcRecving then 1 else 0 }

  /**
   The account of the env_ipc_recving bit over every run: it moves by the
   receives begun less the sends that succeeded, exactly when no receive begins
   with the bit still set.
   */
  lemma {:induction false} Account(s: KState, evs: seq<Event>, e: EnvIx)
    ensures Bit(Run(s, evs), e) - Bit(s, e) == Begun(s, evs, e) - Sent(s, evs, e) - Doubled(s, evs, e)
    decreases |evs|
  {
    if evs == [] || !CanStep(s) {
    } else {
      StepIpc(s, evs[0], e);
      Account(Step(s, evs[0]), evs[1..], e);
    }
  }

  /** Unless a receiver is revived without a send, no receive begins with the bit still set. */
  lemma {:induction false} NeverDoubled(s: KState, evs: seq<Event>, e: EnvIx)
    requires IpcOk(s) && IpcRun(s, evs)
    ensures Doubled(s, evs, e) == 0 && IpcOk(Run(s, evs))
    decreases |evs|
  {
    if evs == [] || !CanStep(s) {
    } else {
      StepIpcOk(s, evs[0]);
      NeverDoubled(Step(s, evs[0]), evs[1..], e);
    }
  }

  /** Receives begun minus sends that succeeded is the env_ipc_recving bit. */
  lemma Pairing(s: KState, evs: seq<Event>, e: EnvIx)
    requires IpcOk(s) && IpcRun(s, evs)
    ensures Bit(Run(s, evs), e) - Bit(s, e) == Begun(s, evs, e) - Sent(s, evs, e)
    ensures IpcOk(Run(s, evs))
  {
    Account(s, evs, e);
    NeverDoubled(s, evs, e);
  }

  /** A blocked receiver is not scheduled: it becomes current only after a send has reached it. */
  lemma {:induction false} BlockedUntilSent(s: KState, evs: seq<Event>, e: EnvIx)
    requires IpcOk(s) && IpcRun(s, evs)
    requires s.envs[e].ipcRecving && Sent(s, evs, e) == 0
    ensures var s' := Run(s, evs);
            && s'.envs[e].ipcRecving && SameMessage(s'.envs[e], s.envs[e]) && s'.envs[e].ipcDstva == s.envs[e].ipcDstva
            && (CanStep(s') ==> s'.cur != Some(e))
    decreases |evs|
  {
    if evs == [] || !CanStep(s) {
    } else {
      StepIpc(s, evs[0], e);
      StepIpcOk(s, evs[0]);
      BlockedUntilSent(Step(s, evs[0]), evs[1..], e);
    }
  }

  /** What was delivered stays until the environment's next receive, whatever the run does. */
  lemma {:induction false} MessageStays(s: KState, evs: seq<Event>, e: EnvIx)
    requires !s.envs[e].ipcRecving && Begun(s, evs, e) == 0
    ensures !Run(s, evs).envs[e].ipcRecving && SameMessage(Run(s, evs).envs[e], s.envs[e]) && Sent(s, evs, e) == 0
    decreases |evs|
  {
    if evs == [] || !CanStep(s) {
    } else {
      StepIpc(s, evs[0], e);
      MessageStays(Step(s, evs[0]), evs[1..], e);
    }
  }

  /**
   When a blocked receiver runs again, one send of the run has reached it, and
   what ipc_recv then reads from curenv is the value, sender and permission of
   that send.
   */
  lemma {:induction false} ReceiveMeetsSend(s: KState, evs: seq<Event>, e: EnvIx) returns (i: nat)
    requires IpcOk(s) && IpcRun(s, evs)
    requires s.envs[e].ipcRecving && Begun(s, evs, e) == 0
    requires CanStep(Run(s, evs)) && Run(s, evs).cur == Some(e)
    ensures i < |evs| && Sent(s, evs, e) == 1
    ensures var t := Run(s, evs[..i]);
            && CanStep(t) && Sends(t, evs[i], e)
            && var env := Run(s, evs).envs[e];
               env.ipcValue == evs[i].call.value && env.ipcFrom == t.envs[t.cur.value].id && env.ipcPerm == evs[i].call.perm
    decreases |evs|
  {
    var s1 := Step(s, evs[0]);
    StepIpc(s, evs[0], e);
    StepIpcOk(s, evs[0]);
    if Sends(s, evs[0], e) {
      i := 0;
      MessageStays(s1, evs[1..], e);
    } else {
      var j := ReceiveMeetsSend(s1, evs[1..], e);
      i := j + 1;
      assert evs[..i][1..] == evs[1..][..j];
    }
  }

  // -------- receivers revived without a send --------

  /** In every run without revivals, the bit of e is the receives begun less the sends that succeeded. */
  ghost predicate PairsFrom(s: KState, e: EnvIx)
  {
    forall evs {:trigger Run(s, evs)} :: IpcRun(s, evs) ==> Bit(Run(s, evs), e) == Begun(s, evs, e) - Sent(s, evs, e)
  }

  /**
   env_alloc does not clear env_ipc_recving. A forked environment pairs from
   its creation on exactly when its slot was not freed in mid-receive.
   */
  lemma ReusedSlotPairs(s: KState) returns (s': KState)
    requires IpcOk(s) && CanStep(s) && s.envFree != [] && s.mem.free != []
    ensures s' == SysFork(s).0
    ensures PairsFrom(s', s.envFree[0]) <==> !s.envs[s.envFree[0]].ipcRecving
  {
    s' := ForkIpc(s);
    var e := s.envFree[0];
    assert SameIpc(s'.envs[e], s.envs[e]);
    if s.envs[e].ipcRecving {
      assert Run(s', []) == s' && IpcRun(s', []);
    } else {
      forall evs | IpcRun(s', evs) ensures Bit(Run(s', evs), e) == Begun(s', evs, e) - Sent(s', evs, e) {
        Pairing(s', evs, e);
      }
    }
  }

  // -------- user/ipc.c --------

  /** Where a caller of ipc_send stands: about to ask, refused and about to yield, or answered otherwise. */
  datatype Phase = Asking | Refused | Finished(ret: int)

  /** What sys_ipc_can_send returns to its caller. */
  function Answer(s: KState, ev: Event): int
    requires CanStep(s) && ev.Syscall? && ev.call.IpcCanSend?
  {
    SysIpcCanSend(s.(kframe := ev.frame), ev.call.envid, ev.call.value, ev.call.srcva, ev.call.perm).1
  }

  /** The caller's phase after one of its system calls; None for a call ipc_send does not make. A kernel that panics does not answer. */
  function NextPhase(s: KState, ev: Event, a: Call, ph: Phase): Option<Phase>
    requires CanStep(s) && ev.Syscall? && a.IpcCanSend?
  {
    if ph == Asking && ev.call == a then
      if Step(s, ev).halted then Some(Asking)
      else if Answer(s, ev) == -E_IPC_NOT_RECV then Some(Refused)
      else Some(Finished(Answer(s, ev)))
    else if ph == Refused && ev.call == Yield then Some(Asking)
    else None
  }

  predicate IsOwn(s: KState, ev: Event, c: EnvIx) { s.cur == Some(c) && ev.Syscall? }

  /**
   Environment c in the loop of ipc_send: its system calls are those of the
   loop, and the run holds none behind its last. Interrupts and the traps of
   other environments come anywhere in between.
   */
  function SendLoop(s: KState, evs: seq<Event>, c: EnvIx, a: Call, ph: Phase): Option<Phase>
    requires a.IpcCanSend?
    decreases |evs|
  {
    if evs == [] || !CanStep(s) then Some(ph)
    else if IsOwn(s, evs[0], c) then
      match NextPhase(s, evs[0], a, ph)
      case None => None
      case Some(ph1) => SendLoop(Step(s, evs[0]), evs[1..], c, a, ph1)
    else SendLoop(Step(s, evs[0]), evs[1..], c, a, ph)
  }

  /** The answers c gets in the run. */
  function Answers(s: KState, evs: seq<Event>, c: EnvIx): seq<int>
    decreases |evs|
  {
    if evs == [] || !CanStep(s) then []
    else if IsOwn(s, evs[0], c) && evs[0].call.IpcCanSend? && !Step(s, evs[0]).halted then
      [Answer(s, evs[0])] + Answers(Step(s, evs[0]), evs[1..], c)
    else Answers(Step(s, evs[0]), evs[1..], c)
  }

  /** The sends of the run that c made and that reached a receiver. */
  ghost function OwnSends(s: KState, evs: seq<Event>, c: EnvIx): nat
    decreases |evs|
  {
    if evs == [] || !CanStep(s) then 0
    else (if IsOwn(s, evs[0], c) && exists e: EnvIx :: Sends(s, evs[0], e) then 1 else 0) + OwnSends(Step(s, evs[0]), evs[1..], c)
  }

  /** A call reaches a receiver exactly when it is answered by 0. */
  lemma AnsweredIffSends(s: KState, ev: Event)
    requires CanStep(s) && ev.Syscall? && ev.call.IpcCanSend?
    ensures (exists e: EnvIx :: Sends(s, ev, e)) <==> Answer(s, ev) == 0 && !Step(s, ev).halted
  {
    var s1 := s.(kframe := ev.frame);
    SendIpc(s1, ev.call.envid, ev.call.value, ev.call.srcva, ev.call.perm);
    if Answer(s, ev) == 0 && !Step(s, ev).halted {
      assert Sends(s, ev, Envid2Env(s1, ev.call.envid, false).value);
    }
  }

  /** ipc_send returns if and only if exactly one send of the run is its own; until then, none is. */
  lemma {:induction false} ReturnsIffSent(s: KState, evs: seq<Event>, c: EnvIx, a: Call, ph: Phase)
    requires a.IpcCanSend? && !ph.Finished?
    requires SendLoop(s, evs, c, a, ph).Some?
    ensures OwnSends(s, evs, c) == if SendLoop(s, evs, c, a, ph) == Some(Finished(0)) then 1 else 0
    decreases |evs|
  {
    if evs == [] || !CanStep(s) {
    } else {
      var s1 := Step(s, evs[0]);
      var ph1 := if IsOwn(s, evs[0], c) then NextPhase(s, evs[0], a, ph).value else ph;
      if IsOwn(s, evs[0], c) && evs[0].call == a { AnsweredIffSends(s, evs[0]); }
      if ph1.Finished? { NothingFollows(s1, evs[1..], c, a, ph1); } else { ReturnsIffSent(s1, evs[1..], c, a, ph1); }
    }
  }

  lemma {:induction false} NothingFollows(s: KState, evs: seq<Event>, c: EnvIx, a: Call, ph: Phase)
    requires a.IpcCanSend? && ph.Finished? && SendLoop(s, evs, c, a, ph).Some?
    ensures OwnSends(s, evs, c) == 0 && Answers(s, evs, c) == [] && SendLoop(s, evs, c, a, ph) == Some(ph)
    decreases |evs|
  {
    if evs == [] || !CanStep(s) {
    } else {
      NothingFollows(Step(s, evs[0]), evs[1..], c, a, ph);
    }
  }

  /** Refusals, and then r. */
  ghost predicate RefusedUntil(answers: seq<int>, r: int)
  {
    && answers != [] && answers[|answers| - 1] == r != -E_IPC_NOT_RECV
    && forall i :: 0 <= i < |answers| - 1 ==> answers[i] == -E_IPC_NOT_RECV
  }

  lemma RefusedBefore(answers: seq<int>, r: int)
    requires RefusedUntil(answers, r)
    ensures RefusedUntil([-E_IPC_NOT_RECV] + answers, r)
  {
  }

  /** Every answer before the last is a refusal, and the last is what the loop ends with. */
  lemma {:induction false} AnswersOfLoop(s: KState, evs: seq<Event>, c: EnvIx, a: Call, ph: Phase)
    requires a.IpcCanSend? && !ph.Finished?
    requires SendLoop(s, evs, c, a, ph).Some? && SendLoop(s, evs, c, a, ph).value.Finished?
    ensures RefusedUntil(Answers(s, evs, c), SendLoop(s, evs, c, a, ph).value.ret)
    decreases |evs|
  {
    var s1 := Step(s, evs[0]);
    var ph1 := if IsOwn(s, evs[0], c) then NextPhase(s, evs[0], a, ph).value else ph;
    if ph1.Finished? {
      NothingFollows(s1, evs[1..], c, a, ph1);
    } else {
      AnswersOfLoop(s1, evs[1..], c, a, ph1);
      RefusedBefore(Answers(s1, evs[1..], c), SendLoop(s1, evs[1..], c, a, ph1).value.ret);
    }
  }

  datatype SendOutcome = Returned | Panicked

  /**
   ipc_send by environment c, in a run of the kernel in which its loop comes to
   an end. `answers` are what the kernel's calls return to it.
   */
  method IpcSend(answers: seq<int>, ghost s: KState, ghost evs: seq<Event>, ghost c: EnvIx, ghost a: Call)
    returns (outcome: SendOutcome, calls: nat, yielded: nat)
    requires a.IpcCanSend? && SendLoop(s, evs, c, a, Asking).Some? && SendLoop(s, evs, c, a, Asking).value.Finished?
    requires answers == Answers(s, evs, c)
    ensures calls == |answers| && yielded == calls - 1
    ensures outcome == Returned <==> OwnSends(s, evs, c) == 1
    ensures outcome == Panicked <==> OwnSends(s, evs, c) == 0
  {
    AnswersOfLoop(s, evs, c, a, Asking);
    ReturnsIffSent(s, evs, c, a, Asking);
    calls, yielded := 1, 0;
    var r := answers[0];
    while r == -E_IPC_NOT_RECV
      invariant 1 <= calls <= |answers| && yielded == calls - 1 && r == answers[calls - 1]
      decreases |answers| - calls
    {
      yielded := yielded + 1;
      r := answers[calls];
      calls := calls + 1;
    }
    outcome := if r == 0 then Returned else Panicked;
  }
}
