/**
 Environment identifiers (lib/env.c:14-52, 99-122, 190-193): the slot is in the
 low bits, the serial number above them, and an id that env_free retired never
 resolves again.
 */
module Ids {
  import opened Bits
  import opened Mmu
  import opened Memory
  import opened Sched
  import opened Kernel

  /** `(n << (1 + LOG2NENV)) | idx` in 64 bits puts serial number and slot side by side, for every n. */
  lemma MakeIdPacks(n: Word, e: EnvIx)
    ensures BitOr(Shl(n, 11) % TWO64, e) == MakeId(n, e)
  {
    Shl11(n);
    ShiftedOut(n);
    OrBelow11(n % SERIALS, e);
  }

  lemma ShiftedOut(n: nat)
    ensures n * 2048 % TWO64 == n % SERIALS * 2048
  {
  }

  lemma OrBelow11(n: nat, e: nat)
    requires e < 2048
    ensures BitOr(n * 2048, e) == n * 2048 + e
  {
    Pow2Values();
    Shl11(n); Shl11(0);
    OrSplit(11, n, 0, 0, e);
    BitOrZero(n);
    ZeroOr(e);
  }

  lemma Shl11(n: nat)
    ensures Shl(n, 11) == n * 2048
  {
    Shift9(n);
    assert Shl(n, 11) == 2 * Shl(n, 10) && Shl(n, 10) == 2 * Shl(n, 9);
  }

  lemma MakeIdParts(n: Word, e: EnvIx)
    requires n < SERIALS
    ensures MakeId(n, e) == n * 2048 + e
    ensures Envx(MakeId(n, e)) == e
  {
    assert n % SERIALS == n;
    SlotOfId(MakeId(n, e), n, e);
  }

  lemma SlotOfId(id: Word, n: nat, e: EnvIx)
    requires id == n * 2048 + e
    ensures Envx(id) == e
  {
  }

  /** An id made by one of the first s.nextId allocations. */
  ghost predicate Issued(s: KState, id: Word)
  {
    1 <= id / 2048 <= s.nextId && id % 2048 < NENV
  }

  ghost predicate IdsOk(s: KState)
  {
    && s.nextId < SERIALS
    && (forall e: EnvIx {:trigger s.envs[e].id} :: s.envs[e].id == 0 || (Issued(s, s.envs[e].id) && Envx(s.envs[e].id) == e))
    && (forall i, j :: 0 <= i < j < |s.envFree| ==> s.envFree[i] != s.envFree[j])
    && (forall e {:trigger e in s.envFree} :: e in s.envFree ==> s.envs[e].status == EnvStatus.Free)
    && (s.cur.Some? ==> s.cur.value !in s.envFree)
  }

  /** An issued id no environment answers to: its slot is free, or has a newer id. */
  ghost predicate Retired(s: KState, id: Word)
  {
    Issued(s, id) && (s.envs[Envx(id)].id != id || Envx(id) in s.envFree)
  }

  lemma RetiredUnresolved(s: KState, id: Word, checkperm: bool)
    requires IdsOk(s) && Retired(s, id) && s.cur.Some?
    ensures Envid2Env(s, id, checkperm) == None
  {
  }

  /** Issued ids differ from every later one. */
  lemma FreshId(s: KState, parent: Word)
    requires IdsOk(s) && s.nextId + 1 < SERIALS
    ensures var (s', r) := EnvAlloc(s, parent);
            && IdsOk(s') && s.nextId <= s'.nextId <= s.nextId + 1
            && (r.Some? ==>
                  var id := s'.envs[r.value].id;
                  && Envx(id) == r.value && id != 0 && !Issued(s, id) && Issued(s', id)
                  && r.value in s.envFree && r.value !in s'.envFree)
            && (forall id {:trigger Retired(s', id)} :: Retired(s, id) ==> Retired(s', id))
  {
    if s.envFree != [] && s.mem.free != [] {
      var s' := EnvAlloc(s, parent).0;
      var e := s.envFree[0];
      MakeIdParts(s.nextId + 1, e);
      FreshSlot(s, s', e);
    }
  }

  lemma FreshSlot(s: KState, s': KState, e: EnvIx)
    requires IdsOk(s) && s.nextId + 1 < SERIALS && s.envFree != [] && e == s.envFree[0]
    requires s'.envFree == s.envFree[1..] && s'.nextId == s.nextId + 1 && s'.cur == s.cur
    requires s'.envs == s.envs[e := s'.envs[e]] && s'.envs[e].id == (s.nextId + 1) * 2048 + e
    ensures IdsOk(s') && e !in s'.envFree
    ensures forall id {:trigger Retired(s', id)} :: Retired(s, id) ==> Retired(s', id)
  {
    FreshFree(s, s', e);
    forall d: EnvIx ensures s'.envs[d].id == 0 || (Issued(s', s'.envs[d].id) && Envx(s'.envs[d].id) == d) {
      if d == e { NewestIssued(s', e); } else { assert s'.envs[d].id == s.envs[d].id; }
    }
    forall id | Retired(s, id) ensures Retired(s', id) { FreshKeepsRetired(s, s', e, id); }
  }

  lemma NewestIssued(s: KState, e: EnvIx)
    requires 1 <= s.nextId && s.envs[e].id == s.nextId * 2048 + e
    ensures Issued(s, s.envs[e].id) && Envx(s.envs[e].id) == e
  {
    SlotOfId(s.envs[e].id, s.nextId, e);
  }

  lemma FreshFree(s: KState, s': KState, e: EnvIx)
    requires IdsOk(s) && s.envFree != [] && e == s.envFree[0]
    requires s'.envFree == s.envFree[1..] && s'.envs == s.envs[e := s'.envs[e]]
    ensures e !in s'.envFree
    ensures forall d {:trigger d in s'.envFree} :: d in s'.envFree ==> d in s.envFree && s'.envs[d].status == EnvStatus.Free
    ensures forall i, j :: 0 <= i < j < |s'.envFree| ==> s'.envFree[i] != s'.envFree[j]
  {
  }

  lemma FreshKeepsRetired(s: KState, s': KState, e: EnvIx, id: Word)
    requires s.envFree != [] && e == s.envFree[0] && Retired(s, id)
    requires s'.envFree == s.envFree[1..] && s'.nextId == s.nextId + 1
    requires s'.envs == s.envs[e := s'.envs[e]] && s'.envs[e].id == (s.nextId + 1) * 2048 + e
    ensures Retired(s', id)
  {
  }

  /** What every step other than env_alloc and env_free does to the table. */
  ghost predicate TableKept(s: KState, s': KState)
  {
    && s'.nextId == s.nextId && s'.envFree == s.envFree
    && (forall e: EnvIx {:trigger s'.envs[e].id} :: s'.envs[e].id == s.envs[e].id)
    && (forall e: EnvIx {:trigger s'.envs[e].status} :: e in s.envFree ==> s'.envs[e].status == EnvStatus.Free)
    && (s'.cur.Some? ==> s'.cur.value !in s.envFree)
  }

  /** The invariant holds on, and retired ids stay retired. */
  ghost predicate IdStep(s: KState, s': KState)
  {
    && IdsOk(s') && s.nextId <= s'.nextId
    && forall id {:trigger Retired(s', id)} :: Retired(s, id) ==> Retired(s', id)
  }

  lemma KeptIsStep(s: KState, s': KState)
    requires IdsOk(s) && TableKept(s, s')
    ensures IdStep(s, s')
  {
  }

  lemma SchedKept(s: KState)
    requires IdsOk(s)
    ensures TableKept(s, SchedYield(s))
  {
    PickIsNearest(Statuses(s), s.pos);
    match Pick(Statuses(s), s.pos) {
      case None =>
      case Some(e) => assert s.envs[e].status == EnvStatus.Runnable;
    }
  }

  /** A fork that finds a free environment and a page for its root: the calls that take a serial number. */
  predicate Allocates(s: KState, call: Call)
  {
    call.Fork? && s.envFree != [] && s.mem.free != []
  }

  /** The table after a fork that found a free environment. */
  ghost predicate Forked(s: KState, s': KState, ret: int, n: Word, id: Word)
  {
    && s.envFree != [] && s'.envFree == s.envFree[1..] && s'.nextId == n && s'.cur == s.cur
    && s'.envs == s.envs[s.envFree[0] := s'.envs[s.envFree[0]]] && s'.envs[s.envFree[0]].id == id
    && (s'.envs[s.envFree[0]].status == EnvStatus.Runnable ==> ret == AsInt(id))
  }

  lemma ForkTable(s: KState, n: Word, id: Word) returns (s': KState, ret: int)
    requires s.cur.Some? && Allocates(s, Fork) && n == (s.nextId + 1) % TWO64 && id == MakeId(n, s.envFree[0])
    ensures (s', ret) == SysFork(s) && Forked(s, s', ret, n, id)
  {
    var loop;
    s', loop := ForkShape(s);
    ret := SysFork(s).1;
  }

  lemma ForkIds(s: KState) returns (s': KState, ret: int)
    requires IdsOk(s) && s.cur.Some? && Allocates(s, Fork) && s.nextId + 1 < SERIALS
    ensures (s', ret) == SysFork(s) && Forked(s, s', ret, s.nextId + 1, (s.nextId + 1) * 2048 + s.envFree[0])
  {
    var n, e := s.nextId + 1, s.envFree[0];
    MakeIdParts(n, e);
    Unwrapped(s.nextId);
    s', ret := ForkTable(s, n, n * 2048 + e);
  }

  lemma Unwrapped(n: Word)
    requires n + 1 < SERIALS
    ensures (n + 1) % TWO64 == n + 1
  {
  }

  lemma ForkStep(s: KState)
    requires IdsOk(s) && s.cur.Some? && (Allocates(s, Fork) ==> s.nextId + 1 < SERIALS)
    ensures IdStep(s, SysFork(s).0) && SysFork(s).0.nextId == s.nextId + if Allocates(s, Fork) then 1 else 0
  {
    if Allocates(s, Fork) {
      var s', _ := ForkIds(s);
      FreshSlot(s, s', s.envFree[0]);
    } else {
      KeptIsStep(s, SysFork(s).0);
    }
  }

  /** env_free retires the id of the environment it frees. */
  lemma DestroyRetires(s: KState, envid: Word, after: Mem)
    requires IdsOk(s) && s.cur.Some? && Envid2Env(s, envid, true).Some?
    requires s.envs[Envid2Env(s, envid, true).value].id != 0
    ensures var s' := SysEnvDestroy(s, envid, after).0;
            IdStep(s, s') && s'.nextId == s.nextId && Retired(s', s.envs[Envid2Env(s, envid, true).value].id)
  {
    var e := Envid2Env(s, envid, true).value;
    assert e !in s.envFree by { if envid != 0 { assert s.envs[e].status != EnvStatus.Free; } }
    var s1 := PutEnv(s, e, s.envs[e].(pgdir := None, status := EnvStatus.Free)).(envFree := [e] + s.envFree, mem := after);
    var s2 := if e == s.cur.value then s1.(cur := None, tframe := s.kframe) else s1;
    FreedOk(s, s2, e);
    assert Retired(s2, s.envs[e].id);
    SchedKept(s2);
    KeptIsStep(s2, SchedYield(s2));
  }

  lemma FreedOk(s: KState, s2: KState, e: EnvIx)
    requires IdsOk(s) && e !in s.envFree && s2.envFree == [e] + s.envFree && s2.nextId == s.nextId
    requires s2.envs[e].id == s.envs[e].id && s2.envs[e].status == EnvStatus.Free
    requires forall d: EnvIx :: d != e ==> s2.envs[d] == s.envs[d]
    requires s2.cur.Some? ==> s2.cur.value != e && s2.cur == s.cur
    ensures IdStep(s, s2)
  {
  }

  lemma CallStep(s: KState, call: Call)
    requires IdsOk(s) && s.cur.Some? && (Allocates(s, call) ==> s.nextId + 1 < SERIALS)
    ensures IdStep(s, Serve(s, call)) && Serve(s, call).nextId == s.nextId + if Allocates(s, call) then 1 else 0
  {
    if call.Fork? {
      ForkStep(s);
    } else if call.EnvDestroy? {
      DestroyStep(s, call.envid, call.after);
    } else {
      CallKept(s, call);
      KeptIsStep(s, Serve(s, call));
    }
  }

  lemma CallKept(s: KState, call: Call)
    requires IdsOk(s) && s.cur.Some? && !call.Fork? && !call.EnvDestroy?
    ensures TableKept(s, Serve(s, call))
  {
    match call
    case Yield => SchedKept(s.(tframe := s.kframe));
    case IpcRecv(dstva) => RecvKept(s, dstva);
    case MemAlloc(envid, va, perm) => MemAllocKept(s, envid, va, perm);
    case MemMap(srcid, srcva, dstid, dstva, perm) => MemMapKept(s, srcid, srcva, dstid, dstva, perm);
    case MemUnmap(envid, va) => AfterInsertKept(s);
    case SetEnvStatus(envid, status) => SetStatusKept(s, envid, status);
    case IpcCanSend(envid, value, srcva, perm) => SendKept(s, envid, value, srcva, perm);
  }

  lemma AfterInsertKept(s: KState)
    requires IdsOk(s)
    ensures forall r {:trigger AfterInsert(s, r)} :: TableKept(s, AfterInsert(s, r).0)
  {
  }

  lemma MemAllocKept(s: KState, envid: Word, va: Word, perm: Word)
    requires IdsOk(s) && s.cur.Some?
    ensures TableKept(s, SysMemAlloc(s, envid, va, perm).0)
  {
    if s.mem.free != [] {
      var s1 := s.(mem := TakeFree(s.mem));
      AfterInsertKept(s1);
    }
  }

  lemma MemMapKept(s: KState, srcid: Word, srcva: Word, dstid: Word, dstva: Word, perm: Word)
    requires IdsOk(s) && s.cur.Some?
    ensures TableKept(s, SysMemMap(s, srcid, srcva, dstid, dstva, perm).0)
  {
    AfterInsertKept(s);
  }

  lemma RecvKept(s: KState, dstva: Word)
    requires IdsOk(s) && s.cur.Some?
    ensures TableKept(s, SysIpcRecv(s, dstva).0)
  {
    if dstva < UTOP {
      var c := s.cur.value;
      var env := s.envs[c].(status := EnvStatus.NotRunnable, ipcRecving := true, ipcDstva := dstva);
      var s1 := PutEnv(s, c, env).(tframe := s.kframe);
      SchedKept(s1);
    }
  }

  lemma SetStatusKept(s: KState, envid: Word, status: Word)
    requires IdsOk(s) && s.cur.Some?
    ensures TableKept(s, SysSetEnvStatus(s, envid, status).0)
  {
  }

  lemma SendKept(s: KState, envid: Word, value: Word, srcva: Word, perm: Word)
    requires IdsOk(s) && s.cur.Some?
    ensures TableKept(s, SysIpcCanSend(s, envid, value, srcva, perm).0)
  {
    if Envid2Env(s, envid, false).Some? {
      var e := Envid2Env(s, envid, false).value;
      AfterInsertKept(s);
      var s1 := SendPage(s, e, srcva, perm).0;
      assert TableKept(s, s1);
    }
  }

  lemma DestroyStep(s: KState, envid: Word, after: Mem)
    requires IdsOk(s) && s.cur.Some?
    ensures IdStep(s, SysEnvDestroy(s, envid, after).0) && SysEnvDestroy(s, envid, after).0.nextId == s.nextId
  {
    match Envid2Env(s, envid, true) {
      case None => KeptIsStep(s, s);
      case Some(e) =>
        assert e !in s.envFree;
        var s1 := PutEnv(s, e, s.envs[e].(pgdir := None, status := EnvStatus.Free)).(envFree := [e] + s.envFree, mem := after);
        var s2 := if e == s.cur.value then s1.(cur := None, tframe := s.kframe) else s1;
        FreedOk(s, s2, e);
        SchedKept(s2);
        KeptIsStep(s2, SchedYield(s2));
    }
  }

  /** How many environments the run allocates. */
  function Allocations(s: KState, evs: seq<Event>): nat
    decreases |evs|
  {
    if evs == [] || !CanStep(s) then 0
    else (if evs[0].Syscall? && Allocates(s, evs[0].call) then 1 else 0) + Allocations(Step(s, evs[0]), evs[1..])
  }

  /** ... which is at most the number of its fork calls, however many other traps there are. */
  function Forks(evs: seq<Event>): nat
  {
    if evs == [] then 0 else (if evs[0].Syscall? && evs[0].call.Fork? then 1 else 0) + Forks(evs[1..])
  }

  lemma {:induction false} AllocationsAreForks(s: KState, evs: seq<Event>)
    ensures Allocations(s, evs) <= Forks(evs)
    decreases |evs|
  {
    if evs == [] || !CanStep(s) {
    } else {
      AllocationsAreForks(Step(s, evs[0]), evs[1..]);
    }
  }

  lemma TrapStep(s: KState, ev: Event)
    requires IdsOk(s) && CanStep(s) && (ev.Syscall? && Allocates(s, ev.call) ==> s.nextId + 1 < SERIALS)
    ensures IdStep(s, Step(s, ev)) && Step(s, ev).nextId == s.nextId + if ev.Syscall? && Allocates(s, ev.call) then 1 else 0
  {
    var s1 := match ev case Syscall(f, _) => s.(kframe := f) case Irq(f) => s.(tframe := f);
    KeptIsStep(s, s1);
    match ev {
      case Syscall(_, call) => CallStep(s1, call);
      case Irq(_) => SchedKept(s1); KeptIsStep(s1, SchedYield(s1));
    }
    assert forall id :: Retired(s, id) ==> Retired(s1, id);
  }

  /**
   Over every run, with any system calls in any order and whatever env_free
   does to memory: an id that is retired when the run starts, or is retired
   along the way, never resolves afterwards. The bound is on environments
   allocated, not on traps.
   */
  lemma {:induction false} RetiredForever(s: KState, evs: seq<Event>, id: Word)
    requires IdsOk(s) && Retired(s, id) && s.nextId + Allocations(s, evs) < SERIALS
    ensures IdsOk(Run(s, evs)) && Retired(Run(s, evs), id)
    ensures Run(s, evs).cur.Some? ==> forall checkperm :: Envid2Env(Run(s, evs), id, checkperm) == None
    decreases |evs|
  {
    if evs == [] || !CanStep(s) {
    } else {
      TrapStep(s, evs[0]);
      RetiredForever(Step(s, evs[0]), evs[1..], id);
    }
  }

  /** Ids are unique among the first 2^53 - 1: one issued before or during a run is not issued again after it. */
  lemma {:induction false} IssuedForever(s: KState, evs: seq<Event>, id: Word)
    requires IdsOk(s) && Issued(s, id) && s.nextId + Allocations(s, evs) + 1 < SERIALS
    ensures var s' := Run(s, evs);
            && IdsOk(s') && s'.nextId == s.nextId + Allocations(s, evs) && Issued(s', id)
            && forall parent :: var (s2, r) := EnvAlloc(s', parent); r.Some? ==> s2.envs[r.value].id != id
    decreases |evs|
  {
    if evs == [] || !CanStep(s) {
      forall parent ensures var (s2, r) := EnvAlloc(s, parent); r.Some? ==> s2.envs[r.value].id != id { FreshId(s, parent); }
    } else {
      TrapStep(s, evs[0]);
      IssuedForever(Step(s, evs[0]), evs[1..], id);
    }
  }

  // -------- where ids come back --------

  /** Two ids are the same exactly when they name the same slot and their counters agree in the low 53 bits. */
  lemma SameIdIff(n: Word, e: EnvIx, m: Word, d: EnvIx)
    ensures MakeId(n, e) == MakeId(m, d) <==> e == d && n % SERIALS == m % SERIALS
  {
    Packed(n % SERIALS, e, m % SERIALS, d);
  }

  lemma Packed(a: nat, e: EnvIx, b: nat, d: EnvIx)
    ensures a * 2048 + e == b * 2048 + d <==> e == d && a == b
  {
    assert (a * 2048 + e) / 2048 == a && (b * 2048 + d) / 2048 == b;
  }

  lemma AfterInsertCounter(s: KState)
    ensures forall r {:trigger AfterInsert(s, r)} :: AfterInsert(s, r).0.nextId == s.nextId
  {
  }

  lemma SendCounter(s: KState, envid: Word, value: Word, srcva: Word, perm: Word)
    requires s.cur.Some?
    ensures SysIpcCanSend(s, envid, value, srcva, perm).0.nextId == s.nextId
  {
    AfterInsertCounter(s);
  }

  lemma ForkCounter(s: KState)
    requires s.cur.Some?
    ensures SysFork(s).0.nextId == if Allocates(s, Fork) then (s.nextId + 1) % TWO64 else s.nextId
  {
    if Allocates(s, Fork) { var _, _ := ForkShape(s); }
  }

  /** The 64-bit counter moves by one with each allocation and with nothing else, in any state. */
  lemma CounterStep(s: KState, ev: Event)
    requires CanStep(s)
    ensures Step(s, ev).nextId == if ev.Syscall? && Allocates(s, ev.call) then (s.nextId + 1) % TWO64 else s.nextId
  {
    match ev
    case Irq(_) =>
    case Syscall(f, call) =>
      var s1 := s.(kframe := f);
      AfterInsertCounter(s1);
      match call
      case MemAlloc(_, _, _) => if s1.mem.free != [] { AfterInsertCounter(s1.(mem := TakeFree(s1.mem))); }
      case Fork => ForkCounter(s1);
      case IpcCanSend(envid, value, srcva, perm) => SendCounter(s1, envid, value, srcva, perm);
      case _ =>
  }

  predicate IsCounter(n: Word, a: nat, m: int) { m == (n + a) % TWO64 }

  /** The counter is m when it was n a allocations before. */
  ghost predicate Counts(n: Word, a: nat, m: Word)
  {
    forall c {:trigger IsCounter(n, a, c)} :: IsCounter(n, a, c) ==> m == c
  }

  lemma CountsAdd(n: Word, a: nat, n1: Word, b: nat, m: Word)
    requires Counts(n, a, n1) && Counts(n1, b, m)
    ensures Counts(n, a + b, m)
  {
    assert IsCounter(n, a, (n + a) % TWO64) && IsCounter(n1, b, (n1 + b) % TWO64);
  }

  lemma CountsOne(n: Word, m: Word, one: bool)
    requires m == if one then (n + 1) % TWO64 else n
    ensures Counts(n, if one then 1 else 0, m)
  {
  }

  lemma StepCounts(s: KState, ev: Event) returns (s1: KState, a: nat)
    requires CanStep(s)
    ensures s1 == Step(s, ev) && a == (if ev.Syscall? && Allocates(s, ev.call) then 1 else 0)
    ensures Counts(s.nextId, a, s1.nextId)
  {
    CounterStep(s, ev);
    CountsOne(s.nextId, Step(s, ev).nextId, ev.Syscall? && Allocates(s, ev.call));
    s1, a := Step(s, ev), if ev.Syscall? && Allocates(s, ev.call) then 1 else 0;
  }

  lemma CountsNone(n: Word)
    ensures Counts(n, 0, n)
  {
  }

  /** The first trap and the rest. */
  lemma RunCountsFrom(s: KState, evs: seq<Event>) returns (s1: KState, a: nat, n: Word)
    requires evs != [] && CanStep(s)
    ensures s1 == Step(s, evs[0]) && Run(s, evs) == Run(s1, evs[1..]) && Allocations(s, evs) == a + Allocations(s1, evs[1..])
    ensures n == s1.nextId && Counts(s.nextId, a, n)
  {
    s1, a := StepCounts(s, evs[0]);
    n := s1.nextId;
  }

  /** The counter after the run is what its allocations make of the one before. */
  ghost predicate RunCounted(s: KState, evs: seq<Event>)
  {
    Counts(s.nextId, Allocations(s, evs), Run(s, evs).nextId)
  }

  lemma CountedAfter(s: KState, evs: seq<Event>)
    requires evs != [] && CanStep(s) && RunCounted(Step(s, evs[0]), evs[1..])
    ensures RunCounted(s, evs)
  {
    var s1, a, n := RunCountsFrom(s, evs);
    CountsAdd(s.nextId, a, n, Allocations(s1, evs[1..]), Run(s1, evs[1..]).nextId);
  }

  lemma {:induction false} RunCounter(s: KState, evs: seq<Event>)
    ensures RunCounted(s, evs)
    decreases |evs|
  {
    if evs == [] || !CanStep(s) {
      CountsNone(s.nextId);
    } else {
      RunCounter(Step(s, evs[0]), evs[1..]);
      CountedAfter(s, evs);
    }
  }

  lemma IdsAgree(n: Word, m: Word, a: nat, e: EnvIx, d: EnvIx)
    requires Counts(n, a, m)
    ensures MakeId((n + 1) % TWO64, e) == MakeId((m + 1) % TWO64, d) <==> e == d && a % SERIALS == 0
  {
    assert IsCounter(n, a, (n + a) % TWO64);
    SameSerial(n, m, a);
    SameIdIff((n + 1) % TWO64, e, (m + 1) % TWO64, d);
  }

  /** In state s, an allocation for parent p would take slot e and make this id. */
  ghost predicate WouldMake(s: KState, p: Word, e: EnvIx, id: Word)
  {
    EnvAlloc(s, p).1 == Some(e) && id == EnvAlloc(s, p).0.envs[e].id
  }

  lemma WouldAgree(s: KState, t: KState, a: nat, p: Word, q: Word, e: EnvIx, d: EnvIx, id: Word, later: Word)
    requires Counts(s.nextId, a, t.nextId) && WouldMake(s, p, e, id) && WouldMake(t, q, d, later)
    ensures id == later <==> e == d && a % SERIALS == 0
  {
    IdsAgree(s.nextId, t.nextId, a, e, d);
  }

  /**
   The exact point of reuse, over every run from any state: an id made before
   the run and one made after it are the same exactly when they are for the
   same slot and the run made a multiple of 2^53 allocations.
   */
  lemma IdComesBack(s: KState, evs: seq<Event>, p: Word, q: Word, e: EnvIx, d: EnvIx, id: Word, later: Word)
    requires WouldMake(s, p, e, id) && WouldMake(Run(s, evs), q, d, later)
    ensures id == later <==> e == d && Allocations(s, evs) % SERIALS == 0
  {
    RunCounter(s, evs);
    WouldAgree(s, Run(s, evs), Allocations(s, evs), p, q, e, d, id, later);
  }

  lemma SameSerial(n: nat, m: nat, a: nat)
    requires m == (n + a) % TWO64
    ensures (n + 1) % TWO64 % SERIALS == (m + 1) % TWO64 % SERIALS <==> a % SERIALS == 0
  {
    LowBits(n + 1);
    LowBits(m + 1);
    LowBits(n + a);
    Shifted(n + 1, a);
    AddLow(m, 1, n + a);
  }

  lemma LowBits(n: nat)
    ensures n % TWO64 % SERIALS == n % SERIALS
  {
  }

  lemma AddLow(m: nat, k: nat, n: nat)
    requires m % SERIALS == n % SERIALS
    ensures (m + k) % SERIALS == (n + k) % SERIALS
  {
  }

  lemma Shifted(n: nat, a: nat)
    ensures n % SERIALS == (n + a) % SERIALS <==> a % SERIALS == 0
  {
  }

  /** fork returns an int: it is the child's id exactly while the serial number is below 2^20. */
  lemma ForkReturnsId(s: KState)
    requires IdsOk(s) && s.cur.Some? && s.nextId + 1 < SERIALS && s.envFree != [] && s.mem.free != []
    requires SysFork(s).0.envs[s.envFree[0]].status == EnvStatus.Runnable
    ensures var (s', ret) := SysFork(s);
            ret == s'.envs[s.envFree[0]].id <==> s.nextId + 1 < 0x10_0000
  {
    var e := s.envFree[0];
    var _, _ := ForkIds(s);
    MakeIdParts(s.nextId + 1, e);
    IdAsInt(s.nextId + 1, e);
  }

  lemma IdAsInt(n: Word, e: EnvIx)
    requires n < SERIALS
    ensures AsInt(MakeId(n, e)) == MakeId(n, e) <==> n < 0x10_0000
  {
  }
}
