/**
 Two runs from power-on in which a receiver is revived without a send, and its
 receives and sends do not pair: env_alloc keeps env_ipc_recving
 (lib/env.c:99-122), and sys_set_env_status does not look at it
 (lib/syscall_all.c:182-208).
 */
module Revivals {
  import opened Bits
  import opened Mmu
  import opened Memory
  import opened AddressSpace
  import opened ForkCost
  import opened Sched
  import opened Kernel
  import opened Isolation
  import opened Ipc
  import opened Startup

  function FrameAt(sp: Word): Trapframe { Trapframe(seq(31, _ => 0), sp, 0, 0, 0) }

  /** A fork by a caller whose stack is empty, so that no page is copied. */
  const FORKS: Event := Syscall(FrameAt(USTACKTOP), Fork)

  /** An interrupt, and a receive by the environment it switches to. */
  const RECEIVES: seq<Event> := [Irq(FrameAt(0)), Syscall(FrameAt(0), IpcRecv(0))]

  // -------- runs in parts --------

  lemma {:induction false} Joined(s: KState, a: seq<Event>, b: seq<Event>, e: EnvIx)
    ensures Run(s, a + b) == Run(Run(s, a), b)
    ensures Begun(s, a + b, e) == Begun(s, a, e) + Begun(Run(s, a), b, e)
    ensures Sent(s, a + b, e) == Sent(s, a, e) + Sent(Run(s, a), b, e)
    decreases |a|
  {
    if a == [] {
      assert a + b == b;
    } else if !CanStep(s) {
    } else {
      assert (a + b)[0] == a[0] && (a + b)[1..] == a[1..] + b;
      Joined(Step(s, a[0]), a[1..], b, e);
    }
  }

  lemma OneTrap(s: KState, ev: Event, e: EnvIx)
    requires CanStep(s)
    ensures Run(s, [ev]) == Step(s, ev)
    ensures Begun(s, [ev], e) == if BeginsReceive(s, ev, e) then 1 else 0
    ensures Sent(s, [ev], e) == if Sends(s, ev, e) then 1 else 0
  {
    assert [ev][1..] == [];
  }

  lemma {:induction false} SafeJoined(s: KState, a: seq<Event>, b: seq<Event>)
    requires SafeRun(s, a) && SafeRun(Run(s, a), b)
    ensures SafeRun(s, a + b)
    decreases |a|
  {
    if a == [] {
      assert a + b == b;
    } else if !CanStep(s) {
    } else {
      assert (a + b)[0] == a[0] && (a + b)[1..] == a[1..] + b;
      SafeJoined(Step(s, a[0]), a[1..], b);
    }
  }

  /** Traps that are safe for memory in any state. */
  predicate Harmless(ev: Event)
  {
    ev.Irq? || ev.call.IpcRecv? || ev.call.SetEnvStatus? || (ev.call.Fork? && ev.frame.sp == USTACKTOP)
  }

  lemma {:induction false} HarmlessRun(s: KState, evs: seq<Event>)
    requires forall i :: 0 <= i < |evs| ==> Harmless(evs[i])
    ensures SafeRun(s, evs)
    decreases |evs|
  {
    if evs == [] || !CanStep(s) {
    } else {
      assert Harmless(evs[0]);
      HarmlessRun(Step(s, evs[0]), evs[1..]);
    }
  }

  // -------- environment 0 and its child in slot 1 --------

  /** Only the first two environments can be runnable, and which of them is. */
  ghost predicate Two(s: KState, first: bool, second: bool)
  {
    && (s.envs[0].status == EnvStatus.Runnable <==> first) && (s.envs[1].status == EnvStatus.Runnable <==> second)
    && forall e: EnvIx {:trigger s.envs[e]} :: e > 1 ==> s.envs[e].status == EnvStatus.Free
  }

  ghost predicate ParentRuns(s: KState, child: bool)
  {
    CanStep(s) && Two(s, true, child) && s.cur == Some(0) && s.pos == 0
  }

  /** The identities of both environments, and memory. */
  ghost predicate SamePair(s: KState, s': KState)
  {
    && s'.mem == s.mem && s'.envFree == s.envFree && s'.nextId == s.nextId && s'.envs[0].id == s.envs[0].id
    && s'.envs[1].id == s.envs[1].id && s'.envs[1].parent == s.envs[1].parent && s'.envs[1].pgdir == s.envs[1].pgdir
  }

  lemma TwoPick(s: KState, first: bool, second: bool)
    requires Two(s, first, second) && (first || second) && 0 <= s.pos <= 1
    ensures Pick(Statuses(s), s.pos) == Some(if first && (s.pos == 1 || !second) then 0 else 1)
  {
    PickIsNearest(Statuses(s), s.pos);
    var st := Statuses(s);
    assert st[if first then 0 else 1] == EnvStatus.Runnable;
    assert st[0] == s.envs[0].status && st[1] == s.envs[1].status;
  }

  lemma ChildResumes(s: KState) returns (s': KState)
    requires ParentRuns(s, true)
    ensures s' == Step(s, RECEIVES[0]) && Two(s', true, true) && CanStep(s') && s'.cur == Some(1) && s'.pos == 1
    ensures SamePair(s, s')
  {
    s' := Step(s, RECEIVES[0]);
    TwoPick(s.(tframe := FrameAt(0)), true, true);
  }

  lemma ChildReceives(s: KState) returns (s': KState)
    requires CanStep(s) && Two(s, true, true) && s.cur == Some(1) && s.pos == 1
    ensures s' == Step(s, RECEIVES[1]) && BeginsReceive(s, RECEIVES[1], 1) && Bit(s', 1) == 1
    ensures ParentRuns(s', false) && SamePair(s, s') && s'.envs[1].status == EnvStatus.NotRunnable
  {
    s' := Step(s, RECEIVES[1]);
    var env := s.envs[1].(status := EnvStatus.NotRunnable, ipcRecving := true, ipcDstva := 0);
    TwoPick(PutEnv(s, 1, env).(kframe := FrameAt(0), tframe := FrameAt(0)), true, false);
  }

  /** The child, runnable, receives, whatever its bit was. */
  lemma Receives(s: KState) returns (s': KState)
    requires ParentRuns(s, true)
    ensures s' == Run(s, RECEIVES) && ParentRuns(s', false) && SamePair(s, s') && s'.envs[1].status == EnvStatus.NotRunnable
    ensures Begun(s, RECEIVES, 1) == 1 && Sent(s, RECEIVES, 1) == 0 && Bit(s', 1) == 1
  {
    var s1 := ChildResumes(s);
    s' := ChildReceives(s1);
    OneTrap(s, RECEIVES[0], 1);
    OneTrap(s1, RECEIVES[1], 1);
    assert RECEIVES == [RECEIVES[0]] + [RECEIVES[1]];
    Joined(s, [RECEIVES[0]], [RECEIVES[1]], 1);
  }

  lemma ParentForks(s: KState) returns (s': KState)
    requires ParentRuns(s, false) && s.envFree != [] && s.envFree[0] == 1 && s.mem.free != []
    ensures s' == Step(s, FORKS) && ParentRuns(s', true) && Bit(s', 1) == Bit(s, 1)
    ensures s'.mem == SetupVm(s.mem) && s'.mem.free == s.mem.free[1..] && s'.envFree == s.envFree[1..] && s'.nextId == (s.nextId + 1) % TWO64
    ensures s'.envs[0].id == s.envs[0].id && s'.envs[1].parent == s.envs[0].id
    ensures s'.envs[1].id == MakeId(s'.nextId, 1) && s'.envs[1].pgdir == Some(s.mem.free[0])
  {
    var t, loop := ForkShape(s.(kframe := FrameAt(USTACKTOP)));
    assert loop == (SetupVm(s.mem), Complete);
    s' := t;
  }

  /** The parent forks, and the child receives, whatever the bit of its slot was. */
  lemma ForksAndReceives(s: KState) returns (s': KState)
    requires ParentRuns(s, false) && s.envFree != [] && s.envFree[0] == 1 && s.mem.free != []
    ensures s' == Run(s, [FORKS] + RECEIVES) && ParentRuns(s', false) && s'.envs[1].status == EnvStatus.NotRunnable
    ensures Begun(s, [FORKS] + RECEIVES, 1) == 1 && Sent(s, [FORKS] + RECEIVES, 1) == 0 && Bit(s', 1) == 1
    ensures s'.mem == SetupVm(s.mem) && s'.mem.free == s.mem.free[1..] && s'.envFree == s.envFree[1..]
    ensures s'.envs[0].id == s.envs[0].id && s'.envs[1].parent == s.envs[0].id
    ensures s'.envs[1].id == MakeId((s.nextId + 1) % TWO64, 1) && s'.envs[1].pgdir == Some(s.mem.free[0])
  {
    var s1 := ParentForks(s);
    s' := Receives(s1);
    OneTrap(s, FORKS, 1);
    Joined(s, [FORKS], RECEIVES, 1);
  }

  lemma ParentDestroys(s: KState, ev: Event) returns (s': KState)
    requires ParentRuns(s, false) && s.envs[1].id == 4097 && s.envs[1].status == EnvStatus.NotRunnable && s.envs[1].parent == s.envs[0].id
    requires ev == Syscall(FrameAt(0), EnvDestroy(4097, s.mem))
    ensures s' == Step(s, ev) && ParentRuns(s', false) && s'.mem == s.mem && s'.envFree == [1] + s.envFree
  {
    s' := Step(s, ev);
  }

  lemma ParentWakes(s: KState, ev: Event) returns (s': KState)
    requires ParentRuns(s, false) && s.envs[1].id == 4097 && s.envs[1].status == EnvStatus.NotRunnable
    requires ev == Syscall(FrameAt(0), SetEnvStatus(4097, 1))
    ensures s' == Step(s, ev) && ParentRuns(s', true)
  {
    s' := Step(s, ev);
  }

  // -------- the failing runs --------

  /** Two receives begin, no send succeeds, and the bit has moved by one. */
  ghost predicate Unpaired(s: KState, evs: seq<Event>, e: EnvIx)
  {
    Begun(s, evs, e) == 2 && Sent(s, evs, e) == 0 && Bit(s, e) == 0 && Bit(Run(s, evs), e) == 1
  }

  /** One receive before and one after a trap that begins none, without a send. */
  lemma TwoReceives(s: KState, a: seq<Event>, t: KState, ev: Event, b: seq<Event>)
    requires t == Run(s, a) && CanStep(t) && !BeginsReceive(t, ev, 1) && !Sends(t, ev, 1)
    requires Begun(s, a, 1) == 1 && Sent(s, a, 1) == 0 && Bit(s, 1) == 0
    requires var t1 := Step(t, ev); Begun(t1, b, 1) == 1 && Sent(t1, b, 1) == 0 && Bit(Run(t1, b), 1) == 1
    ensures Unpaired(s, a + ([ev] + b), 1)
  {
    OneTrap(t, ev, 1);
    Joined(t, [ev], b, 1);
    Joined(s, a, [ev] + b, 1);
  }

  /** ... and the run is safe for memory if that trap is. */
  lemma SafeAround(s: KState, a: seq<Event>, t: KState, ev: Event, b: seq<Event>)
    requires t == Run(s, a) && CanStep(t) && SafeEvent(t, ev)
    requires forall i :: 0 <= i < |a| ==> Harmless(a[i])
    requires forall i :: 0 <= i < |b| ==> Harmless(b[i])
    ensures SafeRun(s, a + ([ev] + b))
  {
    HarmlessRun(s, a);
    HarmlessRun(Step(t, ev), b);
    assert ([ev] + b)[1..] == b;
    assert SafeRun(t, [ev] + b);
    SafeJoined(s, a, [ev] + b);
  }

  /** The first environment is ready to fork into slot 1. */
  ghost predicate ForksNext(s: KState)
  {
    && ParentRuns(s, false) && s.envFree != [] && s.envFree[0] == 1 && |s.mem.free| >= 2 && s.nextId == 1
    && s.envs[0].id == 2048 && Bit(s, 1) == 0 && Inv(s.mem)
  }

  lemma StartedForks(frames: seq<Frame>, kroot: nat, used: nat, entry: Word, frame: Trapframe) returns (s: KState)
    requires kroot < used && used + 6 <= |frames| <= MAX_FRAMES
    requires forall i :: SHARED <= i < ENTRIES ==> !IsValid(frames[kroot][i])
    ensures s == Started(frames, kroot, used, entry, frame) && KInv(s) && ForksNext(s)
  {
    s := StartedShape(frames, kroot, used, entry, frame);
    var _ := StartedReady(frames, kroot, used, entry, frame);
    assert AllEnvs()[1..][0] == 1;
    assert s.envs[1] == BlankEnv();
  }

  function DestroyAt(t: KState): Event { Syscall(FrameAt(0), EnvDestroy(4097, t.mem)) }

  const WAKES: Event := Syscall(FrameAt(0), SetEnvStatus(4097, 1))

  /** The child receives for the first time; it has id 4097 and no private table. */
  lemma FirstChild(s: KState) returns (t: KState)
    requires ForksNext(s)
    ensures t == Run(s, [FORKS] + RECEIVES) && ParentRuns(t, false) && t.envs[1].status == EnvStatus.NotRunnable
    ensures Begun(s, [FORKS] + RECEIVES, 1) == 1 && Sent(s, [FORKS] + RECEIVES, 1) == 0 && Bit(t, 1) == 1
    ensures t.envs[1].id == 4097 && t.envs[1].parent == t.envs[0].id && t.mem.free != []
    ensures forall v :: Private(v) ==> MissingTables(t.mem, RootOf(t, 1), v) == 2
  {
    t := ForksAndReceives(s);
    forall v | Private(v) ensures MissingTables(t.mem, RootOf(t, 1), v) == 2 { SetupMissing(s.mem, v); }
  }

  lemma ReuseUnpaired(s: KState) returns (t: KState)
    requires ForksNext(s)
    ensures t == Run(s, [FORKS] + RECEIVES) && SafeRun(s, ([FORKS] + RECEIVES) + ([DestroyAt(t)] + ([FORKS] + RECEIVES)))
    ensures Unpaired(s, ([FORKS] + RECEIVES) + ([DestroyAt(t)] + ([FORKS] + RECEIVES)), 1)
  {
    t := FirstChild(s);
    NoTablesSwept(t.(kframe := FrameAt(0)));
    SafeAround(s, [FORKS] + RECEIVES, t, DestroyAt(t), [FORKS] + RECEIVES);
    var t1 := ParentDestroys(t, DestroyAt(t));
    var _ := ForksAndReceives(t1);
    TwoReceives(s, [FORKS] + RECEIVES, t, DestroyAt(t), [FORKS] + RECEIVES);
  }

  lemma WakeUnpaired(s: KState)
    requires ForksNext(s)
    ensures Unpaired(s, ([FORKS] + RECEIVES) + ([WAKES] + RECEIVES), 1)
  {
    var t := FirstChild(s);
    var t1 := ParentWakes(t, WAKES);
    var _ := Receives(t1);
    TwoReceives(s, [FORKS] + RECEIVES, t, WAKES, RECEIVES);
  }

  /**
   The first environment forks; the child receives and is destroyed by its
   parent, whose next fork takes the same slot; the new child receives. The
   destroyed child has no private table, so the sweep of env_free leaves memory
   as it is: the run is safe, and still the account is wrong.
   */
  lemma ReuseBreaksPairing(frames: seq<Frame>, kroot: nat, used: nat, entry: Word, frame: Trapframe) returns (s: KState, t: KState)
    requires kroot < used && used + 6 <= |frames| <= MAX_FRAMES
    requires forall i :: SHARED <= i < ENTRIES ==> !IsValid(frames[kroot][i])
    ensures s == Started(frames, kroot, used, entry, frame) && t == Run(s, [FORKS] + RECEIVES)
    ensures SafeRun(s, ([FORKS] + RECEIVES) + ([DestroyAt(t)] + ([FORKS] + RECEIVES)))
    ensures Unpaired(s, ([FORKS] + RECEIVES) + ([DestroyAt(t)] + ([FORKS] + RECEIVES)), 1)
  {
    s := StartedForks(frames, kroot, used, entry, frame);
    t := ReuseUnpaired(s);
  }

  lemma NoTablesSwept(t: KState)
    requires t.cur.Some?
    requires forall v :: Private(v) ==> MissingTables(t.mem, RootOf(t, 1), v) == 2
    ensures MemSafe(t, EnvDestroy(4097, t.mem))
  {
    var r := RootOf(t, 1);
    forall i {:trigger Slot(r, i)} | 3 <= i < ENTRIES ensures !IsValid(At(t.mem, Slot(r, i))) {
      assert Private(Vpn(i, 0, 0)) && MissingTables(t.mem, r, Vpn(i, 0, 0)) == 2;
    }
  }

  /** The first environment forks; the child receives, is set RUNNABLE by its parent, and receives again. */
  lemma StatusBreaksPairing(frames: seq<Frame>, kroot: nat, used: nat, entry: Word, frame: Trapframe) returns (s: KState)
    requires kroot < used && used + 6 <= |frames| <= MAX_FRAMES
    requires forall i :: SHARED <= i < ENTRIES ==> !IsValid(frames[kroot][i])
    ensures s == Started(frames, kroot, used, entry, frame)
    ensures Unpaired(s, ([FORKS] + RECEIVES) + ([WAKES] + RECEIVES), 1)
  {
    s := StartedForks(frames, kroot, used, entry, frame);
    WakeUnpaired(s);
  }
}
