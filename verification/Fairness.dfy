/**
 Bounded bypass over kernel runs: an environment that is runnable at every
 scheduling decision gets the processor within NENV decisions, whatever else
 the traps of the run do (lib/sched.c:4-13 under lib/syscall_all.c and
 lib/entry.S).
 */
module Fairness {
  import opened Bits
  import opened Memory
  import opened Sched
  import opened Kernel
  import opened Context

  /** The state in which a switching trap calls sched_yield. */
  function Decision(s: KState, ev: Event): KState
    requires CanStep(s) && Switches(s, ev)
  {
    match ev
    case Irq(f) => s.(tframe := f)
    case Syscall(f, Yield) => s.(kframe := f, tframe := f)
    case Syscall(f, IpcRecv(dstva)) =>
      var env := s.envs[s.cur.value].(status := EnvStatus.NotRunnable, ipcRecving := true, ipcDstva := dstva);
      PutEnv(s, s.cur.value, env).(kframe := f, tframe := f)
    case Syscall(f, EnvDestroy(_, after)) =>
      var e := s.cur.value;
      PutEnv(s, e, s.envs[e].(pgdir := None, status := EnvStatus.Free)).(envFree := [e] + s.envFree, mem := after, cur := None, kframe := f, tframe := f)
  }

  lemma SwitchDecides(s: KState, ev: Event)
    requires CanStep(s) && Switches(s, ev)
    ensures Step(s, ev) == SchedYield(Decision(s, ev)) && Decision(s, ev).pos == s.pos
  {
  }

  lemma AfterInsertPos(s: KState)
    ensures forall r {:trigger AfterInsert(s, r)} :: AfterInsert(s, r).0.pos == s.pos
  {
  }

  lemma ForkPos(s: KState)
    requires s.cur.Some?
    ensures SysFork(s).0.pos == s.pos
  {
    if s.envFree != [] && s.mem.free != [] { var _, _ := ForkShape(s); }
  }

  lemma SendPos(s: KState, envid: Word, value: Word, srcva: Word, perm: Word)
    requires s.cur.Some?
    ensures SysIpcCanSend(s, envid, value, srcva, perm).0.pos == s.pos
  {
    AfterInsertPos(s);
  }

  /** Traps that return to their caller leave the scheduler's position alone. */
  lemma OthersKeepPos(s: KState, ev: Event)
    requires CanStep(s) && !Switches(s, ev)
    ensures Step(s, ev).pos == s.pos
  {
    var s1 := s.(kframe := ev.frame);
    AfterInsertPos(s1);
    match ev.call
    case MemAlloc(_, _, _) => if s1.mem.free != [] { AfterInsertPos(s1.(mem := TakeFree(s1.mem))); }
    case Fork => ForkPos(s1);
    case IpcCanSend(envid, value, srcva, perm) => SendPos(s1, envid, value, srcva, perm);
    case _ =>
  }

  /** How many scheduling decisions the run makes. */
  function Decisions(s: KState, evs: seq<Event>): nat
    decreases |evs|
  {
    if evs == [] || !CanStep(s) then 0
    else (if Switches(s, evs[0]) then 1 else 0) + Decisions(Step(s, evs[0]), evs[1..])
  }

  /** Environment e is runnable at each of them. */
  ghost predicate RunnableThroughout(s: KState, evs: seq<Event>, e: EnvIx)
    decreases |evs|
  {
    evs == [] || !CanStep(s)
    || ((Switches(s, evs[0]) ==> Decision(s, evs[0]).envs[e].status == EnvStatus.Runnable) && RunnableThroughout(Step(s, evs[0]), evs[1..], e))
  }

  /** e is current after the first i traps, the last of which chose it. */
  ghost predicate ChosenAt(s: KState, evs: seq<Event>, e: EnvIx, i: nat)
  {
    && 1 <= i <= |evs|
    && var t := Run(s, evs[..i - 1]);
       CanStep(t) && Switches(t, evs[i - 1]) && Step(t, evs[i - 1]).cur == Some(e) && !Step(t, evs[i - 1]).halted
  }

  /** With as many decisions as its cyclic distance, e is chosen by one of them. */
  lemma {:induction false} RunIsFair(s: KState, evs: seq<Event>, e: EnvIx) returns (i: nat)
    requires RunnableThroughout(s, evs, e) && Decisions(s, evs) >= Distance(s.pos, e)
    ensures ChosenAt(s, evs, e, i)
    decreases |evs|
  {
    var ev, s1 := evs[0], Step(s, evs[0]);
    var now := false;
    if Switches(s, ev) { now := Chooses(s, ev, e); } else { OthersKeepPos(s, ev); }
    if now {
      i := 1;
      assert evs[..0] == [];
    } else {
      var j := RunIsFair(s1, evs[1..], e);
      i := j + 1;
      ShiftRun(s, evs, j);
    }
  }

  lemma ShiftRun(s: KState, evs: seq<Event>, j: nat)
    requires CanStep(s) && 1 <= j < |evs|
    ensures Run(s, evs[..j]) == Run(Step(s, evs[0]), evs[1..][..j - 1])
  {
    assert evs[..j][1..] == evs[1..][..j - 1];
  }

  /** A decision chooses e, or brings it strictly closer. */
  lemma Chooses(s: KState, ev: Event, e: EnvIx) returns (now: bool)
    requires CanStep(s) && Switches(s, ev) && Decision(s, ev).envs[e].status == EnvStatus.Runnable
    ensures !Step(s, ev).halted
    ensures now ==> Step(s, ev).cur == Some(e)
    ensures !now ==> Distance(Step(s, ev).pos, e) < Distance(s.pos, e)
  {
    SwitchDecides(s, ev);
    var d := Decision(s, ev);
    NeverSkipped(Statuses(d), d.pos, e);
    now := Pick(Statuses(d), d.pos) == Some(e);
  }

  /** Bounded bypass, for any run with NENV decisions. */
  lemma NenvDecisionsSuffice(s: KState, evs: seq<Event>, e: EnvIx) returns (i: nat)
    requires RunnableThroughout(s, evs, e) && Decisions(s, evs) >= NENV
    ensures ChosenAt(s, evs, e, i)
  {
    i := RunIsFair(s, evs, e);
  }
}
