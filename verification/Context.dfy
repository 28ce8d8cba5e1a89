/**
 Register contexts over runs: saveall and env_pop_tf of lib/entry.S around
 env_run (lib/env.c:208-231). Whatever traps occur in between, an environment
 resumes with the registers of its own last trap.
 */
module Context {
  import opened Bits
  import opened Memory
  import opened Sched
  import opened Kernel

  /** saveall: the frame stored for user registers u. x16 was overwritten with the stack address; elr and pc both hold the user's pc. */
  function SaveAll(u: Trapframe, stack: Word): Trapframe
  {
    u.(x := u.x[16 := stack], elr := u.pc)
  }

  /** env_pop_tf: the registers the user gets back. x16 holds the frame's address, x17 the last value moved through it. */
  function PopTf(tf: Trapframe, address: Word): Trapframe
  {
    tf.(x := tf.x[16 := address][17 := tf.pc], elr := tf.pc)
  }

  /** Equal in x0-x15, x18-x30, sp, pc and pstate. */
  ghost predicate SameContext(a: Trapframe, b: Trapframe)
  {
    && a.sp == b.sp && a.pc == b.pc && a.pstate == b.pstate
    && forall i {:trigger a.x[i]} {:trigger b.x[i]} :: 0 <= i < 31 && i != 16 && i != 17 ==> a.x[i] == b.x[i]
  }

  lemma SavedAndRestored(u: Trapframe, stack: Word, tf: Trapframe, address: Word)
    requires SameContext(tf, SaveAll(u, stack))
    ensures SameContext(PopTf(tf, address), u)
  {
  }

  function FrameOfEvent(ev: Event): Trapframe
  {
    match ev case Syscall(f, _) => f case Irq(f) => f
  }

  type Frames = s: seq<Trapframe> | |s| == NENV witness seq(NENV, _ => BlankEnv().tf)

  /** The frame of each environment's last trap, after one more trap; a forked child starts with its parent's frame and x0 = 0. */
  function Captured(s: KState, ev: Event, last: Frames): Frames
    requires CanStep(s)
  {
    var f := FrameOfEvent(ev);
    var l := last[s.cur.value := f];
    if ev.Syscall? && ev.call.Fork? && s.envFree != [] && s.mem.free != []
    then l[s.envFree[0] := f.(x := f.x[0 := 0])]
    else l
  }

  function CapturedRun(s: KState, evs: seq<Event>, last: Frames): Frames
    decreases |evs|
  {
    if evs == [] || !CanStep(s) then last
    else CapturedRun(Step(s, evs[0]), evs[1..], Captured(s, evs[0], last))
  }

  /** Environments in use that are not running hold the context of their last trap. */
  ghost predicate ContextsOk(s: KState, last: Frames)
  {
    && (s.cur.Some? ==> s.cur.value !in s.envFree)
    && (forall e {:trigger e in s.envFree} :: e in s.envFree ==> s.envs[e].status == EnvStatus.Free)
    && (forall i, j :: 0 <= i < j < |s.envFree| ==> s.envFree[i] != s.envFree[j])
    && (forall e: EnvIx {:trigger s.envs[e].tf} :: e !in s.envFree && s.cur != Some(e) ==> SameContext(s.envs[e].tf, last[e]))
  }

  /** The current environment has just been handed its registers by env_run. */
  ghost predicate Resumed(s: KState, last: Frames)
  {
    ContextsOk(s, last) && (s.cur.Some? && !s.halted ==> SameContext(s.envs[s.cur.value].tf, last[s.cur.value]))
  }

  /** Traps that end in sched_yield. */
  predicate Switches(s: KState, ev: Event)
    requires CanStep(s)
  {
    match ev
    case Irq(_) => true
    case Syscall(_, Yield) => true
    case Syscall(_, IpcRecv(dstva)) => dstva < UTOP
    case Syscall(f, EnvDestroy(envid, _)) => Envid2Env(s.(kframe := f), envid, true) == s.cur
    case _ => false
  }

  /** Everything the contexts depend on is as before. */
  ghost predicate Quiet(s: KState, s': KState)
  {
    && s'.cur == s.cur && s'.envFree == s.envFree
    && (forall e: EnvIx {:trigger s'.envs[e]} :: s'.envs[e].tf == s.envs[e].tf)
    && (forall e: EnvIx {:trigger s'.envs[e]} :: e in s.envFree ==> s'.envs[e].status == EnvStatus.Free)
  }

  lemma QuietKeeps(s: KState, s': KState, last: Frames, f: Trapframe)
    requires ContextsOk(s, last) && Quiet(s, s') && s.cur.Some?
    ensures ContextsOk(s', last[s.cur.value := f])
  {
  }

  /** sched_yield from a state whose interrupt frame holds the current environment's registers. */
  lemma SchedResumes(s: KState, last: Frames)
    requires ContextsOk(s, last) && !s.halted
    requires s.cur.Some? ==> SameContext(s.tframe, last[s.cur.value]) && s.tframe.elr == s.tframe.pc
    ensures Resumed(SchedYield(s), last)
  {
    PickIsNearest(Statuses(s), s.pos);
    match Pick(Statuses(s), s.pos) {
      case None =>
      case Some(e) =>
        assert e !in s.envFree by { assert s.envs[e].status == EnvStatus.Runnable; }
        RunResumes(s.(pos := e), e, last);
    }
  }

  lemma RunResumes(s: KState, e: EnvIx, last: Frames)
    requires ContextsOk(s, last) && e !in s.envFree && !s.halted
    requires s.cur.Some? ==> SameContext(s.tframe, last[s.cur.value]) && s.tframe.elr == s.tframe.pc
    ensures Resumed(EnvRun(s, e), last)
  {
  }

  lemma RefreshFrame(s: KState, s1: KState, last: Frames, f: Trapframe)
    requires ContextsOk(s, last) && Quiet(s, s1) && s.cur.Some? && s1.tframe == f && !s1.halted && f.elr == f.pc
    ensures Resumed(SchedYield(s1), last[s.cur.value := f])
  {
    QuietKeeps(s, s1, last, f);
    SchedResumes(s1, last[s.cur.value := f]);
  }

  lemma InsertQuiet(s: KState)
    requires forall e {:trigger e in s.envFree} :: e in s.envFree ==> s.envs[e].status == EnvStatus.Free
    ensures forall r {:trigger AfterInsert(s, r)} :: Quiet(s, AfterInsert(s, r).0)
  {
  }

  /** System calls that return to their caller leave all saved contexts alone. */
  lemma ReturningCallQuiet(s: KState, call: Call, last: Frames)
    requires ContextsOk(s, last) && s.cur.Some?
    requires !call.Fork? && !call.Yield? && !call.EnvDestroy? && (call.IpcRecv? ==> call.dstva >= UTOP)
    ensures Quiet(s, Serve(s, call))
  {
    InsertQuiet(s);
    match call
    case MemAlloc(envid, va, perm) => if s.mem.free != [] { InsertQuiet(s.(mem := TakeFree(s.mem))); }
    case IpcCanSend(envid, value, srcva, perm) => SendQuiet(s, envid, value, srcva, perm, last);
    case _ =>
  }

  lemma SendQuiet(s: KState, envid: Word, value: Word, srcva: Word, perm: Word, last: Frames)
    requires ContextsOk(s, last) && s.cur.Some?
    ensures Quiet(s, SysIpcCanSend(s, envid, value, srcva, perm).0)
  {
    InsertQuiet(s);
    if Envid2Env(s, envid, false).Some? {
      assert Quiet(s, SendPage(s, Envid2Env(s, envid, false).value, srcva, perm).0);
    }
  }

  lemma ForkContexts(s: KState, last: Frames)
    requires ContextsOk(s, last) && s.cur.Some? && !s.halted
    ensures ContextsOk(SysFork(s).0, Captured(s, Syscall(s.kframe, Fork), last))
  {
    var l := Captured(s, Syscall(s.kframe, Fork), last);
    if s.envFree == [] || s.mem.free == [] {
      QuietKeeps(s, SysFork(s).0, last, s.kframe);
    } else {
      var e := s.envFree[0];
      assert e in s.envFree;
      var s', _ := ForkShape(s);
      FreeTail(s.envFree);
      forall d: EnvIx | d !in s'.envFree && s'.cur != Some(d) ensures SameContext(s'.envs[d].tf, l[d]) {
        if d != e { assert d !in s.envFree; assert SameContext(s.envs[d].tf, last[d]); }
      }
    }
  }

  lemma FreeTail(f: seq<EnvIx>)
    requires f != [] && forall i, j :: 0 <= i < j < |f| ==> f[i] != f[j]
    ensures f[0] !in f[1..]
    ensures forall i, j :: 0 <= i < j < |f[1..]| ==> f[1..][i] != f[1..][j]
    ensures forall e {:trigger e in f[1..]} {:trigger e in f} :: e in f <==> e == f[0] || e in f[1..]
  {
  }

  lemma DestroyContexts(s: KState, envid: Word, after: Mem, last: Frames)
    requires ContextsOk(s, last) && s.cur.Some? && !s.halted && s.kframe.elr == s.kframe.pc
    ensures var s' := SysEnvDestroy(s, envid, after).0;
            var l := last[s.cur.value := s.kframe];
            && ContextsOk(s', l) && (Envid2Env(s, envid, true) == s.cur ==> Resumed(s', l))
  {
    var l := last[s.cur.value := s.kframe];
    match Envid2Env(s, envid, true) {
      case None => QuietKeeps(s, s, last, s.kframe);
      case Some(e) =>
        assert e !in s.envFree;
        var s1 := PutEnv(s, e, s.envs[e].(pgdir := None, status := EnvStatus.Free)).(envFree := [e] + s.envFree, mem := after);
        var s2 := if e == s.cur.value then s1.(cur := None, tframe := s.kframe) else s1;
        FreeTail(s2.envFree);
        assert s2.envFree[1..] == s.envFree;
        forall d: EnvIx | d !in s2.envFree && s2.cur != Some(d) ensures SameContext(s2.envs[d].tf, l[d]) {
          assert d !in s.envFree && d != e;
          assert SameContext(s.envs[d].tf, last[d]);
        }
        if e == s.cur.value { SchedResumes(s2, l); }
    }
  }

  /** One trap: contexts of waiting environments stay, and a switch hands the next one its own. */
  lemma StepContexts(s: KState, ev: Event, last: Frames)
    requires ContextsOk(s, last) && CanStep(s) && FrameOfEvent(ev).elr == FrameOfEvent(ev).pc
    ensures ContextsOk(Step(s, ev), Captured(s, ev, last))
    ensures Switches(s, ev) ==> Resumed(Step(s, ev), Captured(s, ev, last))
  {
    match ev
    case Irq(f) => RefreshFrame(s, s.(tframe := f), last, f);
    case Syscall(f, call) =>
      var s1 := s.(kframe := f);
      assert ContextsOk(s1, last);
      if call.Fork? {
        ForkContexts(s1, last);
      } else if call.Yield? {
        RefreshFrame(s, s1.(tframe := f), last, f);
      } else if call.EnvDestroy? {
        DestroyContexts(s1, call.envid, call.after, last);
      } else if call.IpcRecv? && call.dstva < UTOP {
        var c := s1.cur.value;
        var env := s1.envs[c].(status := EnvStatus.NotRunnable, ipcRecving := true, ipcDstva := call.dstva);
        RefreshFrame(s1, PutEnv(s1, c, env).(tframe := f), last, f);
      } else {
        ReturningCallQuiet(s1, call, last);
        QuietKeeps(s1, Serve(s1, call), last, f);
      }
  }

  ghost predicate WellTrapped(evs: seq<Event>)
  {
    forall i :: 0 <= i < |evs| ==> FrameOfEvent(evs[i]).elr == FrameOfEvent(evs[i]).pc
  }

  /** ... over any run of any traps. */
  lemma {:induction false} RunContexts(s: KState, evs: seq<Event>, last: Frames)
    requires ContextsOk(s, last) && WellTrapped(evs)
    ensures ContextsOk(Run(s, evs), CapturedRun(s, evs, last))
    decreases |evs|
  {
    if evs == [] || !CanStep(s) {
    } else {
      StepContexts(s, evs[0], last);
      RunContexts(Step(s, evs[0]), evs[1..], Captured(s, evs[0], last));
    }
  }

  /**
   After any run, a switching trap resumes its choice with the registers that
   environment had, as user registers u, when it last trapped.
   */
  lemma ResumesOwnContext(s: KState, evs: seq<Event>, ev: Event, last: Frames, u: Trapframe, stack: Word, address: Word)
    requires ContextsOk(s, last) && WellTrapped(evs) && FrameOfEvent(ev).elr == FrameOfEvent(ev).pc
    requires CanStep(Run(s, evs)) && Switches(Run(s, evs), ev)
    requires CanStep(Step(Run(s, evs), ev))
    requires var t := Step(Run(s, evs), ev);
             Captured(Run(s, evs), ev, CapturedRun(s, evs, last))[t.cur.value] == SaveAll(u, stack)
    ensures var t := Step(Run(s, evs), ev);
            SameContext(PopTf(t.envs[t.cur.value].tf, address), u)
  {
    RunContexts(s, evs, last);
    var t := Run(s, evs);
    StepContexts(t, ev, CapturedRun(s, evs, last));
    var t' := Step(t, ev);
    SavedAndRestored(u, stack, t'.envs[t'.cur.value].tf, address);
  }
}
