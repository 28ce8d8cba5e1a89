/**
 lib/sched.c: round-robin search for a runnable environment, from a position
 that persists between calls.
 */
module Sched {
  import opened Memory

  const NENV: nat := 1024

  datatype EnvStatus = Free | Runnable | NotRunnable

  /** `pos = (pos + 1) % NENV`; pos starts at -1. */
  function Advance(pos: int): nat
    requires -1 <= pos < NENV
  {
    (pos + 1) % NENV
  }

  /** How many times pos is advanced before it reaches e: between 1 and NENV. */
  function Distance(pos: int, e: nat): (d: nat)
    requires -1 <= pos < NENV && e < NENV
    ensures 1 <= d <= NENV
  {
    (e - pos - 1) % NENV + 1
  }

  /** The environment the search settles on, if it does within n steps. */
  function Search(st: seq<EnvStatus>, pos: int, n: nat): Option<nat>
    requires |st| == NENV && -1 <= pos < NENV
    decreases n
  {
    if n == 0 then None
    else if st[Advance(pos)] == Runnable then Some(Advance(pos))
    else Search(st, Advance(pos), n - 1)
  }

  /** sched_yield's choice. Without a runnable environment the source spins forever. */
  function Pick(st: seq<EnvStatus>, pos: int): Option<nat>
    requires |st| == NENV && -1 <= pos < NENV
  {
    Search(st, pos, NENV)
  }

  ghost predicate IsPick(st: seq<EnvStatus>, pos: int, q: nat)
    requires |st| == NENV && -1 <= pos < NENV
  {
    && q < NENV && st[q] == Runnable
    && forall e {:trigger st[e]} :: 0 <= e < NENV && Distance(pos, e) < Distance(pos, q) ==> st[e] != Runnable
  }

  lemma DistanceStep(pos: int, e: nat)
    requires -1 <= pos < NENV && e < NENV
    ensures Distance(pos, e) == if e == Advance(pos) then 1 else Distance(Advance(pos), e) + 1
  {
  }

  lemma {:induction false} SearchFinds(st: seq<EnvStatus>, pos: int, n: nat)
    requires |st| == NENV && -1 <= pos < NENV
    ensures match Search(st, pos, n)
            case Some(q) => IsPick(st, pos, q) && Distance(pos, q) <= n
            case None => forall e {:trigger st[e]} :: 0 <= e < NENV && Distance(pos, e) <= n ==> st[e] != Runnable
    decreases n
  {
    if n == 0 {
    } else {
      var p := Advance(pos);
      SearchFinds(st, p, n - 1);
      forall e | 0 <= e < NENV ensures Distance(pos, e) == if e == p then 1 else Distance(p, e) + 1 {
        DistanceStep(pos, e);
      }
    }
  }

  /** The choice is the first runnable environment after pos in cyclic order; there is one exactly when any is runnable. */
  lemma PickIsNearest(st: seq<EnvStatus>, pos: int)
    requires |st| == NENV && -1 <= pos < NENV
    ensures Pick(st, pos).Some? <==> exists e :: 0 <= e < NENV && st[e] == Runnable
    ensures Pick(st, pos).Some? ==> IsPick(st, pos, Pick(st, pos).value)
  {
    SearchFinds(st, pos, NENV);
  }

  /** A runnable environment that is passed over comes strictly closer. */
  lemma NeverSkipped(st: seq<EnvStatus>, pos: int, e: nat)
    requires |st| == NENV && -1 <= pos < NENV && e < NENV && st[e] == Runnable
    ensures Pick(st, pos).Some?
    ensures var q := Pick(st, pos).value; q < NENV && (q == e || Distance(q, e) < Distance(pos, e))
  {
    PickIsNearest(st, pos);
    var q := Pick(st, pos).value;
    if q != e {
      assert Distance(pos, q) <= Distance(pos, e);
      ShiftDistance(pos, q, e);
    }
  }

  lemma ShiftDistance(pos: int, q: nat, e: nat)
    requires -1 <= pos < NENV && q < NENV && e < NENV && q != e && Distance(pos, q) <= Distance(pos, e)
    ensures Distance(q, e) < Distance(pos, e)
  {
  }

  /** The positions after a series of scheduling decisions, each taken on the statuses of its moment. */
  function Positions(pos: int, decisions: seq<seq<EnvStatus>>): (r: seq<nat>)
    requires -1 <= pos < NENV
    requires forall i :: 0 <= i < |decisions| ==> |decisions[i]| == NENV
    ensures forall i :: 0 <= i < |r| ==> r[i] < NENV
    decreases |decisions|
  {
    if decisions == [] then []
    else
      match Pick(decisions[0], pos)
      case None => []
      case Some(q) => PickIsNearest(decisions[0], pos); [q] + Positions(q, decisions[1..])
  }

  /**
   Bounded bypass: an environment that is runnable at each of NENV consecutive
   decisions is chosen by one of them, whatever the other statuses do.
   */
  lemma BoundedBypass(pos: int, decisions: seq<seq<EnvStatus>>, e: nat)
    requires -1 <= pos < NENV && e < NENV && |decisions| == NENV
    requires forall i :: 0 <= i < |decisions| ==> |decisions[i]| == NENV && decisions[i][e] == Runnable
    ensures e in Positions(pos, decisions)
  {
    ChosenWithin(pos, decisions, e);
  }

  /** More precisely: within as many decisions as its cyclic distance. */
  lemma {:induction false} ChosenWithin(pos: int, decisions: seq<seq<EnvStatus>>, e: nat)
    requires -1 <= pos < NENV && e < NENV && |decisions| >= Distance(pos, e)
    requires forall i :: 0 <= i < |decisions| ==> |decisions[i]| == NENV && decisions[i][e] == Runnable
    ensures exists i :: 0 <= i < Distance(pos, e) && i < |Positions(pos, decisions)| && Positions(pos, decisions)[i] == e
    decreases |decisions|
  {
    NeverSkipped(decisions[0], pos, e);
    var q := Pick(decisions[0], pos).value;
    var rest := Positions(q, decisions[1..]);
    assert Positions(pos, decisions) == [q] + rest;
    if q == e {
      assert Positions(pos, decisions)[0] == e;
    } else {
      ChosenWithin(q, decisions[1..], e);
      var i :| 0 <= i < Distance(q, e) && i < |rest| && rest[i] == e;
      assert Positions(pos, decisions)[i + 1] == e;
    }
  }

  class Scheduler {
    var pos: int

    constructor ()
      ensures pos == -1
    {
      pos := -1;
    }

    /** The search loop: it ends within NENV iterations once some environment is runnable. */
    method Choose(st: seq<EnvStatus>) returns (e: nat, iterations: nat)
      requires |st| == NENV && -1 <= pos < NENV
      requires exists e :: 0 <= e < NENV && st[e] == Runnable
      modifies this
      ensures Pick(st, old(pos)) == Some(e) && pos == e < NENV
      ensures iterations == Distance(old(pos), e)
    {
      PickIsNearest(st, pos);
      ghost var target := Pick(st, pos).value;
      iterations := 0;
      while true
        invariant -1 <= pos < NENV && iterations < NENV
        invariant Search(st, pos, NENV - iterations) == Some(target)
        invariant Distance(old(pos), target) == iterations + Distance(pos, target)
        decreases NENV - iterations
      {
        DistanceStep(pos, target);
        pos := Advance(pos);
        iterations := iterations + 1;
        if st[pos] == Runnable {
          return pos, iterations;
        }
      }
    }
  }
}
