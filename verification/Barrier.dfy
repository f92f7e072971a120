/**
 The sense-reversing barrier as a state machine: any number of threads, each of which may enter the
 same barrier any number of times, taking one access to the shared fields per step.
 */
module Barrier {
  // Where a thread stands: outside; having read the global sense; waiting in the spin loop; being the
  // last to arrive, before it clears the count; and before it flips the global sense.
  datatype Point = Outside | HasSense | Spinning | Clearing | Releasing

  // `round` counts how often the thread has left the barrier.
  datatype Thread = Thread(at: Point, lsense: bool, round: nat) {
    // How often the thread has been counted in.
    function Arrivals(): nat {
      if at == Outside || at == HasSense then round else round + 1
    }
  }

  datatype State = State(count: int, gsense: bool, threads: seq<Thread>)

  function Initial(n: nat): (s: State)
    ensures |s.threads| == n
  {
    State(0, false, seq(n, _ => Thread(Outside, false, 0)))
  }

  // The next access of a thread.
  function Step(s: State, t: nat): (s': State)
    requires t < |s.threads|
    ensures |s'.threads| == |s.threads|
  {
    var me := s.threads[t];
    match me.at
    case Outside => s.(threads := s.threads[t := me.(at := HasSense, lsense := !s.gsense)])
    case HasSense =>
      var last := s.count == |s.threads| - 1;
      s.(count := s.count + 1, threads := s.threads[t := me.(at := if last then Clearing else Spinning)])
    case Spinning =>
      if s.gsense == me.lsense then s.(threads := s.threads[t := me.(at := Outside, round := me.round + 1)]) else s
    case Clearing => s.(count := 0, threads := s.threads[t := me.(at := Releasing)])
    case Releasing => s.(gsense := me.lsense, threads := s.threads[t := me.(at := Outside, round := me.round + 1)])
  }

  // ---------- what always holds ----------

  // How many threads have arrived more than r times.
  function Arrived(ts: seq<Thread>, r: nat): (n: nat)
    ensures n <= |ts|
  {
    if ts == [] then 0 else (if ts[0].Arrivals() > r then 1 else 0) + Arrived(ts[1..], r)
  }

  // The thread is in round r, or has still to notice that round r - 1 is over.
  ghost predicate InRound(t: Thread, r: nat) {
    if t.round == r then t.at == Outside || t.lsense == (r % 2 == 0)
    else t.round + 1 == r && t.at == Spinning && t.lsense == (r % 2 == 1)
  }

  // The barrier has been released r times.
  ghost predicate Sound(s: State, r: nat) {
    && s.gsense == (r % 2 == 1)
    && (forall t :: 0 <= t < |s.threads| ==> InRound(s.threads[t], r))
    && (forall t, u :: 0 <= t < u < |s.threads| ==> !(Last(s.threads[t]) && Last(s.threads[u])))
    && (if AnyReleasing(s.threads) then s.count == 0 && Arrived(s.threads, r) == |s.threads|
        else s.count == Arrived(s.threads, r))
    && (AnyLast(s.threads) <==> Arrived(s.threads, r) == |s.threads| > 0)
  }

  ghost predicate AnyReleasing(ts: seq<Thread>) {
    exists t :: 0 <= t < |ts| && ts[t].at == Releasing
  }

  ghost predicate AnyLast(ts: seq<Thread>) {
    exists t :: 0 <= t < |ts| && Last(ts[t])
  }

  lemma SameAny(ts: seq<Thread>, t: nat, x: Thread)
    requires t < |ts| && !Last(ts[t]) && !Last(x)
    ensures AnyLast(ts[t := x]) <==> AnyLast(ts)
    ensures AnyReleasing(ts[t := x]) <==> AnyReleasing(ts)
  {
    if u :| 0 <= u < |ts| && Last(ts[u]) {
      assert Last(ts[t := x][u]);
    }
    if u :| 0 <= u < |ts| && ts[u].at == Releasing {
      assert ts[t := x][u].at == Releasing;
    }
  }

  predicate Last(t: Thread) {
    t.at == Clearing || t.at == Releasing
  }

  lemma {:induction false} ArrivedAfter(ts: seq<Thread>, r: nat, t: nat, x: Thread)
    requires t < |ts|
    ensures Arrived(ts[t := x], r) == Arrived(ts, r) - (if ts[t].Arrivals() > r then 1 else 0) + if x.Arrivals() > r then 1 else 0
  {
    if t > 0 {
      assert ts[t := x][1..] == ts[1..][t - 1 := x];
      ArrivedAfter(ts[1..], r, t - 1, x);
    }
  }

  lemma {:induction false} AllArrived(ts: seq<Thread>, r: nat, t: nat)
    requires t < |ts|
    ensures Arrived(ts, r) == |ts| ==> ts[t].Arrivals() > r
  {
    if t > 0 {
      AllArrived(ts[1..], r, t - 1);
    }
  }

  lemma {:induction false} NoneArrived(ts: seq<Thread>, r: nat)
    requires forall t :: 0 <= t < |ts| ==> ts[t].Arrivals() <= r
    ensures Arrived(ts, r) == 0
  {
    if ts != [] {
      NoneArrived(ts[1..], r);
    }
  }

  lemma InitialIsSound(n: nat)
    ensures Sound(Initial(n), 0)
  {
    NoneArrived(Initial(n).threads, 0);
  }

  // The number of releases after a step.
  function Rounds(s: State, t: nat, r: nat): nat
    requires t < |s.threads|
  {
    if s.threads[t].at == Releasing then r + 1 else r
  }

  lemma StepKeepsSound(s: State, t: nat, r: nat)
    requires Sound(s, r) && t < |s.threads|
    ensures Sound(Step(s, t), Rounds(s, t, r))
  {
    match s.threads[t].at
    case Outside => EnterKeepsSound(s, t, r);
    case HasSense => ArrivalKeepsSound(s, t, r);
    case Spinning => LeaveKeepsSound(s, t, r);
    case Clearing => ClearKeepsSound(s, t, r);
    case Releasing => ReleaseKeepsSound(s, t, r);
  }

  lemma EnterKeepsSound(s: State, t: nat, r: nat)
    requires Sound(s, r) && t < |s.threads| && s.threads[t].at == Outside
    ensures Sound(Step(s, t), r)
  {
    SameCrowd(s, t, r);
  }

  lemma LeaveKeepsSound(s: State, t: nat, r: nat)
    requires Sound(s, r) && t < |s.threads| && s.threads[t].at == Spinning
    ensures Sound(Step(s, t), r)
  {
    if s.gsense == s.threads[t].lsense {
      SameCrowd(s, t, r);
    }
  }

  // Entering or leaving changes neither who has arrived nor who is last.
  lemma SameCrowd(s: State, t: nat, r: nat)
    requires Sound(s, r) && t < |s.threads|
    requires s.threads[t].at == Outside || (s.threads[t].at == Spinning && s.gsense == s.threads[t].lsense)
    ensures var s' := Step(s, t);
      && Arrived(s'.threads, r) == Arrived(s.threads, r) && InRound(s'.threads[t], r)
      && s'.threads == s.threads[t := s'.threads[t]]
      && !Last(s'.threads[t]) && s'.count == s.count && s'.gsense == s.gsense
      && (AnyLast(s'.threads) <==> AnyLast(s.threads)) && (AnyReleasing(s'.threads) <==> AnyReleasing(s.threads))
  {
    assert InRound(s.threads[t], r);
    ArrivedAfter(s.threads, r, t, Step(s, t).threads[t]);
    SameAny(s.threads, t, Step(s, t).threads[t]);
  }

  lemma ArrivalKeepsSound(s: State, t: nat, r: nat)
    requires Sound(s, r) && t < |s.threads| && s.threads[t].at == HasSense
    ensures Sound(Step(s, t), r)
  {
    var s' := Step(s, t);
    ArrivedAfter(s.threads, r, t, s'.threads[t]);
    AllArrived(s.threads, r, t);
    assert InRound(s.threads[t], r);
    assert forall u :: 0 <= u < |s.threads| ==> !Last(s.threads[u]);
    assert forall u :: 0 <= u < |s.threads| && u != t ==> s'.threads[u] == s.threads[u];
    assert s.count == Arrived(s.threads, r) && s'.count == Arrived(s'.threads, r);
  }

  lemma ClearKeepsSound(s: State, t: nat, r: nat)
    requires Sound(s, r) && t < |s.threads| && s.threads[t].at == Clearing
    ensures Sound(Step(s, t), r)
  {
    var s' := Step(s, t);
    ArrivedAfter(s.threads, r, t, s'.threads[t]);
    assert InRound(s.threads[t], r) && Last(s.threads[t]);
    assert s'.threads[t].at == Releasing && Last(s'.threads[t]);
  }

  lemma ReleaseKeepsSound(s: State, t: nat, r: nat)
    requires Sound(s, r) && t < |s.threads| && s.threads[t].at == Releasing
    ensures Sound(Step(s, t), r + 1)
  {
    var s' := Step(s, t);
    forall u | 0 <= u < |s.threads|
      ensures InRound(s'.threads[u], r + 1) && !Last(s'.threads[u]) && s'.threads[u].Arrivals() <= r + 1
    {
      AllArrived(s.threads, r, u);
      assert InRound(s.threads[u], r);
    }
    NoneArrived(s'.threads, r + 1);
  }

  // ---------- what the barrier is for ----------

  // Thread t has not left the barrier more often than u has arrived at it.
  ghost predicate Together(s: State, t: nat, u: nat)
    requires t < |s.threads| && u < |s.threads|
  {
    s.threads[t].round <= s.threads[u].Arrivals()
  }

  lemma SoundIsTogether(s: State, r: nat, t: nat, u: nat)
    requires Sound(s, r) && t < |s.threads| && u < |s.threads|
    ensures Together(s, t, u)
  {
    assert InRound(s.threads[t], r) && InRound(s.threads[u], r);
  }

  /** The number that an arriving thread finds in the counter is that of the threads that have arrived
      in its round before it; in particular the first of a round finds 0. */
  lemma CountIsArrivals(s: State, r: nat, t: nat)
    requires Sound(s, r) && t < |s.threads| && s.threads[t].at == HasSense
    ensures s.threads[t].round == r && s.count == Arrived(s.threads, s.threads[t].round) < |s.threads|
    ensures (forall u :: 0 <= u < |s.threads| ==> s.threads[u].Arrivals() <= s.threads[t].round) ==> s.count == 0
  {
    assert InRound(s.threads[t], r);
    AllArrived(s.threads, r, t);
    if forall u :: 0 <= u < |s.threads| ==> s.threads[u].Arrivals() <= r {
      NoneArrived(s.threads, r);
    }
  }

  // The next step of the thread changes something.
  predicate CanMove(s: State, t: nat)
    requires t < |s.threads|
  {
    s.threads[t].at != Spinning || s.threads[t].lsense == s.gsense
  }

  ghost predicate SomeoneMoves(s: State) {
    exists t :: 0 <= t < |s.threads| && CanMove(s, t)
  }

  lemma {:induction false} CountsAll(ts: seq<Thread>, r: nat)
    requires forall t :: 0 <= t < |ts| ==> ts[t].Arrivals() > r
    ensures Arrived(ts, r) == |ts|
  {
    if ts != [] {
      CountsAll(ts[1..], r);
    }
  }

  /** The threads never wait for each other forever: some thread can always move. */
  lemma NoDeadlock(s: State, r: nat)
    requires Sound(s, r) && s.threads != []
    ensures SomeoneMoves(s)
  {
    if forall t :: 0 <= t < |s.threads| ==> !CanMove(s, t) {
      forall t | 0 <= t < |s.threads|
        ensures s.threads[t].Arrivals() > r && !Last(s.threads[t])
      {
        assert !CanMove(s, t) && InRound(s.threads[t], r);
      }
      CountsAll(s.threads, r);
      assert false;
    }
  }

  // Threads 0 .. n - 1 take the steps of a schedule.
  function Run(n: nat, schedule: seq<nat>): (s: State)
    requires forall i :: 0 <= i < |schedule| ==> schedule[i] < n
    ensures |s.threads| == n
  {
    if schedule == [] then Initial(n)
    else Step(Run(n, schedule[..|schedule| - 1]), schedule[|schedule| - 1])
  }

  lemma {:induction false} EveryRunIsSound(n: nat, schedule: seq<nat>) returns (r: nat)
    requires forall i :: 0 <= i < |schedule| ==> schedule[i] < n
    ensures Sound(Run(n, schedule), r)
  {
    if schedule == [] {
      InitialIsSound(n);
      r := 0;
    } else {
      var k := |schedule| - 1;
      r := EveryRunIsSound(n, schedule[..k]);
      var s := Run(n, schedule[..k]);
      StepKeepsSound(s, schedule[k], r);
      r := Rounds(s, schedule[k], r);
    }
  }

  /** However the threads are scheduled and however often they meet: none leaves a round before all
      have arrived in it, the counter has been cleared before the first arrival of a round, and the
      threads never all wait. */
  lemma {:induction false} EveryRunIsSafe(n: nat, schedule: seq<nat>)
    requires n > 0 && forall i :: 0 <= i < |schedule| ==> schedule[i] < n
    ensures var s := Run(n, schedule);
      && (forall t, u :: 0 <= t < n && 0 <= u < n ==> Together(s, t, u))
      && (forall t :: 0 <= t < n && s.threads[t].at == HasSense ==> s.count == Arrived(s.threads, s.threads[t].round))
      && SomeoneMoves(s)
  {
    var s := Run(n, schedule);
    var r := EveryRunIsSound(n, schedule);
    forall t, u | 0 <= t < n && 0 <= u < n
      ensures Together(s, t, u)
    {
      SoundIsTogether(s, r, t, u);
    }
    forall t | 0 <= t < n && s.threads[t].at == HasSense
      ensures s.count == Arrived(s.threads, s.threads[t].round)
    {
      CountIsArrivals(s, r, t);
    }
    NoDeadlock(s, r);
  }
}
