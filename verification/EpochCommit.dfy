/**
 The global list of epochs and its token as the program changes them, with the chain of calls by
 which one event lets several epochs become GlobalSafe and commit.
 */
module EpochCommit {
  import opened EpochOrder
  import opened EpochSaving
  import opened EpochRest
  import opened EpochRuns

  class EpochList {
    var allEpochs: seq<Epoch>
    var globalSafe: nat
    var globalSafeAvailable: bool
    // The threads that wait.
    var waiting: set<nat>
    // How many instructions an epoch has at most, or 0.
    const maxInstrCount: nat

    ghost function State(): List
      reads this
    {
      List(allEpochs, globalSafe, globalSafeAvailable, waiting)
    }

    ghost predicate Valid()
      reads this
    {
      Sane(State())
    }

    constructor (maxInstrCount: nat)
      ensures Valid() && State() == Empty() && this.maxInstrCount == maxInstrCount
    {
      this.maxInstrCount := maxInstrCount;
      allEpochs, globalSafe, globalSafeAvailable, waiting := [], 0, true, {};
      assert Good(Empty(), Order([], [], []));
    }

    // Where an epoch with clock c belongs; `hint` is where the search starts.
    method FindPos(c: int, hint: nat) returns (p: nat)
      requires ByClock(allEpochs) && hint <= |allEpochs|
      ensures p <= |allEpochs|
      ensures forall i :: 0 <= i < p ==> allEpochs[i].clock >= c && (hint == 0 ==> allEpochs[i].clock > c)
      ensures forall i :: p <= i < |allEpochs| ==> allEpochs[i].clock <= c
    {
      p := hint;
      if p < |allEpochs| && c <= allEpochs[p].clock {
        while p < |allEpochs| && c < allEpochs[p].clock
          invariant hint <= p <= |allEpochs|
          invariant p > hint ==> allEpochs[p - 1].clock > c
        {
          p := p + 1;
        }
      } else {
        while p > 0 && c > allEpochs[p - 1].clock
          invariant p <= hint
          invariant p < |allEpochs| ==> allEpochs[p].clock <= c
        {
          p := p - 1;
        }
      }
    }

    // How far forward the epoch at i goes when its clock becomes c.
    method FindForward(i: nat, c: int) returns (p: nat)
      requires i < |allEpochs|
      ensures p <= i && (forall j :: p <= j < i ==> allEpochs[j].clock < c) && (p > 0 ==> allEpochs[p - 1].clock >= c)
    {
      p := i;
      while p > 0 && c > allEpochs[p - 1].clock
        invariant p <= i
        invariant forall j :: p <= j < i ==> allEpochs[j].clock < c
      {
        p := p - 1;
      }
    }

    // The epoch at i gets the clock c and goes to where it belongs; p is its new place.
    method Splice(i: nat, c: int) returns (p: nat)
      requires i < |allEpochs|
      modifies this`allEpochs
      ensures allEpochs == Advanced(old(allEpochs), i, c)
      ensures p <= i && (p == i <==> i == 0 || old(allEpochs)[i - 1].clock >= c)
    {
      p := FindForward(i, c);
      AdvancedIsShifted(allEpochs, p, i, c);
      allEpochs := allEpochs[..p] + ([allEpochs[i].(clock := c)] + (allEpochs[p..i] + allEpochs[i + 1..]));
    }

    // The next epoch of the thread, going forward from k.
    method NextInThread(k: nat, thread: nat) returns (m: int)
      requires k <= |allEpochs|
      ensures m == NextOf(allEpochs, k, thread)
    {
      m := k - 1;
      while m >= 0 && allEpochs[m].thread != thread
        invariant -1 <= m < k
        invariant NextOf(allEpochs, k, thread) == NextOf(allEpochs, m + 1, thread)
      {
        m := m - 1;
      }
    }

    // The nearest epoch going forward from i that is active.
    method NextActive(i: nat) returns (k: nat)
      requires i < |allEpochs| && Nearest(allEpochs, i + 1, waiting) >= 0
      ensures k == Nearest(allEpochs, i + 1, waiting)
    {
      k := i;
      while allEpochs[k].thread in waiting || allEpochs[k].completed
        invariant k <= i && Nearest(allEpochs, i + 1, waiting) == Nearest(allEpochs, k + 1, waiting)
        decreases k
      {
        k := k - 1;
      }
    }

    // A waiting epoch that is next in line goes in front of the nearest active one.
    method Defer(i: nat)
      requires Valid() && globalSafeAvailable && i + 1 == globalSafe && allEpochs[i].thread in waiting && Open(State())
      modifies this`allEpochs
      ensures Nearest(old(allEpochs), globalSafe, waiting) >= 0 && State() == Deferred(old(State()))
      ensures Valid() && Open(State()) && AheadOf(State()) < old(AheadOf(State()))
    {
      DeferKeeps(State());
      PassActive(i);
    }

    method PassActive(i: nat)
      requires InRange(State()) && globalSafeAvailable && i + 1 == globalSafe && Nearest(allEpochs, globalSafe, waiting) >= 0
      modifies this`allEpochs
      ensures State() == Deferred(old(State()))
    {
      var k := NextActive(i);
      var p := Splice(i, allEpochs[k].clock + 1);
    }

    // Tries to make the epoch at i GlobalSafe; k is how many turns of the rule this takes.
    method TryGlobalSave(i: nat) returns (ghost k: nat)
      requires Valid() && i < |allEpochs| && (NextInLine(State(), i) ==> CanRest(State()))
      modifies this`allEpochs, this`globalSafe, this`globalSafeAvailable
      ensures Valid() && State() == Saved(old(State()), k) && (k > 0 ==> Settled(State()))
      ensures NextInLine(old(State()), i) ==> Settled(State())
      decreases Live(State()), AheadOf(State()), 2
    {
      k := 0;
      var e := allEpochs[i];
      if !globalSafeAvailable || e.phase != ThreadSafe || e.pend == 0 || i + 1 != globalSafe {
        return;
      }
      if e.thread in waiting {
        WaitingFinds(State());
        k := GiveWay(i);
      } else if e.nest == 0 && e.exec > 0 {
        ghost var was := State();
        TakeRests(was);
        k := GlobalSave();
        TakeFirst(was, k);
        k := k + 1;
      }
    }

    // The epoch waits and lets others go first; the one that is next in line then is tried.
    method GiveWay(i: nat) returns (ghost k: nat)
      requires Valid() && globalSafeAvailable && i + 1 == globalSafe && Open(State())
      requires Ready(allEpochs[i], waiting) && allEpochs[i].thread in waiting
      modifies this`allEpochs, this`globalSafe, this`globalSafeAvailable
      ensures Valid() && State() == Saved(old(State()), k) && Settled(State())
      decreases Live(State()), AheadOf(State()), 1
    {
      ghost var was := State();
      Defer(i);
      k := TryGlobalSave(i);
      DeferFirst(was, k);
      k := k + 1;
    }

    // The epoch next in line takes the token, and commits if it can.
    method GlobalSave() returns (ghost k: nat)
      requires Valid() && globalSafeAvailable && globalSafe > 0 && allEpochs[globalSafe - 1].phase == ThreadSafe
      requires CanRest(Taken(State()))
      modifies this`allEpochs, this`globalSafe, this`globalSafeAvailable
      ensures Valid() && State() == Saved(Taken(old(State())), k) && Settled(State())
      decreases Live(State()), 0, 1
    {
      ghost var goal := Taken(State());
      TakeKeeps(State());
      allEpochs := allEpochs[globalSafe - 1 := allEpochs[globalSafe - 1].(phase := GlobalSafe)];
      globalSafe := globalSafe - 1;
      globalSafeAvailable := false;
      assert State() == goal;
      k := TryCommit();
    }

    // The holder of the token commits if it has finished.
    method TryCommit() returns (ghost k: nat)
      requires Valid() && !globalSafeAvailable && CanRest(State())
      modifies this`allEpochs, this`globalSafe, this`globalSafeAvailable
      ensures Valid() && State() == Saved(old(State()), k) && Settled(State())
      decreases Live(State()), 0, 0
    {
      k := 0;
      if allEpochs[globalSafe].completed && allEpochs[globalSafe].done == allEpochs[globalSafe].pend {
        ghost var was := State();
        k := Commit();
        FreeFirst(was, k);
        k := k + 1;
      }
    }

    // The holder commits and frees the token; the next epoch of its thread becomes ThreadSafe.
    method Commit() returns (ghost k: nat)
      requires Valid() && !globalSafeAvailable && Finished(allEpochs[globalSafe]) && CanRest(State())
      modifies this`allEpochs, this`globalSafe, this`globalSafeAvailable
      ensures Valid() && State() == Saved(Freed(old(State())), k) && Settled(State())
      decreases Live(State()), 0, -1
    {
      FreeRests(State());
      FreeToken();
      k := AdvanceGlobalSafe();
    }

    method FreeToken()
      requires Valid() && !globalSafeAvailable && Finished(allEpochs[globalSafe])
      modifies this`allEpochs, this`globalSafeAvailable
      ensures Valid() && State() == Freed(old(State()))
    {
      FreeKeeps(State());
      var k := NextInThread(globalSafe, allEpochs[globalSafe].thread);
      allEpochs := allEpochs[globalSafe := allEpochs[globalSafe].(phase := Committed)];
      if k >= 0 {
        allEpochs := allEpochs[k := allEpochs[k].(phase := ThreadSafe)];
      }
      globalSafeAvailable := true;
    }

    // The token has become available.
    method AdvanceGlobalSafe() returns (ghost k: nat)
      requires Valid() && globalSafeAvailable && CanRest(State())
      modifies this`allEpochs, this`globalSafe, this`globalSafeAvailable
      ensures Valid() && State() == Saved(old(State()), k) && Settled(State())
      decreases Live(State()), AheadOf(State()), 3
    {
      k := 0;
      if globalSafe > 0 {
        k := TryGlobalSave(globalSafe - 1);
      }
    }

    // ---------- the events ----------

    // An uncommitted epoch gets new counters and flags.
    method Update(i: nat, e: Epoch)
      requires Valid() && i < Live(State()) && SameStanding(allEpochs[i], e) && Counted(e)
      modifies this`allEpochs
      ensures Valid() && State() == With(old(State()), i, e)
    {
      WithKeeps(State(), i, e);
      allEpochs := allEpochs[i := e];
    }

    // An instruction of the epoch at i is fetched.
    method PendInstr(i: nat)
      requires Valid() && Running(State(), i)
      modifies this`allEpochs
      ensures var e := old(allEpochs)[i];
        Valid() && Goes(old(State()), With(old(State()), i, e.(pend := e.pend + 1)), false, 0, State())
    {
      var e := allEpochs[i].(pend := allEpochs[i].pend + 1);
      if Settled(State()) {
        WithStaysSettled(State(), i, e);
      }
      Update(i, e);
    }

    // An instruction of the epoch at i executes. After its last one the thread goes on in a new epoch;
    // before the first one an epoch cannot get the token.
    method ExecInstr(i: nat, id: Id) returns (ghost k: nat)
      requires Valid() && MayExec(State(), i, id, maxInstrCount)
      requires ExecTries(State(), i, maxInstrCount) ==> CanRest(Executed(State(), i, id, maxInstrCount))
      modifies this`allEpochs, this`globalSafe, this`globalSafeAvailable
      ensures Valid()
      ensures Goes(old(State()), Executed(old(State()), i, id, maxInstrCount), ExecTries(old(State()), i, maxInstrCount), k, State())
    {
      ghost var was := State();
      var e := allEpochs[i].(exec := allEpochs[i].exec + 1);
      if Settled(was) && (!NextInLine(was, i) || allEpochs[i].exec > 0) {
        WithStaysSettled(was, i, e);
      }
      Update(i, e);
      if 0 < maxInstrCount <= e.exec && CanBeTruncated(i) {
        ghost var mid := State();
        k := ChangeAndTry(i, id, e.exec == 1);
        assert Executed(was, i, id, maxInstrCount) == Changed(mid, i, id);
        GoesFrom(was, mid, Changed(mid, i, id), AtToken(was, i), k, State());
      } else {
        assert Executed(was, i, id, maxInstrCount) == State();
        k := TryIf(i, e.exec == 1);
      }
    }

    method TryIf(i: nat, first: bool) returns (ghost k: nat)
      requires Valid() && i < |allEpochs| && (first && NextInLine(State(), i) ==> CanRest(State()))
      modifies this`allEpochs, this`globalSafe, this`globalSafeAvailable
      ensures Valid() && Goes(old(State()), old(State()), first && NextInLine(old(State()), i), k, State())
    {
      ghost var was := State();
      k := 0;
      if first {
        k := TryGlobalSave(i);
        if Settled(was) {
          SettledStays(was, k);
        }
      }
    }

    // The thread of the epoch at i goes on in a new one; then the old one is tried once more, if asked for.
    method ChangeAndTry(i: nat, id: Id, again: bool) returns (ghost k: nat)
      requires Valid() && MayChange(State(), i, id)
      modifies this`allEpochs, this`globalSafe, this`globalSafeAvailable
      ensures Valid() && Goes(old(State()), Changed(old(State()), i, id), AtToken(old(State()), i), k, State())
    {
      ghost var was := State();
      var e := allEpochs[i];
      k := ChangeEpoch(i, id);
      if again {
        ghost var mid := State();
        ghost var j := TryAgain(e.id);
        GoesFurther(was, Changed(was, i, id), AtToken(was, i), k, mid, j, State());
        k := k + j;
      }
    }

    // The epoch is running, with an instruction fetched, and not in an atomic section.
    predicate CanBeTruncated(i: nat)
      reads this
      requires i < |allEpochs|
    {
      allEpochs[i].thread !in waiting && !allEpochs[i].completed && allEpochs[i].nest == 0 && allEpochs[i].pend > 0
    }

    method FindEpoch(id: Id) returns (i: nat)
      requires exists j :: 0 <= j < |allEpochs| && allEpochs[j].id == id
      ensures i < |allEpochs| && allEpochs[i].id == id
    {
      i := 0;
      while allEpochs[i].id != id
        invariant i < |allEpochs| && exists j :: i <= j < |allEpochs| && allEpochs[j].id == id
        decreases |allEpochs| - i
      {
        i := i + 1;
      }
    }

    // The epoch, wherever it stands by now, is tried once more.
    method TryAgain(id: Id) returns (ghost k: nat)
      requires Valid() && CanRest(State()) && exists m :: 0 <= m < |allEpochs| && allEpochs[m].id == id
      modifies this`allEpochs, this`globalSafe, this`globalSafeAvailable
      ensures Valid() && Goes(old(State()), old(State()), false, k, State())
    {
      ghost var was := State();
      var i := FindEpoch(id);
      k := TryGlobalSave(i);
      if Settled(was) {
        SettledStays(was, k);
      }
    }

    // An instruction of the epoch at i retires.
    method DoneInstr(i: nat) returns (ghost k: nat)
      requires Valid() && MayDone(State(), i)
      requires DoneTries(State(), i) ==> CanRest(With(State(), i, allEpochs[i].(done := allEpochs[i].done + 1)))
      modifies this`allEpochs, this`globalSafe, this`globalSafeAvailable
      ensures var e := old(allEpochs)[i];
        Valid() && Goes(old(State()), With(old(State()), i, e.(done := e.done + 1)), DoneTries(old(State()), i), k, State())
    {
      ghost var was := State();
      var e := allEpochs[i].(done := allEpochs[i].done + 1);
      if Settled(was) && !(Holds(was, i) && e.completed) {
        WithStaysSettled(was, i, e);
      }
      Update(i, e);
      k := 0;
      if e.completed && i == globalSafe && !globalSafeAvailable {
        k := TryCommit();
      }
    }

    // The epoch at i has made its last access.
    method Complete(i: nat) returns (ghost k: nat)
      requires Valid() && MayComplete(State(), i)
      requires AtToken(State(), i) ==> CanRest(With(State(), i, allEpochs[i].(completed := true)))
      modifies this`allEpochs, this`globalSafe, this`globalSafeAvailable
      ensures var e := old(allEpochs)[i];
        Valid() && Goes(old(State()), With(old(State()), i, e.(completed := true)), AtToken(old(State()), i), k, State())
    {
      ghost var was := State();
      var e := allEpochs[i].(completed := true);
      if Settled(was) && !AtToken(was, i) {
        WithStaysSettled(was, i, e);
      }
      Update(i, e);
      if i == globalSafe && !globalSafeAvailable {
        k := TryCommit();
      } else {
        k := TryGlobalSave(i);
      }
    }

    // A new epoch comes into the list.
    method Insert(e: Epoch)
      requires ByClock(allEpochs)
      modifies this`allEpochs, this`globalSafe
      ensures State() == Inserted(old(State()), e)
    {
      var p := FindPos(e.clock, 0);
      RankIs(allEpochs, e.clock, p);
      PlacedAtRank(allEpochs, e);
      allEpochs := allEpochs[..p] + ([e] + allEpochs[p..]);
      globalSafe := globalSafe + 1;
    }

    // The thread of the epoch at i goes on in a new one.
    method SpawnSuccessor(i: nat, id: Id)
      requires Valid() && Running(State(), i) && Fresh(State(), id)
      modifies this`allEpochs, this`globalSafe
      ensures Valid() && State() == Inserted(old(State()), Successor(old(allEpochs)[i], id))
      ensures Settled(old(State())) ==> Settled(State())
    {
      ghost var was := State();
      SaneByClock(was);
      Insert(Epoch(id, allEpochs[i].thread, allEpochs[i].clock + 1, Spec, false, 0, 0, 0, 0));
      SpawnKeeps(was, i, id);
    }

    method ChangeEpoch(i: nat, id: Id) returns (ghost k: nat)
      requires Valid() && MayChange(State(), i, id)
      modifies this`allEpochs, this`globalSafe, this`globalSafeAvailable
      ensures Valid() && Goes(old(State()), Changed(old(State()), i, id), AtToken(old(State()), i), k, State())
      ensures CanRest(State()) && exists m :: 0 <= m < |allEpochs| && allEpochs[m].id == old(allEpochs)[i].id
    {
      ghost var was := State();
      ChangeCanRest(was, i, id);
      SpawnShifts(was, i, id);
      SpawnSuccessor(i, id);
      ghost var mid := State();
      k := Complete(i + 1);
      GoesFrom(was, mid, Changed(was, i, id), AtToken(was, i), k, State());
      AfterChange(was, i, id, k, State());
    }

    method BeginAtomic(i: nat)
      requires Valid() && Running(State(), i)
      modifies this`allEpochs
      ensures var e := old(allEpochs)[i];
        Valid() && Goes(old(State()), With(old(State()), i, e.(nest := e.nest + 1)), false, 0, State())
    {
      var e := allEpochs[i].(nest := allEpochs[i].nest + 1);
      if Settled(State()) {
        WithStaysSettled(State(), i, e);
      }
      Update(i, e);
    }

    // The epoch at i leaves an atomic section, inside which it could not get the token; after the
    // outermost one it ends.
    method EndAtomic(i: nat, id: Id) returns (ghost k: nat)
      requires Valid() && MayEndAtomic(State(), i, id)
      modifies this`allEpochs, this`globalSafe, this`globalSafeAvailable
      ensures Valid() && Goes(old(State()), LeftAtomic(old(State()), i, id), EndTries(old(State()), i), k, State())
    {
      ghost var was := State();
      var e := allEpochs[i].(nest := allEpochs[i].nest - 1);
      if Settled(was) && (!AtToken(was, i) || e.nest > 0) {
        WithStaysSettled(was, i, e);
      }
      Update(i, e);
      if e.nest == 0 {
        ghost var mid := State();
        k := ChangeAndTry(i, id, true);
        assert LeftAtomic(was, i, id) == Changed(mid, i, id);
        GoesFrom(was, mid, Changed(mid, i, id), AtToken(was, i), k, State());
      } else {
        assert LeftAtomic(was, i, id) == State();
        k := TryGlobalSave(i);
      }
    }

    // A thread starts, with an epoch that is ThreadSafe at once.
    method StartThread(id: Id, thread: nat, parent: int, delta: nat, start: int)
      requires Valid() && -1 <= parent < |allEpochs|
      requires MayStart(State(), id, thread, parent, StartClock(State(), parent, delta, start))
      modifies this`allEpochs, this`globalSafe
      ensures var e := Newcomer(id, thread, StartClock(old(State()), parent, delta, start));
        Valid() && Goes(old(State()), Inserted(old(State()), e), false, 0, State())
    {
      var clock;
      if parent >= 0 {
        clock := allEpochs[parent].clock + delta + 1;
      } else {
        clock := if globalSafe == |allEpochs| then start else allEpochs[globalSafe].clock;
      }
      ghost var was := State();
      SaneByClock(was);
      Insert(Epoch(id, thread, clock, ThreadSafe, false, 0, 0, 0, 0));
      StartKeeps(was, id, thread, parent, delta, start);
    }

    // The thread of the epoch at i waits. Nothing is tried, even if the epoch is next in line.
    method Wait(i: nat)
      requires Valid() && MayWait(State(), i)
      modifies this`waiting
      ensures Valid() && State() == old(State()).(waiting := old(waiting) + {allEpochs[i].thread})
      ensures Settled(old(State())) ==>
        (Settled(State()) <==> !(globalSafeAvailable && i + 1 == globalSafe && allEpochs[i].pend > 0))
    {
      FirstKeeps(State(), Event.Wait(i));
      if Settled(State()) {
        WaitMayUnsettle(State(), i);
      }
      waiting := waiting + {allEpochs[i].thread};
    }

    method Proceed(i: nat)
      requires Valid() && MayProceed(State(), i)
      modifies this`waiting
      ensures Valid() && Goes(old(State()), old(State()).(waiting := old(waiting) - {allEpochs[i].thread}), false, 0, State())
    {
      FirstKeeps(State(), Event.Proceed(i));
      waiting := waiting - {allEpochs[i].thread};
    }

    // The clock of the epoch at i becomes later than that of the one at pred; the epoch that stood in
    // front of it may now be next in line.
    method AdvanceClock(i: nat, pred: nat, delta: nat) returns (ghost k: nat)
      requires Valid() && MayAdvanceClock(State(), i, pred, delta)
      requires var c := ClockAfter(State(), pred, delta); MoveTries(State(), i, c) ==> CanRest(AdvancedTo(State(), i, c))
      modifies this`allEpochs, this`globalSafe, this`globalSafeAvailable
      ensures var c := ClockAfter(old(State()), pred, delta);
        Valid() && Goes(old(State()), AdvancedTo(old(State()), i, c), MoveTries(old(State()), i, c), k, State())
    {
      k := 0;
      var c := allEpochs[pred].clock + delta + 1;
      if c > allEpochs[i].clock {
        var p := Reposition(i, pred, c);
        if p != i {
          k := TryGlobalSave(i);
        }
      }
    }

    // The epoch at i gets the clock c and goes to where it belongs; p is its new place.
    method Reposition(i: nat, pred: nat, c: int) returns (p: nat)
      requires Valid() && MayMoveTo(State(), i, pred, c) && c > allEpochs[i].clock
      modifies this`allEpochs
      ensures Valid() && State() == AdvancedTo(old(State()), i, c) && (p != i <==> Moves(old(State()), i, c))
      ensures Settled(old(State())) && !(globalSafeAvailable && i + 1 == globalSafe && p != i) ==> Settled(State())
    {
      ghost var was := State();
      MoveKeeps(was, i, pred, c);
      if Settled(was) && !(globalSafeAvailable && i + 1 == globalSafe && Moves(was, i, c)) {
        AdvanceStaysSettled(was, i, c);
      }
      p := Splice(i, c);
      assert State() == AdvancedTo(was, i, c);
    }
  }
}
