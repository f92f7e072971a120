/**
 What each event, and each turn of the rule, does to the list of epochs, epoch by epoch.
 */
module EpochEffects {
  import opened EpochOrder
  import opened EpochSaving
  import opened EpochRest
  import opened EpochRuns

  // Everything but the epochs themselves is the same.
  ghost predicate SameToken(s: List, t: List, more: nat) {
    t.g == s.g + more && t.available == s.available && t.waiting == s.waiting && |t.all| == |s.all| + more
  }

  // e comes in at p, in front of the first epoch that is not newer.
  ghost predicate ComesIn(all: seq<Epoch>, t: seq<Epoch>, p: nat, e: Epoch) {
    && p <= |all| && |t| == |all| + 1 && t[p] == e
    && (forall j :: 0 <= j < p ==> t[j] == all[j] && t[j].clock > e.clock)
    && (forall j :: p < j < |t| ==> t[j] == all[j - 1] && t[j].clock <= e.clock)
  }

  // The epoch at i becomes e and goes to p, past all that are older than it now.
  ghost predicate GoesForward(all: seq<Epoch>, t: seq<Epoch>, p: nat, i: nat, e: Epoch) {
    && p <= i < |all| && |t| == |all| && t[p] == e
    && (forall j :: 0 <= j < p ==> t[j] == all[j] && t[j].clock >= e.clock)
    && (forall j :: p < j <= i ==> t[j] == all[j - 1] && t[j].clock < e.clock)
    && (forall j :: i < j < |all| ==> t[j] == all[j])
  }

  lemma {:induction false} AdvancedGoesForward(all: seq<Epoch>, i: nat, c: int) returns (p: nat)
    requires i < |all| && ByClock(all)
    ensures GoesForward(all, Advanced(all, i, c), p, i, all[i].(clock := c))
  {
    p := PlaceOf(all, i, c);
    AdvancedIsShifted(all, p, i, c);
    ShiftedAt(all, p, i, c);
  }

  lemma ShiftedAt(all: seq<Epoch>, p: nat, i: nat, c: int)
    requires p <= i < |all|
    ensures var t := Shifted(all, p, i, c);
      && |t| == |all| && t[p] == all[i].(clock := c)
      && (forall j :: 0 <= j < p || i < j < |all| ==> t[j] == all[j]) && forall j :: p < j <= i ==> t[j] == all[j - 1]
  {
  }

  lemma PlacedComesIn(all: seq<Epoch>, e: Epoch)
    requires ByClock(all)
    ensures ComesIn(all, Placed(all, e), Rank(all, e.clock), e)
  {
    PlacedAtRank(all, e);
    RankSplits(all, e.clock);
  }

  // ---------- clocks ----------

  // The epoch at i, now at p, is not older than c, and stands in front of the one at pred, now at q.
  ghost predicate StandsBefore(all: seq<Epoch>, t: seq<Epoch>, i: nat, pred: nat, c: int, p: nat, q: nat) {
    && i < |all| && pred < |all| && p < q < |t|
    && (if c > all[i].clock then GoesForward(all, t, p, i, all[i].(clock := c)) else t == all && p == i)
    && t[p] == all[i].(clock := if c > all[i].clock then c else all[i].clock) && t[q] == all[pred]
  }

  /** An epoch that advances behind another gets a later clock, if its own is not later already, and stands
      in front of it; the others keep their order. */
  lemma AdvanceExactly(s: List, i: nat, pred: nat, delta: nat) returns (p: nat, q: nat)
    requires Sane(s) && MayAdvanceClock(s, i, pred, delta)
    ensures var t := First(s, Advance(i, pred, delta));
      SameToken(s, t, 0) && StandsBefore(s.all, t.all, i, pred, s.all[pred].clock + delta + 1, p, q)
  {
    SaneByClock(s);
    p, q := AdvancedBehindOf(s.all, First(s, Advance(i, pred, delta)).all, i, pred, s.all[pred].clock + delta + 1);
  }

  lemma AdvancedBehindOf(all: seq<Epoch>, t: seq<Epoch>, i: nat, pred: nat, c: int) returns (p: nat, q: nat)
    requires ByClock(all) && i < |all| && pred < |all| && i != pred && all[pred].clock < c
    requires t == if c > all[i].clock then Advanced(all, i, c) else all
    ensures StandsBefore(all, t, i, pred, c, p, q)
  {
    p, q := i, pred;
    if c > all[i].clock {
      p := AdvancedGoesForward(all, i, c);
      q := if pred < i then pred + 1 else pred;
    }
  }

  /** The first epoch of a thread is ThreadSafe and has no instructions. With a parent it is later than the
      parent, by the thread's distance and one, and stands in front of it; without, it has the clock at the
      token. */
  lemma StartExactly(s: List, id: Id, thread: nat, parent: int, delta: nat, start: int) returns (p: nat, e: Epoch)
    requires Sane(s) && May(s, Start(id, thread, parent, delta, start))
    ensures var t := First(s, Start(id, thread, parent, delta, start));
      && SameToken(s, t, 1) && ComesIn(s.all, t.all, p, e)
      && e.id == id && e.thread == thread && e.phase == ThreadSafe && !e.completed && e.nest == e.pend == e.exec == e.done == 0
      && (parent >= 0 ==> e.clock == s.all[parent].clock + delta + 1 && p <= parent && t.all[parent + 1] == s.all[parent])
      && (parent < 0 && s.g < |s.all| ==> e.clock == s.all[s.g].clock)
      && (parent < 0 && s.g == |s.all| ==> e.clock == start)
  {
    SaneByClock(s);
    e := Newcomer(id, thread, StartClock(s, parent, delta, start));
    p := Rank(s.all, e.clock);
    PlacedComesIn(s.all, e);
  }

  // ---------- epochs that end ----------

  // The thread of the epoch at i, which becomes `last`, goes on in a new one, kid, at p.
  ghost predicate GoesOnIn(s: List, t: List, i: nat, last: Epoch, p: nat, kid: Epoch)
    requires i < |s.all|
  {
    && SameToken(s, t, 1) && p <= i && ComesIn(s.all[i := last], t.all, p, kid)
    && kid.thread == last.thread && kid.clock == last.clock + 1 && kid.phase == Spec
    && !kid.completed && kid.nest == kid.pend == kid.exec == kid.done == 0
  }

  lemma ChangedGoesOn(s: List, i: nat, id: Id) returns (p: nat, kid: Epoch)
    requires Sane(s) && i < |s.all|
    ensures kid.id == id && GoesOnIn(s, Changed(s, i, id), i, s.all[i].(completed := true), p, kid)
  {
    SaneByClock(s);
    kid := Successor(s.all[i], id);
    p := Rank(s.all, kid.clock);
    PlacedComesIn(s.all, kid);
    var t := Inserted(s, kid);
    assert t.all[i + 1] == s.all[i];
  }

  /** A change of epochs completes the epoch and puts a new one of its thread, one later, in front of it. */
  lemma ChangeExactly(s: List, i: nat, id: Id) returns (p: nat, kid: Epoch)
    requires Sane(s) && MayChange(s, i, id)
    ensures kid.id == id && GoesOnIn(s, First(s, Change(i, id)), i, s.all[i].(completed := true), p, kid)
  {
    p, kid := ChangedGoesOn(s, i, id);
  }

  /** Executing counts; the instruction that reaches the limit ends an epoch that is running and not atomic. */
  lemma ExecExactly(s: List, i: nat, id: Id, limit: nat) returns (p: nat, kid: Epoch)
    requires Sane(s) && MayExec(s, i, id, limit)
    ensures var t, e := First(s, Exec(i, id, limit)), s.all[i];
      if limit > 0 && e.exec + 1 >= limit && e.nest == 0 && e.thread !in s.waiting && !e.completed
      then kid.id == id && GoesOnIn(s, t, i, e.(exec := e.exec + 1, completed := true), p, kid)
      else t == s.(all := s.all[i := e.(exec := e.exec + 1)])
  {
    p, kid := 0, s.all[i];
    if Truncates(s, i, limit) {
      var e := s.all[i].(exec := s.all[i].exec + 1);
      WithKeeps(s, i, e);
      p, kid := ChangedGoesOn(With(s, i, e), i, id);
      SetTwice(s.all, i, e, e.(completed := true));
    }
  }

  /** Leaving a section within another one counts; leaving the outermost one ends the epoch. */
  lemma EndAtomicExactly(s: List, i: nat, id: Id) returns (p: nat, kid: Epoch)
    requires Sane(s) && MayEndAtomic(s, i, id)
    ensures var t, e := First(s, EndAtomic(i, id)), s.all[i];
      if e.nest == 1 then kid.id == id && GoesOnIn(s, t, i, e.(nest := 0, completed := true), p, kid)
      else t == s.(all := s.all[i := e.(nest := e.nest - 1)])
  {
    p, kid := 0, s.all[i];
    if s.all[i].nest == 1 {
      var e := s.all[i].(nest := 0);
      WithKeeps(s, i, e);
      p, kid := ChangedGoesOn(With(s, i, e), i, id);
      SetTwice(s.all, i, e, e.(completed := true));
    }
  }

  lemma SetTwice(all: seq<Epoch>, i: nat, x: Epoch, y: Epoch)
    requires i < |all|
    ensures all[i := x][i := y] == all[i := y]
  {
  }

  /** The other events change one counter, one mark, or the waiting threads. */
  lemma OthersExactly(s: List, v: Event)
    requires InRange(s) && May(s, v)
    ensures v.Pend? ==> First(s, v) == s.(all := s.all[v.i := s.all[v.i].(pend := s.all[v.i].pend + 1)])
    ensures v.Done? ==> First(s, v) == s.(all := s.all[v.i := s.all[v.i].(done := s.all[v.i].done + 1)])
    ensures v.Complete? ==> First(s, v) == s.(all := s.all[v.i := s.all[v.i].(completed := true)])
    ensures v.BeginAtomic? ==> First(s, v) == s.(all := s.all[v.i := s.all[v.i].(nest := s.all[v.i].nest + 1)])
    ensures v.Wait? ==> First(s, v) == s.(waiting := s.waiting + {s.all[v.i].thread})
    ensures v.Proceed? ==> First(s, v) == s.(waiting := s.waiting - {s.all[v.i].thread})
  {
  }

  // ---------- turns of the rule ----------

  // The epoch at a is the last in front of the token whose thread does not wait and that has not completed.
  ghost predicate LastActive(s: List, a: nat)
    requires InRange(s)
  {
    && a < s.g && s.all[a].thread !in s.waiting && !s.all[a].completed
    && forall j :: a < j < s.g ==> s.all[j].thread in s.waiting || s.all[j].completed
  }

  // The holder has committed, and the oldest epoch of its thread in front of it is ThreadSafe.
  ghost predicate HasCommitted(s: List, t: List)
    requires InRange(s) && !s.available
  {
    && t.available && t.g == s.g && t.waiting == s.waiting && |t.all| == |s.all|
    && t.all[s.g] == s.all[s.g].(phase := Committed)
    && (forall j :: s.g < j < |s.all| ==> t.all[j] == s.all[j])
    && forall j :: 0 <= j < s.g ==>
         t.all[j] == if s.all[j].thread == s.all[s.g].thread && forall m :: j < m < s.g ==> s.all[m].thread != s.all[s.g].thread
                     then s.all[j].(phase := ThreadSafe) else s.all[j]
  }

  /** The holder of the token commits exactly if it has completed and all its instructions have retired. */
  lemma CommitExactly(s: List)
    requires InRange(s) && !s.available
    ensures var h := s.all[s.g]; if h.completed && h.done == h.pend then HasCommitted(s, Save(s)) else Save(s) == s
  {
    NextOfIsFirst(s.all, s.g, s.all[s.g].thread);
  }

  /** The epoch next in line takes the token exactly if it is ThreadSafe, not in an atomic section and has
      executed, and its thread does not wait. */
  lemma TakeExactly(s: List)
    requires InRange(s) && s.available && s.g > 0 && s.all[s.g - 1].thread !in s.waiting
    ensures var x := s.all[s.g - 1];
      if x.phase == ThreadSafe && x.pend > 0 && x.exec > 0 && x.nest == 0
      then Save(s) == List(s.all[s.g - 1 := x.(phase := GlobalSafe)], s.g - 1, false, s.waiting) else Save(s) == s
  {
  }

  /** If its thread waits it goes past the last active epoch, one later than that. */
  lemma DeferExactly(s: List, a: nat) returns (p: nat)
    requires Sane(s) && s.available && s.g > 0 && s.all[s.g - 1].thread in s.waiting && LastActive(s, a)
    requires s.all[s.g - 1].phase == ThreadSafe && s.all[s.g - 1].pend > 0
    ensures var x, t := s.all[s.g - 1], Save(s);
      SameToken(s, t, 0) && GoesForward(s.all, t.all, p, s.g - 1, x.(clock := s.all[a].clock + 1)) && p <= a
  {
    SaneByClock(s);
    TurnDefers(s, a);
    p := GoesPastActive(s.all, s.g - 1, a);
  }

  lemma TurnDefers(s: List, a: nat)
    requires InRange(s) && s.available && s.g > 0 && s.all[s.g - 1].thread in s.waiting && LastActive(s, a)
    requires s.all[s.g - 1].phase == ThreadSafe && s.all[s.g - 1].pend > 0
    ensures Save(s) == s.(all := Advanced(s.all, s.g - 1, s.all[a].clock + 1))
  {
    SomeActive(s);
  }

  /** It stays if there is none, and so does an epoch that is not ThreadSafe or has no instruction. */
  lemma StaysExactly(s: List)
    requires InRange(s) && s.available && s.g > 0 && s.all[s.g - 1].thread in s.waiting
    requires s.all[s.g - 1].phase != ThreadSafe || s.all[s.g - 1].pend == 0
             || forall j :: 0 <= j < s.g ==> s.all[j].thread in s.waiting || s.all[j].completed
    ensures Save(s) == s
  {
    SomeActive(s);
  }

  lemma SomeActive(s: List)
    requires InRange(s)
    ensures var a := Nearest(s.all, s.g, s.waiting);
      if a >= 0 then LastActive(s, a) else forall j :: 0 <= j < s.g ==> s.all[j].thread in s.waiting || s.all[j].completed
  {
    NearestIsFirst(s.all, s.g, s.waiting);
  }

  lemma GoesPastActive(all: seq<Epoch>, i: nat, a: nat) returns (p: nat)
    requires ByClock(all) && a <= i < |all|
    ensures GoesForward(all, Advanced(all, i, all[a].clock + 1), p, i, all[i].(clock := all[a].clock + 1)) && p <= a
  {
    p := AdvancedGoesForward(all, i, all[a].clock + 1);
  }

  /** With nobody in front the token stays available. */
  lemma NobodyTakes(s: List)
    requires InRange(s) && s.available && s.g == 0
    ensures Save(s) == s
  {
  }

  /** A list is at rest exactly if a turn changes nothing and the epoch next in line is not blocked. */
  lemma AtRestExactly(s: List)
    requires Sane(s)
    ensures Settled(s) <==> Save(s) == s && !Blocked(s)
  {
    if Settled(s) {
      SettledStays(s, 1);
    } else if !Blocked(s) {
      OneTurn(s);
    }
  }
}
