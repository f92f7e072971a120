/**
 When the rule by which the token is passed on comes to rest. The search for an active epoch may find
 none; then the epoch next in line can neither take the token nor give way. A look at the records of
 the epochs tells beforehand whether this will happen.
 */
module EpochRest {
  import opened EpochOrder
  import opened EpochSaving

  // Nothing but its thread can keep the epoch from taking the token, and then it commits at once.
  predicate Passes(x: Epoch) {
    x.pend > 0 && x.exec > 0 && x.nest == 0 && Finished(x)
  }

  // With the token available behind the first k epochs: an active one is there to be passed, or before a
  // waiting one is next an epoch stops that is there or takes the token and keeps it.
  predicate Clears(all: seq<Epoch>, k: nat, waiting: set<nat>)
    requires k <= |all|
  {
    || (exists j :: 0 <= j < k && Active(all[j], waiting))
    || k == 0 || all[k - 1].pend == 0
    || (all[k - 1].thread !in waiting && (Passes(all[k - 1]) ==> Clears(all, k - 1, waiting)))
  }

  predicate CanRest(s: List)
    requires InRange(s)
  {
    s.available || Finished(s.all[s.g]) ==> Clears(s.all, s.g, s.waiting)
  }

  // The epoch next in line would have to give way, but there is no active one.
  predicate Blocked(s: List)
    requires InRange(s)
  {
    && s.available && s.g > 0 && Ready(s.all[s.g - 1], s.waiting)
    && s.all[s.g - 1].thread in s.waiting && Nearest(s.all, s.g, s.waiting) < 0
  }

  predicate RestsAfter(s: List, k: nat)
    requires InRange(s)
  {
    Settled(Saved(s, k))
  }

  predicate BlockedAfter(s: List, k: nat)
    requires InRange(s)
  {
    Blocked(Saved(s, k))
  }

  // The oldest uncommitted epoch is past Spec.
  lemma LastIsSafe(s: List)
    requires Sane(s) && s.available && s.g > 0
    ensures s.all[s.g - 1].phase == ThreadSafe
  {
    var o :| Good(s, o);
    var f, e := o.front[..s.g - 1], o.front[s.g - 1];
    FrontOfList(s.all, o);
    assert o.Live() == f + [e];
    TailIsSafe(f, [e]);
  }

  // Phases do not matter.
  lemma {:induction false} ClearsByRecords(all: seq<Epoch>, t: seq<Epoch>, k: nat, waiting: set<nat>)
    requires k <= |all| == |t| && forall j :: 0 <= j < k ==> t[j] == all[j].(phase := t[j].phase)
    ensures Clears(t, k, waiting) <==> Clears(all, k, waiting)
  {
    assert forall j :: 0 <= j < k ==> (Active(t[j], waiting) <==> Active(all[j], waiting));
    if k > 0 {
      ClearsByRecords(all, t, k - 1, waiting);
    }
  }

  lemma FreeRests(s: List)
    requires InRange(s) && !s.available && Finished(s.all[s.g])
    ensures CanRest(Freed(s)) <==> CanRest(s)
  {
    ClearsByRecords(s.all, Freed(s).all, s.g, s.waiting);
  }

  lemma TakeRests(s: List)
    requires InRange(s) && s.available && s.g > 0 && Ready(s.all[s.g - 1], s.waiting) && s.all[s.g - 1].thread !in s.waiting
    ensures CanRest(Taken(s)) <==> CanRest(s)
  {
    var n := s.g - 1;
    ClearsByRecords(s.all, Taken(s).all, n, s.waiting);
    if Finished(s.all[n]) {
      assert (exists j :: 0 <= j < s.g && Active(s.all[j], s.waiting)) ==> Clears(s.all, n, s.waiting);
    }
  }

  // A waiting epoch next in line finds an active one.
  lemma WaitingFinds(s: List)
    requires InRange(s) && s.available && s.g > 0 && Ready(s.all[s.g - 1], s.waiting) && s.all[s.g - 1].thread in s.waiting
    ensures CanRest(s) <==> Open(s)
  {
  }

  // A list at rest can rest, and is not blocked.
  lemma SettledRests(s: List)
    requires Sane(s) && Settled(s)
    ensures CanRest(s) && !Blocked(s)
  {
    if s.available && s.g > 0 {
      LastIsSafe(s);
    }
  }

  // A turn neither helps nor harms, unless the list is blocked.
  lemma TurnRests(s: List)
    requires Sane(s) && !Settled(s)
    ensures CanRest(s) ==> !Blocked(s)
    ensures !Blocked(s) ==> (CanRest(Save(s)) <==> CanRest(s))
  {
    if !s.available {
      FreeRests(s);
    } else if s.all[s.g - 1].thread !in s.waiting {
      TakeRests(s);
    } else if Nearest(s.all, s.g, s.waiting) >= 0 {
      assert Open(s);
      DeferKeeps(s);
    } else {
      NearestIsFirst(s.all, s.g, s.waiting);
    }
  }

  // t comes after s by how many have not committed, by the token, or by how far the next active epoch
  // is from it.
  ghost predicate Closer(t: List, s: List)
    requires InRange(t) && InRange(s)
  {
    || Live(t) < Live(s)
    || (Live(t) == Live(s) && s.available && (!t.available || AheadOf(t) < AheadOf(s)))
  }

  lemma OneTurn(s: List)
    requires Sane(s) && !Settled(s) && !Blocked(s)
    ensures Sane(Save(s)) && Closer(Save(s), s)
  {
    if !s.available {
      FreeKeeps(s);
    } else if s.all[s.g - 1].thread in s.waiting {
      assert Open(s);
      DeferKeeps(s);
    } else {
      TakeKeeps(s);
    }
  }

  lemma {:induction false} ComesToRest(s: List) returns (k: nat)
    requires Sane(s) && CanRest(s)
    ensures Settled(Saved(s, k))
    decreases Live(s), if s.available then 1 else 0, AheadOf(s)
  {
    k := 0;
    if !Settled(s) {
      TurnRests(s);
      OneTurn(s);
      k := ComesToRest(Save(s));
      k := k + 1;
    }
  }

  lemma {:induction false} GetsBlocked(s: List) returns (k: nat)
    requires Sane(s) && !CanRest(s)
    ensures Blocked(Saved(s, k))
    decreases Live(s), if s.available then 1 else 0, AheadOf(s)
  {
    k := 0;
    if !Blocked(s) {
      if Settled(s) {
        SettledRests(s);
      }
      TurnRests(s);
      OneTurn(s);
      k := GetsBlocked(Save(s));
      k := k + 1;
    }
  }

  lemma SaneBySave(s: List)
    requires Sane(s)
    ensures Sane(Save(s))
  {
    var o :| Good(s, o);
    var n := SaveIsGood(s, o);
  }

  lemma SaveRests(s: List)
    requires Sane(s) && CanRest(s)
    ensures Sane(Save(s)) && CanRest(Save(s))
  {
    SaneBySave(s);
    if Settled(s) {
      SettledStays(s, 1);
      assert Save(s) == s;
    } else {
      TurnRests(s);
    }
  }

  // A list that can rest still can, whatever turns are made.
  lemma {:induction false} SavedRests(s: List, k: nat)
    requires Sane(s) && CanRest(s)
    ensures Sane(Saved(s, k)) && CanRest(Saved(s, k))
    decreases k
  {
    if k > 0 {
      SaveRests(s);
      SavedRests(Save(s), k - 1);
    }
  }

  lemma NotBlocked(s: List)
    requires Sane(s) && CanRest(s)
    ensures !Blocked(s)
  {
    if Settled(s) {
      SettledRests(s);
    } else {
      TurnRests(s);
    }
  }

  lemma {:induction false} BlockedStays(s: List, k: nat)
    requires InRange(s) && Blocked(s)
    ensures Saved(s, k) == s && !Settled(s)
  {
    if k > 0 {
      BlockedStays(s, k - 1);
    }
  }

  /**
   The rule comes to rest exactly if the records say so; if they do not, a waiting epoch will be next
   in line, ready but for its thread, and no active one in front of it.
   */
  lemma RestsExactly(s: List)
    requires Sane(s)
    ensures CanRest(s) <==> exists k: nat :: RestsAfter(s, k)
    ensures CanRest(s) <==> forall k: nat :: !BlockedAfter(s, k)
  {
    if CanRest(s) {
      var k := ComesToRest(s);
      assert RestsAfter(s, k);
      forall j: nat
        ensures !BlockedAfter(s, j)
      {
        SavedRests(s, j);
        NotBlocked(Saved(s, j));
      }
    } else {
      var k := GetsBlocked(s);
      assert BlockedAfter(s, k);
      forall j: nat
        ensures !RestsAfter(s, j)
      {
        NeverSettled(s, k, j);
      }
    }
  }

  lemma NeverSettled(s: List, k: nat, j: nat)
    requires InRange(s) && Blocked(Saved(s, k))
    ensures !Settled(Saved(s, j))
  {
    BlockedStays(Saved(s, k), if j > k then j - k else 0);
    if j >= k {
      SavedTwice(s, k, j - k);
    } else if Settled(Saved(s, j)) {
      SavedTwice(s, j, k - j);
      SettledStays(Saved(s, j), k - j);
    }
  }

  // ---------- what a step leads to ----------

  // The three kinds of a turn, followed by others.
  lemma TakeFirst(s: List, k: nat)
    requires InRange(s) && s.available && s.g > 0 && Ready(s.all[s.g - 1], s.waiting) && s.all[s.g - 1].thread !in s.waiting
    ensures Saved(Taken(s), k) == Saved(s, k + 1)
  {
  }

  lemma FreeFirst(s: List, k: nat)
    requires InRange(s) && !s.available && Finished(s.all[s.g])
    ensures Saved(Freed(s), k) == Saved(s, k + 1)
  {
  }

  lemma DeferFirst(s: List, k: nat)
    requires InRange(s) && s.available && s.g > 0 && Ready(s.all[s.g - 1], s.waiting) && s.all[s.g - 1].thread in s.waiting
    requires Nearest(s.all, s.g, s.waiting) >= 0
    ensures Saved(Deferred(s), k) == Saved(s, k + 1)
  {
  }

  // A step makes f of s, and k turns of the rule make r of that. The list r is at rest if there were any
  // turns, if the program has tried to go on, or if s was at rest.
  predicate Goes(s: List, f: List, tried: bool, k: nat, r: List)
    requires InRange(s) && InRange(f)
  {
    r == Saved(f, k) && (k > 0 || tried || Settled(s) ==> Settled(r))
  }

  lemma GoesFurther(s: List, f: List, tried: bool, k: nat, m: List, j: nat, r: List)
    requires InRange(s) && InRange(f) && InRange(m) && Goes(s, f, tried, k, m) && Goes(m, m, false, j, r)
    ensures Goes(s, f, tried, k + j, r)
  {
    SavedTwice(f, k, j);
  }

  // Only where the program tries to go on may the first part of a step, from s to t, leave it to do.
  lemma GoesFrom(s: List, t: List, f: List, tried: bool, k: nat, r: List)
    requires InRange(s) && InRange(t) && InRange(f) && Goes(t, f, tried, k, r) && (Settled(s) && !tried ==> Settled(t))
    ensures Goes(s, f, tried, k, r)
  {
  }

  /** There is one way only for a list that was at rest to come to rest again. */
  lemma OneOutcome(s: List, f: List, tried: bool, k: nat, r: List, k': nat, r': List)
    requires InRange(s) && InRange(f) && Settled(s) && Goes(s, f, tried, k, r) && Goes(s, f, tried, k', r')
    ensures r == r'
  {
    if k <= k' {
      SavedTwice(f, k, k' - k);
      SettledStays(r, k' - k);
    } else {
      SavedTwice(f, k', k - k');
      SettledStays(r', k - k');
    }
  }

  // ---------- everything that can commit does ----------

  ghost predicate AllPass(s: List)
    requires InRange(s)
  {
    forall i :: 0 <= i < |s.all| && i < Live(s) ==> Passes(s.all[i])
  }

  // With nobody active none gives way.
  lemma SaveKeepsPassing(s: List)
    requires InRange(s) && AllPass(s)
    ensures AllPass(Save(s))
  {
  }

  lemma {:induction false} SavedKeepsPassing(s: List, k: nat)
    requires InRange(s) && AllPass(s)
    ensures AllPass(Saved(s, k))
    decreases k
  {
    if k > 0 {
      SaveKeepsPassing(s);
      SavedKeepsPassing(Save(s), k - 1);
    }
  }

  // At rest none is left.
  lemma SettledHasNone(s: List)
    requires Sane(s) && Settled(s) && AllPass(s)
    ensures Live(s) == 0
  {
    if s.available && s.g > 0 {
      LastIsSafe(s);
    }
  }

  /** When every uncommitted epoch has finished, the rule commits them all, unless a waiting one blocks it. */
  lemma EverythingCommits(s: List) returns (k: nat)
    requires Sane(s) && CanRest(s) && AllPass(s)
    ensures Live(Saved(s, k)) == 0
  {
    k := ComesToRest(s);
    SavedRests(s, k);
    SavedKeepsPassing(s, k);
    SettledHasNone(Saved(s, k));
  }
}
