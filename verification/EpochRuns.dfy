/**
 Runs of the epochs. A step is something that happens to one epoch, after which the rule by which
 the token is passed on is followed for some turns. Over any run only finished epochs commit, one
 after the other, and what has committed stays as it is.
 */
module EpochRuns {
  import opened EpochOrder
  import opened EpochSaving
  import opened EpochRest

  datatype Event =
    | Pend(i: nat) | Exec(i: nat, id: Id, limit: nat) | Done(i: nat) | Complete(i: nat) | Change(i: nat, id: Id)
    | BeginAtomic(i: nat) | EndAtomic(i: nat, id: Id) | Wait(i: nat) | Proceed(i: nat)
    | Advance(i: nat, pred: nat, delta: nat)
    | Start(id: Id, thread: nat, parent: int, delta: nat, start: int)

  predicate Running(s: List, i: nat) {
    i < |s.all| && i < Live(s) && s.all[i].thread !in s.waiting && !s.all[i].completed
  }

  predicate Fresh(s: List, id: Id) {
    forall x :: x in s.all ==> x.id != id
  }

  // The last epoch that is not newer than c, or the end.
  function Rank(all: seq<Epoch>, c: int): (p: nat)
    ensures p <= |all| && (p < |all| ==> all[p].clock <= c)
    ensures forall j :: 0 <= j < p ==> all[j].clock > c
  {
    if all == [] || all[0].clock <= c then 0 else 1 + Rank(all[1..], c)
  }

  // The new epoch goes in front of those that are not newer.
  function Placed(all: seq<Epoch>, e: Epoch): (r: seq<Epoch>)
    ensures |r| == |all| + 1
  {
    if all == [] || all[0].clock <= e.clock then [e] + all else [all[0]] + Placed(all[1..], e)
  }

  lemma {:induction false} PlacedAtRank(all: seq<Epoch>, e: Epoch)
    ensures var p := Rank(all, e.clock); Placed(all, e) == all[..p] + ([e] + all[p..])
  {
    if all != [] && all[0].clock > e.clock {
      PlacedAtRank(all[1..], e);
      var p := Rank(all[1..], e.clock);
      assert all[..p + 1] == [all[0]] + all[1..][..p] && all[p + 1..] == all[1..][p..];
    }
  }

  function Inserted(s: List, e: Epoch): (r: List)
    ensures |r.all| == |s.all| + 1 && (InRange(s) ==> InRange(r))
  {
    s.(all := Placed(s.all, e), g := s.g + 1)
  }

  function With(s: List, i: nat, e: Epoch): (r: List)
    requires i < |s.all|
    ensures |r.all| == |s.all| && (InRange(s) ==> InRange(r))
  {
    s.(all := s.all[i := e])
  }

  function Successor(x: Epoch, id: Id): Epoch {
    Epoch(id, x.thread, x.clock + 1, Spec, false, 0, 0, 0, 0)
  }

  // The thread of the epoch at i goes on in a new one.
  function Changed(s: List, i: nat, id: Id): (r: List)
    requires i < |s.all|
    ensures InRange(s) ==> InRange(r)
  {
    var t := Inserted(s, Successor(s.all[i], id));
    With(t, i + 1, t.all[i + 1].(completed := true))
  }

  function ClockAfter(s: List, pred: nat, delta: nat): int
    requires pred < |s.all|
  {
    s.all[pred].clock + delta + 1
  }

  // The clock of a new thread: later than its parent's, or the one at the token.
  function StartClock(s: List, parent: int, delta: nat, start: int): int
    requires InRange(s) && -1 <= parent < |s.all|
  {
    if parent >= 0 then ClockAfter(s, parent, delta) else if s.g == |s.all| then start else s.all[s.g].clock
  }

  function Newcomer(id: Id, thread: nat, clock: int): Epoch {
    Epoch(id, thread, clock, ThreadSafe, false, 0, 0, 0, 0)
  }

  // The epoch at i moves forward if c is later than its clock.
  function AdvancedTo(s: List, i: nat, c: int): (r: List)
    requires i < |s.all|
    ensures |r.all| == |s.all| && (InRange(s) ==> InRange(r))
  {
    if c > s.all[i].clock then s.(all := Advanced(s.all, i, c)) else s
  }

  // No other epoch of its thread is uncommitted.
  ghost predicate Only(s: List, i: nat) {
    i < |s.all| && forall j :: 0 <= j < |s.all| && j < Live(s) && j != i ==> s.all[j].thread != s.all[i].thread
  }

  // An epoch that moves is in front of the token and the newest of its thread.
  ghost predicate MayMoveTo(s: List, i: nat, pred: nat, c: int) {
    && i < |s.all| && pred < |s.all| && s.all[i].thread != s.all[pred].thread
    && (c > s.all[i].clock ==> i < s.g && NoneOf(s.all[..i], s.all[i].thread))
  }

  // A parent has gone on in an epoch that is not newer than the first one of the new thread.
  ghost predicate MayStart(s: List, id: Id, thread: nat, parent: int, c: int) {
    && Fresh(s, id) && NoneOf(s.all, thread) && thread !in s.waiting
    && (parent >= 0 ==> exists j :: 0 <= j < |s.all| && j < Live(s) && s.all[j].clock <= c)
  }

  // The next instruction of the epoch at i is its last one; a limit of 0 is none.
  predicate Truncates(s: List, i: nat, limit: nat) {
    Running(s, i) && s.all[i].nest == 0 && 0 < limit <= s.all[i].exec + 1
  }

  // An instruction of the epoch at i executes. Where that is its last, the thread goes on in a new epoch.
  function Executed(s: List, i: nat, id: Id, limit: nat): (r: List)
    requires i < |s.all|
    ensures InRange(s) ==> InRange(r)
  {
    var t := With(s, i, s.all[i].(exec := s.all[i].exec + 1));
    if Truncates(s, i, limit) then Changed(t, i, id) else t
  }

  // The epoch at i leaves an atomic section. After the outermost one the thread goes on in a new epoch.
  function LeftAtomic(s: List, i: nat, id: Id): (r: List)
    requires i < |s.all| && s.all[i].nest > 0
    ensures InRange(s) ==> InRange(r)
  {
    var t := With(s, i, s.all[i].(nest := s.all[i].nest - 1));
    if s.all[i].nest == 1 then Changed(t, i, id) else t
  }

  predicate MayExec(s: List, i: nat, id: Id, limit: nat) {
    i < |s.all| && i < Live(s) && s.all[i].exec < s.all[i].pend && (Truncates(s, i, limit) ==> Fresh(s, id))
  }

  predicate MayComplete(s: List, i: nat) {
    Running(s, i) && s.all[i].pend > 0 && s.all[i].nest == 0
  }

  predicate MayChange(s: List, i: nat, id: Id) {
    MayComplete(s, i) && Fresh(s, id)
  }

  predicate MayEndAtomic(s: List, i: nat, id: Id) {
    Running(s, i) && s.all[i].nest > 0 && (s.all[i].nest == 1 ==> s.all[i].pend > 0 && Fresh(s, id))
  }

  ghost predicate MayWait(s: List, i: nat) {
    Running(s, i) && s.all[i].phase == ThreadSafe && Only(s, i)
  }

  predicate MayProceed(s: List, i: nat) {
    i < |s.all| && i < Live(s) && s.all[i].thread in s.waiting
  }

  predicate MayDone(s: List, i: nat) {
    i < |s.all| && i < Live(s) && s.all[i].done < s.all[i].exec
  }

  ghost predicate MayAdvanceClock(s: List, i: nat, pred: nat, delta: nat) {
    pred < |s.all| && MayMoveTo(s, i, pred, ClockAfter(s, pred, delta))
  }

  // What the program asks of each step.
  ghost predicate May(s: List, v: Event)
    requires InRange(s)
  {
    match v
    case Pend(i) => Running(s, i)
    case Exec(i, id, limit) => MayExec(s, i, id, limit)
    case Done(i) => MayDone(s, i)
    case Complete(i) => MayComplete(s, i)
    case Change(i, id) => MayChange(s, i, id)
    case BeginAtomic(i) => Running(s, i)
    case EndAtomic(i, id) => MayEndAtomic(s, i, id)
    case Wait(i) => MayWait(s, i)
    case Proceed(i) => MayProceed(s, i)
    case Advance(i, pred, delta) => MayAdvanceClock(s, i, pred, delta)
    case Start(id, thread, parent, delta, start) =>
      -1 <= parent < |s.all| && MayStart(s, id, thread, parent, StartClock(s, parent, delta, start))
  }

  // What the step does before the rule is followed.
  ghost function First(s: List, v: Event): (r: List)
    requires InRange(s) && May(s, v)
    ensures InRange(r)
  {
    match v
    case Pend(i) => With(s, i, s.all[i].(pend := s.all[i].pend + 1))
    case Exec(i, id, limit) => Executed(s, i, id, limit)
    case Done(i) => With(s, i, s.all[i].(done := s.all[i].done + 1))
    case Complete(i) => With(s, i, s.all[i].(completed := true))
    case Change(i, id) => Changed(s, i, id)
    case BeginAtomic(i) => With(s, i, s.all[i].(nest := s.all[i].nest + 1))
    case EndAtomic(i, id) => LeftAtomic(s, i, id)
    case Wait(i) => s.(waiting := s.waiting + {s.all[i].thread})
    case Proceed(i) => s.(waiting := s.waiting - {s.all[i].thread})
    case Advance(i, pred, delta) => AdvancedTo(s, i, ClockAfter(s, pred, delta))
    case Start(id, thread, parent, delta, start) => Inserted(s, Newcomer(id, thread, StartClock(s, parent, delta, start)))
  }

  // ---------- each first effect keeps the list good ----------

  lemma WithIsGood(s: List, o: Order, i: nat, e: Epoch) returns (n: Order)
    requires Good(s, o) && i < Live(s) && SameStanding(s.all[i], e) && Counted(e)
    ensures Good(With(s, i, e), n) && n.behind == o.behind && |n.front| == |o.front| && |n.token| == |o.token|
  {
    n := UpdatedOrder(s.all, o, i, e, s.waiting);
  }

  lemma InsertIsGood(s: List, o: Order, e: Epoch) returns (n: Order)
    requires Good(s, o) && Fresh(s, e.id) && Fits(o, e) && e.thread !in s.waiting && Counted(e)
    ensures Good(Inserted(s, e), n) && n.behind == o.behind && n.token == o.token && |n.front| == |o.front| + 1
    ensures Rank(s.all, e.clock) <= s.g
  {
    OrderedList(s.all, o);
    RankSplits(s.all, e.clock);
    PlacedAtRank(s.all, e);
    n := InsertedOrder(s.all, o, Rank(s.all, e.clock), e, s.waiting);
    InsertKeepsCounted(s, e);
  }

  lemma RankSplits(all: seq<Epoch>, c: int)
    requires ByClock(all)
    ensures forall j :: Rank(all, c) <= j < |all| ==> all[j].clock <= c
  {
  }

  // There is one place for a clock in a list in order.
  lemma RankIs(all: seq<Epoch>, c: int, p: nat)
    requires p <= |all| && (forall j :: 0 <= j < p ==> all[j].clock > c) && (p < |all| ==> all[p].clock <= c)
    ensures p == Rank(all, c)
  {
    var r := Rank(all, c);
    assert r >= p;
  }

  lemma InsertKeepsCounted(s: List, e: Epoch)
    requires Counted(e) && forall i :: 0 <= i < |s.all| ==> Counted(s.all[i])
    ensures forall i :: 0 <= i < |Inserted(s, e).all| ==> Counted(Inserted(s, e).all[i])
  {
    PlacedAtRank(s.all, e);
  }

  lemma SuccessorFits(s: List, o: Order, i: nat, id: Id)
    requires Good(s, o) && i < Live(s)
    ensures Fits(o, Successor(s.all[i], id))
  {
    ClockFits(s.all, o, i, s.all[i].clock + 1);
    LiveInList(s.all, o, i);
  }

  lemma SpawnIsGood(s: List, o: Order, i: nat, id: Id) returns (n: Order)
    requires Good(s, o) && Running(s, i) && Fresh(s, id)
    ensures Good(Inserted(s, Successor(s.all[i], id)), n) && Rank(s.all, s.all[i].clock + 1) <= s.g && n.behind == o.behind
    ensures n.token == o.token && |n.front| == |o.front| + 1
  {
    SuccessorFits(s, o, i, id);
    n := InsertIsGood(s, o, Successor(s.all[i], id));
  }

  // The successor stands in front of the epoch at i.
  lemma SpawnShifts(s: List, i: nat, id: Id)
    requires InRange(s) && Running(s, i)
    ensures var t := Inserted(s, Successor(s.all[i], id));
      && i + 1 < |t.all| && t.all[i + 1] == s.all[i] && t.waiting == s.waiting && Live(t) == Live(s) + 1
      && (exists j :: 0 <= j <= i && Active(t.all[j], t.waiting))
  {
    var e := Successor(s.all[i], id);
    var t, p := Inserted(s, e), Rank(s.all, e.clock);
    PlacedAtRank(s.all, e);
    assert t.all[p] == e && Active(t.all[p], t.waiting);
  }

  lemma ChangeIsGood(s: List, o: Order, i: nat, id: Id) returns (n: Order)
    requires Good(s, o) && Running(s, i) && Fresh(s, id)
    ensures Good(Changed(s, i, id), n) && n.behind == o.behind && Open(Changed(s, i, id))
  {
    var m := SpawnIsGood(s, o, i, id);
    SpawnShifts(s, i, id);
    var t := Inserted(s, Successor(s.all[i], id));
    n := WithIsGood(t, m, i + 1, t.all[i + 1].(completed := true));
    var j :| 0 <= j <= i && Active(t.all[j], t.waiting);
    assert Active(Changed(s, i, id).all[j], t.waiting);
  }

  lemma WithAndChangeIsGood(s: List, o: Order, i: nat, e: Epoch, id: Id) returns (n: Order)
    requires Good(s, o) && Running(s, i) && Fresh(s, id) && SameStanding(s.all[i], e) && Counted(e) && !e.completed
    ensures var t := With(s, i, e); Good(Changed(t, i, id), n) && n.behind == o.behind && Open(Changed(t, i, id))
  {
    var m := WithIsGood(s, o, i, e);
    n := ChangeIsGood(With(s, i, e), m, i, id);
  }

  lemma ExecIsGood(s: List, o: Order, i: nat, id: Id, limit: nat) returns (n: Order)
    requires Good(s, o) && MayExec(s, i, id, limit)
    ensures Good(Executed(s, i, id, limit), n) && n.behind == o.behind
  {
    var e := s.all[i].(exec := s.all[i].exec + 1);
    if Truncates(s, i, limit) {
      n := WithAndChangeIsGood(s, o, i, e, id);
    } else {
      n := WithIsGood(s, o, i, e);
    }
  }

  lemma EndAtomicIsGood(s: List, o: Order, i: nat, id: Id) returns (n: Order)
    requires Good(s, o) && MayEndAtomic(s, i, id)
    ensures Good(LeftAtomic(s, i, id), n) && n.behind == o.behind
  {
    var e := s.all[i].(nest := s.all[i].nest - 1);
    if s.all[i].nest == 1 {
      n := WithAndChangeIsGood(s, o, i, e, id);
    } else {
      n := WithIsGood(s, o, i, e);
    }
  }

  lemma MoveIsGood(s: List, o: Order, i: nat, pred: nat, c: int) returns (n: Order)
    requires Good(s, o) && MayMoveTo(s, i, pred, c)
    ensures Good(AdvancedTo(s, i, c), n) && n.behind == o.behind && n.token == o.token && |n.front| == |o.front|
  {
    n := o;
    if c > s.all[i].clock {
      var p := PlaceOf(s.all, i, c);
      n := AdvancedOrder(s.all, o, p, i, c, s.waiting);
      AdvancedIsShifted(s.all, p, i, c);
      AdvancedCounted(s.all, i, c);
    }
  }

  lemma NewcomerFits(s: List, o: Order, id: Id, thread: nat, parent: int, c: int)
    requires Good(s, o) && MayStart(s, id, thread, parent, c)
    requires parent < 0 ==> s.g < |s.all| ==> c == s.all[s.g].clock
    ensures Fits(o, Newcomer(id, thread, c))
  {
    if parent >= 0 {
      var j :| 0 <= j < |s.all| && j < Live(s) && s.all[j].clock <= c;
      ClockFits(s.all, o, j, c);
    } else {
      TokenFits(s.all, o);
    }
    NewThreadFits(s.all, o, thread);
  }

  lemma StartIsGood(s: List, o: Order, id: Id, thread: nat, parent: int, delta: nat, start: int) returns (n: Order)
    requires Good(s, o) && -1 <= parent < |s.all| && MayStart(s, id, thread, parent, StartClock(s, parent, delta, start))
    ensures Good(Inserted(s, Newcomer(id, thread, StartClock(s, parent, delta, start))), n)
    ensures Rank(s.all, StartClock(s, parent, delta, start)) <= s.g
    ensures n.behind == o.behind && n.token == o.token && |n.front| == |o.front| + 1
  {
    var c := StartClock(s, parent, delta, start);
    NewcomerFits(s, o, id, thread, parent, c);
    n := InsertIsGood(s, o, Newcomer(id, thread, c));
  }

  // A thread that has one epoch only may wait.
  lemma WaitIsGood(s: List, o: Order, i: nat)
    requires Good(s, o) && Running(s, i) && Only(s, i)
    ensures Good(s.(waiting := s.waiting + {s.all[i].thread}), o)
  {
    var t := s.all[i].thread;
    var l := o.Live();
    assert forall j :: 0 <= j < |l| ==> l[j] == s.all[j];
    forall j, k | j in Keys(l) && k in Keys(l) && j.thread == k.thread && j.thread in s.waiting + {t}
      ensures j.id == k.id
    {
      if j.thread == t {
        OnlyKey(s, o, i, j);
        OnlyKey(s, o, i, k);
      }
    }
  }

  lemma OnlyKey(s: List, o: Order, i: nat, k: Key)
    requires Splits(s, o) && i < |s.all| && Only(s, i) && k in Keys(o.Live()) && k.thread == s.all[i].thread
    ensures k.id == s.all[i].id
  {
    var x :| x in o.Live() && KeyOf(x) == k;
    var j :| 0 <= j < |o.Live()| && o.Live()[j] == x;
    assert s.all[j] == x;
  }

  // What happens to one epoch keeps the list good and leaves the committed ones alone.
  lemma FirstIsGood(s: List, o: Order, v: Event) returns (n: Order)
    requires Good(s, o) && May(s, v)
    ensures Good(First(s, v), n) && n.behind == o.behind
  {
    match v
    case Pend(i) => n := WithIsGood(s, o, i, s.all[i].(pend := s.all[i].pend + 1));
    case Exec(i, id, limit) => n := ExecIsGood(s, o, i, id, limit);
    case Done(i) => n := WithIsGood(s, o, i, s.all[i].(done := s.all[i].done + 1));
    case Complete(i) => n := WithIsGood(s, o, i, s.all[i].(completed := true));
    case Change(i, id) => n := ChangeIsGood(s, o, i, id);
    case BeginAtomic(i) => n := WithIsGood(s, o, i, s.all[i].(nest := s.all[i].nest + 1));
    case EndAtomic(i, id) => n := EndAtomicIsGood(s, o, i, id);
    case Wait(i) => WaitIsGood(s, o, i); n := o;
    case Proceed(i) => n := o;
    case Advance(i, pred, delta) => n := MoveIsGood(s, o, i, pred, ClockAfter(s, pred, delta));
    case Start(id, thread, parent, delta, start) => n := StartIsGood(s, o, id, thread, parent, delta, start);
  }

  /** What happens to one epoch keeps the list sane. */
  lemma FirstKeeps(s: List, v: Event)
    requires Sane(s) && May(s, v)
    ensures Sane(First(s, v))
  {
    var o :| Good(s, o);
    var n := FirstIsGood(s, o, v);
  }

  lemma WithKeeps(s: List, i: nat, e: Epoch)
    requires Sane(s) && i < Live(s) && SameStanding(s.all[i], e) && Counted(e)
    ensures Sane(With(s, i, e))
  {
    var o :| Good(s, o);
    var n := WithIsGood(s, o, i, e);
  }

  lemma InsertStaysSettled(s: List, e: Epoch)
    requires InRange(s) && Settled(s) && e.pend == 0 && Rank(s.all, e.clock) <= s.g
    ensures Settled(Inserted(s, e))
  {
    PlacedAtRank(s.all, e);
  }

  lemma SpawnKeeps(s: List, i: nat, id: Id)
    requires Sane(s) && Running(s, i) && Fresh(s, id)
    ensures var t := Inserted(s, Successor(s.all[i], id)); Sane(t) && (Settled(s) ==> Settled(t))
  {
    var o :| Good(s, o);
    var n := SpawnIsGood(s, o, i, id);
    if Settled(s) {
      InsertStaysSettled(s, Successor(s.all[i], id));
    }
  }

  lemma StartKeeps(s: List, id: Id, thread: nat, parent: int, delta: nat, start: int)
    requires Sane(s) && -1 <= parent < |s.all| && MayStart(s, id, thread, parent, StartClock(s, parent, delta, start))
    ensures var t := Inserted(s, Newcomer(id, thread, StartClock(s, parent, delta, start))); Sane(t) && (Settled(s) ==> Settled(t))
  {
    var o :| Good(s, o);
    var n := StartIsGood(s, o, id, thread, parent, delta, start);
    if Settled(s) {
      InsertStaysSettled(s, Newcomer(id, thread, StartClock(s, parent, delta, start)));
    }
  }

  lemma MoveKeeps(s: List, i: nat, pred: nat, c: int)
    requires Sane(s) && MayMoveTo(s, i, pred, c)
    ensures Sane(AdvancedTo(s, i, c))
  {
    var o :| Good(s, o);
    var n := MoveIsGood(s, o, i, pred, c);
  }

  lemma SaneByClock(s: List)
    requires Sane(s)
    ensures ByClock(s.all)
  {
    var o :| Good(s, o);
    OrderedList(s.all, o);
  }

  // ---------- coming to rest ----------

  predicate NextInLine(s: List, i: nat) {
    s.available && i + 1 == s.g
  }

  predicate Holds(s: List, i: nat) {
    !s.available && i == s.g
  }

  predicate AtToken(s: List, i: nat) {
    NextInLine(s, i) || Holds(s, i)
  }

  // The program tries to go on from the epoch, which may need it: it ends, or has executed for the first
  // time.
  predicate ExecTries(s: List, i: nat, limit: nat)
    requires i < |s.all|
  {
    if Truncates(s, i, limit) then AtToken(s, i) else s.all[i].exec == 0 && NextInLine(s, i)
  }

  predicate DoneTries(s: List, i: nat)
    requires i < |s.all|
  {
    s.all[i].completed && Holds(s, i)
  }

  predicate EndTries(s: List, i: nat)
    requires i < |s.all|
  {
    if s.all[i].nest == 1 then AtToken(s, i) else NextInLine(s, i)
  }

  // The epoch that stood in front of it is next in line now.
  predicate MoveTries(s: List, i: nat, c: int)
    requires i < |s.all|
  {
    Moves(s, i, c) && NextInLine(s, i)
  }

  // A thread that goes on in a new epoch is active there, so the list can come to rest.
  lemma ChangeCanRest(s: List, i: nat, id: Id)
    requires Sane(s) && Running(s, i) && Fresh(s, id)
    ensures CanRest(Changed(s, i, id))
  {
    var o :| Good(s, o);
    var n := ChangeIsGood(s, o, i, id);
  }

  // A list after a change of epochs and some turns can rest, and the epoch is still there.
  lemma AfterChange(s: List, i: nat, id: Id, k: nat, r: List)
    requires Sane(s) && MayChange(s, i, id) && r == Saved(Changed(s, i, id), k)
    ensures CanRest(r) && exists j :: 0 <= j < |r.all| && r.all[j].id == s.all[i].id
  {
    SpawnShifts(s, i, id);
    ChangeCanRest(s, i, id);
    FirstKeeps(s, Change(i, id));
    SavedRests(Changed(s, i, id), k);
    StillListed(Changed(s, i, id), k, i + 1);
  }

  // The rule keeps each epoch on the list.
  lemma StillListed(s: List, k: nat, i: nat)
    requires InRange(s) && i < |s.all|
    ensures exists j :: 0 <= j < |Saved(s, k).all| && Saved(s, k).all[j].id == s.all[i].id
  {
    var a, b := Records(s.all), Records(Saved(s, k).all);
    SavedKeepsRecords(s, k);
    assert a[i] in multiset(a);
    assert a[i] in multiset(b);
    var j :| 0 <= j < |b| && b[j] == a[i];
    assert Saved(s, k).all[j].id == s.all[i].id;
  }

  lemma WithStaysSettled(s: List, i: nat, e: Epoch)
    requires InRange(s) && i < |s.all| && Settled(s)
    requires (NextInLine(s, i) ==> !Ready(e, s.waiting)) && (Holds(s, i) ==> !Finished(e))
    ensures Settled(With(s, i, e))
  {
  }

  lemma {:induction false} AdvancedBehind(all: seq<Epoch>, i: nat, c: int)
    requires i < |all|
    ensures forall j :: i < j < |all| ==> Advanced(all, i, c)[j] == all[j]
    decreases i
  {
    if i > 0 && all[i - 1].clock < c {
      AdvancedBehind(all[i := all[i - 1]][i - 1 := all[i]], i - 1, c);
    }
  }

  // The new clock is later than those of the epoch and of the one in front of it.
  predicate Moves(s: List, i: nat, c: int)
    requires i < |s.all|
  {
    c > s.all[i].clock && i > 0 && c > s.all[i - 1].clock
  }

  lemma AdvanceStaysSettled(s: List, i: nat, c: int)
    requires InRange(s) && Settled(s) && i < s.g && (NextInLine(s, i) ==> !Moves(s, i, c))
    ensures Settled(AdvancedTo(s, i, c))
  {
    AdvancedBehind(s.all, i, c);
  }

  /**
   Nothing is tried after a thread starts to wait. The list is at rest then exactly if the epoch is not
   next in line with the token available and an instruction fetched.
   */
  lemma WaitMayUnsettle(s: List, i: nat)
    requires InRange(s) && May(s, Wait(i)) && Settled(s)
    ensures Settled(First(s, Wait(i))) <==> !(s.available && i + 1 == s.g && s.all[i].pend > 0)
  {
    if s.available && s.g > 0 && s.g - 1 != i {
      assert s.all[s.g - 1].thread != s.all[i].thread;
    }
  }

  // ---------- runs ----------

  function Empty(): (s: List)
    ensures InRange(s) && Settled(s)
  {
    List([], 0, true, {})
  }

  // What happens, and how many turns of the rule follow it.
  datatype Turn = Turn(event: Event, saves: nat)

  ghost predicate Steps(s: List, u: Turn, t: List) {
    InRange(s) && May(s, u.event) && t == Saved(First(s, u.event), u.saves)
  }

  ghost predicate Run(r: seq<List>, us: seq<Turn>) {
    |r| == |us| + 1 && r[0] == Empty() && forall i :: 0 <= i < |us| ==> Steps(r[i], us[i], r[i + 1])
  }

  // A list of one epoch in front of the available token.
  function OnlyOne(e: Epoch, waiting: set<nat>): List {
    List([e], 1, true, waiting)
  }

  /** It does happen that a list at rest is not at rest any more after a thread starts to wait. */
  lemma WaitUnsettles() returns (r: seq<List>, us: seq<Turn>)
    ensures Run(r, us) && |us| == 5 && us[4].event == Wait(0)
    ensures InRange(r[4]) && InRange(r[5]) && Settled(r[4]) && !Settled(r[5])
  {
    var e := Newcomer(0, 0, 7);
    us := [Turn(Start(0, 0, -1, 0, 7), 0), Turn(Pend(0), 0), Turn(BeginAtomic(0), 0), Turn(Exec(0, 1, 0), 0), Turn(Wait(0), 0)];
    r := [Empty(), OnlyOne(e, {}), OnlyOne(e.(pend := 1), {}), OnlyOne(e.(pend := 1, nest := 1), {}),
          OnlyOne(e.(pend := 1, nest := 1, exec := 1), {}), OnlyOne(e.(pend := 1, nest := 1, exec := 1), {0})];
    assert Placed([], e) == [e];
    assert Steps(r[0], us[0], r[1]);
    assert Steps(r[1], us[1], r[2]);
    assert Steps(r[2], us[2], r[3]);
    assert Steps(r[3], us[3], r[4]);
    assert Steps(r[4], us[4], r[5]);
  }

  function CommittedOf(s: List): seq<Epoch>
    requires InRange(s)
  {
    s.all[Live(s)..]
  }

  // The epochs behind the token, and no others, have committed, each of them finished; the one at it
  // is GlobalSafe, and no other.
  predicate Marked(s: List) {
    forall i :: 0 <= i < |s.all| ==>
      && (s.all[i].phase == Committed <==> i >= Live(s))
      && (s.all[i].phase == GlobalSafe <==> s.g <= i < Live(s))
      && (s.all[i].phase == Committed ==> Finished(s.all[i]))
  }

  // In each thread only the oldest uncommitted epoch is past Spec.
  predicate SafeOnce(s: List) {
    forall i, j :: 0 <= i < j < |s.all| && j < Live(s) && s.all[i].thread == s.all[j].thread ==> s.all[i].phase == Spec
  }

  // Newest first, each epoch once.
  ghost predicate InOrder(s: List) {
    InRange(s) && ByClock(s.all) && DistinctIds(s.all) && Marked(s) && SafeOnce(s)
  }

  lemma GoodIsInOrder(s: List, o: Order)
    requires Good(s, o)
    ensures InOrder(s) && CommittedOf(s) == o.behind
  {
    assert s.all == o.All();
    GoodIsMarked(s, o);
    GoodIsSafeOnce(s, o);
    CommittedIsBehind(s, o);
  }

  lemma CommittedIsBehind(s: List, o: Order)
    requires Splits(s, o)
    ensures CommittedOf(s) == o.behind
  {
  }

  lemma GoodIsMarked(s: List, o: Order)
    requires Splits(s, o) && Phases(o) && forall i :: 0 <= i < |s.all| ==> Counted(s.all[i])
    ensures Marked(s)
  {
    forall i | 0 <= i < |s.all|
      ensures (s.all[i].phase == Committed <==> i >= Live(s)) && (s.all[i].phase == GlobalSafe <==> s.g <= i < Live(s))
    {
      assert i < s.g ==> s.all[i] == o.front[i];
      assert i >= Live(s) ==> s.all[i] == o.behind[i - Live(s)];
      assert s.g <= i < Live(s) ==> s.all[i] == o.token[0];
    }
  }

  lemma GoodIsSafeOnce(s: List, o: Order)
    requires Splits(s, o) && OldestSafe(o.Live())
    ensures SafeOnce(s)
  {
    assert forall i :: 0 <= i < |o.Live()| ==> s.all[i] == o.Live()[i];
    forall i, j | 0 <= i < j < |s.all| && j < Live(s) && s.all[i].thread == s.all[j].thread
      ensures s.all[i].phase == Spec
    {
      OneSafeInThread(o.Live(), i, j);
    }
  }

  lemma SaneIsInOrder(s: List)
    requires Sane(s)
    ensures InOrder(s)
  {
    var o :| Good(s, o);
    GoodIsInOrder(s, o);
  }

  lemma StepKeeps(s: List, u: Turn, t: List)
    requires Sane(s) && Steps(s, u, t)
    ensures Sane(t) && InRange(t) && Extends(CommittedOf(s), CommittedOf(t))
  {
    var o :| Good(s, o);
    var m := FirstIsGood(s, o, u.event);
    var n := SavedIsGood(First(s, u.event), m, u.saves);
    CommittedIsBehind(s, o);
    CommittedIsBehind(t, n);
  }

  lemma Reached(r: seq<List>, us: seq<Turn>, i: nat)
    requires Run(r, us) && i < |r|
    ensures Sane(r[i])
  {
    assert Good(r[0], Order([], [], []));
    for k := 0 to i
      invariant Sane(r[k])
    {
      assert Steps(r[k], us[k], r[k + 1]);
      StepKeeps(r[k], us[k], r[k + 1]);
    }
  }

  lemma GoesOn(r: seq<List>, us: seq<Turn>, i: nat, j: nat)
    requires Run(r, us) && i <= j < |r| && Sane(r[i]) && InRange(r[i])
    ensures InRange(r[j]) && Extends(CommittedOf(r[i]), CommittedOf(r[j]))
  {
    ghost var c := CommittedOf(r[i]);
    for k := i to j
      invariant Sane(r[k]) && InRange(r[k]) && Extends(c, CommittedOf(r[k]))
    {
      assert Steps(r[k], us[k], r[k + 1]);
      StepKeeps(r[k], us[k], r[k + 1]);
      ExtendsTrans(c, CommittedOf(r[k]), CommittedOf(r[k + 1]));
    }
  }

  /**
   In every run the list is in order at all times. What has committed at one time stays as it is later
   on, and all that commits joins it in front, so epochs commit in the order of their clocks.
   */
  lemma EveryRunCommitsInOrder(r: seq<List>, us: seq<Turn>, i: nat, j: nat)
    requires Run(r, us) && i <= j < |r|
    ensures InOrder(r[i]) && InOrder(r[j]) && Extends(CommittedOf(r[i]), CommittedOf(r[j]))
  {
    Reached(r, us, i);
    Reached(r, us, j);
    SaneIsInOrder(r[i]);
    SaneIsInOrder(r[j]);
    GoesOn(r, us, i, j);
  }
}
