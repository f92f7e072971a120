/**
 The global list of epochs as a value: sorted by clock, newest first. The committed epochs are at
 its end, the one epoch that may hold the GlobalSafe token is in front of them.
 */
module EpochOrder {
  type Id = nat

  datatype Phase = Spec | ThreadSafe | GlobalSafe | Committed

  // `nest` is how many atomic sections the epoch is in; `pend`, `exec` and `done` count the instructions
  // fetched, executed and retired.
  datatype Epoch = Epoch(id: Id, thread: nat, clock: int, phase: Phase, completed: bool, nest: nat,
                         pend: nat, exec: nat, done: nat)

  // The list is front + token + behind.
  datatype Order = Order(front: seq<Epoch>, token: seq<Epoch>, behind: seq<Epoch>) {
    function All(): seq<Epoch> { Live() + behind }

    // The epochs that have not committed.
    function Live(): seq<Epoch> { if token == [] then front else front + token }
  }

  ghost predicate ByClock(s: seq<Epoch>) {
    forall i, j :: 0 <= i < j < |s| ==> s[i].clock >= s[j].clock
  }

  ghost predicate DistinctIds(s: seq<Epoch>) {
    forall i, j :: 0 <= i < j < |s| ==> s[i].id != s[j].id
  }

  ghost predicate NoneOf(s: seq<Epoch>, thread: nat) {
    forall x :: x in s ==> x.thread != thread
  }

  // In each thread the oldest uncommitted epoch, and no other, is past Spec.
  ghost predicate OldestSafe(s: seq<Epoch>) {
    s != [] ==> (s[0].phase != Spec <==> NoneOf(s[1..], s[0].thread)) && OldestSafe(s[1..])
  }

  ghost predicate Phases(o: Order) {
    && (forall x :: x in o.front ==> x.phase == Spec || x.phase == ThreadSafe)
    && (|o.token| <= 1 && forall x :: x in o.token ==> x.phase == GlobalSafe)
    && forall x :: x in o.behind ==> x.phase == Committed
  }

  ghost predicate Ordered(o: Order) {
    Phases(o) && ByClock(o.All()) && DistinctIds(o.All()) && OldestSafe(o.Live())
  }

  // ---------- lists in parts ----------

  ghost predicate Above(a: seq<Epoch>, b: seq<Epoch>) {
    forall x, y :: x in a && y in b ==> x.clock >= y.clock
  }

  ghost predicate Disjoint(a: seq<Epoch>, b: seq<Epoch>) {
    forall x, y :: x in a && y in b ==> x.id != y.id
  }

  lemma Parts(a: seq<Epoch>, b: seq<Epoch>)
    ensures ByClock(a + b) <==> ByClock(a) && ByClock(b) && Above(a, b)
    ensures DistinctIds(a + b) <==> DistinctIds(a) && DistinctIds(b) && Disjoint(a, b)
  {
    var s := a + b;
    assert forall i :: 0 <= i < |a| ==> s[i] == a[i];
    assert forall i :: 0 <= i < |b| ==> s[|a| + i] == b[i];
    assert forall i :: |a| <= i < |s| ==> s[i] == b[i - |a|];
  }

  lemma {:induction false} TailIsSafe(a: seq<Epoch>, b: seq<Epoch>)
    requires OldestSafe(a + b)
    ensures OldestSafe(b)
  {
    if a == [] {
      assert a + b == b;
    } else {
      assert (a + b)[1..] == a[1..] + b;
      TailIsSafe(a[1..], b);
    }
  }

  // Only the threads that are there matter to the epochs in front of a list.
  lemma {:induction false} SameBehind(a: seq<Epoch>, b: seq<Epoch>, b': seq<Epoch>)
    requires OldestSafe(a + b) && OldestSafe(b')
    requires forall x :: x in a ==> (NoneOf(b, x.thread) <==> NoneOf(b', x.thread))
    ensures OldestSafe(a + b')
  {
    if a == [] {
      assert a + b' == b';
    } else {
      assert (a + b)[1..] == a[1..] + b && (a + b')[1..] == a[1..] + b';
      SameBehind(a[1..], b, b');
      assert NoneOf(a[1..] + b, a[0].thread) <==> NoneOf(a[1..], a[0].thread) && NoneOf(b, a[0].thread);
      assert NoneOf(a[1..] + b', a[0].thread) <==> NoneOf(a[1..], a[0].thread) && NoneOf(b', a[0].thread);
    }
  }

  // ---------- what the order is for ----------

  /** When an epoch is GlobalSafe, the epochs behind it are those that have committed; no other is. */
  lemma OneGlobalSafe(o: Order, i: nat, j: nat)
    requires Ordered(o) && i < j < |o.All()|
    ensures o.All()[i].phase == GlobalSafe || o.All()[i].phase == Committed ==> o.All()[j].phase == Committed
    ensures o.All()[i].clock >= o.All()[j].clock
  {
    var s := o.All();
    assert i < |o.front| ==> s[i] == o.front[i];
    assert |o.front| <= i < |o.Live()| ==> s[i] == o.token[i - |o.front|];
    assert |o.Live()| <= j ==> s[j] == o.behind[j - |o.Live()|];
  }

  /** No two epochs of a thread are past Spec and uncommitted. */
  lemma {:induction false} OneSafeInThread(s: seq<Epoch>, i: nat, j: nat)
    requires OldestSafe(s) && i < j < |s| && s[i].thread == s[j].thread
    ensures s[i].phase == Spec
  {
    if i > 0 {
      OneSafeInThread(s[1..], i - 1, j - 1);
    } else {
      assert s[1..][j - 1] == s[j];
    }
  }

  // ---------- the steps ----------

  // The new epoch is ThreadSafe exactly if its thread has no uncommitted epoch behind it; a thread
  // that has one behind has no other way to get one in front.
  ghost predicate MayInsert(o: Order, a: seq<Epoch>, e: Epoch, b: seq<Epoch>) {
    && o.front == a + b
    && (forall x :: x in a ==> x.clock >= e.clock) && (forall x :: x in b + o.token + o.behind ==> x.clock <= e.clock)
    && (forall x :: x in o.All() ==> x.id != e.id)
    && (e.phase == Spec || e.phase == ThreadSafe)
    && (e.phase == ThreadSafe <==> NoneOf(b + o.token, e.thread))
    && (NoneOf(b + o.token, e.thread) ==> NoneOf(a, e.thread))
  }

  lemma InsertKeepsClocks(a: seq<Epoch>, e: Epoch, rest: seq<Epoch>)
    requires ByClock(a + rest) && DistinctIds(a + rest)
    requires (forall x :: x in a ==> x.clock >= e.clock) && (forall x :: x in rest ==> x.clock <= e.clock)
    requires forall x :: x in a || x in rest ==> x.id != e.id
    ensures ByClock(a + ([e] + rest)) && DistinctIds(a + ([e] + rest))
  {
    Parts(a, rest);
    Parts([e], rest);
    Parts(a, [e] + rest);
  }

  lemma DropKeepsClocks(a: seq<Epoch>, e: Epoch, rest: seq<Epoch>)
    requires ByClock(a + ([e] + rest)) && DistinctIds(a + ([e] + rest))
    ensures ByClock(a + rest) && DistinctIds(a + rest)
    ensures forall x :: x in a || x in rest ==> x.id != e.id
    ensures forall x :: x in rest ==> x.clock <= e.clock
  {
    Parts(a, [e] + rest);
    Parts([e], rest);
    Parts(a, rest);
    assert e in [e] + rest;
    assert forall x :: x in rest ==> x in [e] + rest;
  }

  lemma Regroup(a: seq<Epoch>, b: seq<Epoch>, c: seq<Epoch>)
    ensures (a + b) + c == a + (b + c)
  {
  }

  // The list of an order whose front comes in two parts.
  lemma FrontParts(o: Order, a: seq<Epoch>, b: seq<Epoch>)
    requires o.front == a + b
    ensures o.All() == a + (b + o.token + o.behind) && o.Live() == a + (b + o.token)
  {
  }

  lemma FrontWith(o: Order, a: seq<Epoch>, e: Epoch, b: seq<Epoch>)
    requires o.front == a + ([e] + b)
    ensures o.All() == a + ([e] + (b + o.token + o.behind)) && o.Live() == a + ([e] + (b + o.token))
  {
    FrontParts(o, a, [e] + b);
    assert [e] + b + o.token + o.behind == [e] + (b + o.token + o.behind) && [e] + b + o.token == [e] + (b + o.token);
  }

  lemma InsertKeepsOrder(o: Order, a: seq<Epoch>, e: Epoch, b: seq<Epoch>)
    requires Ordered(o) && MayInsert(o, a, e, b)
    ensures Ordered(o.(front := a + ([e] + b)))
  {
    var n := o.(front := a + ([e] + b));
    var rest := b + o.token + o.behind;
    FrontParts(o, a, b);
    FrontWith(n, a, e, b);
    InsertKeepsClocks(a, e, rest);
    InsertKeepsSafe(a, e, b + o.token);
    assert forall x :: x in n.front ==> x == e || x in o.front;
  }

  lemma InsertKeepsSafe(a: seq<Epoch>, e: Epoch, b: seq<Epoch>)
    requires OldestSafe(a + b)
    requires e.phase != Spec <==> NoneOf(b, e.thread)
    requires NoneOf(b, e.thread) ==> NoneOf(a, e.thread)
    ensures OldestSafe(a + ([e] + b))
  {
    TailIsSafe(a, b);
    assert ([e] + b)[1..] == b;
    assert forall t :: NoneOf([e] + b, t) <==> t != e.thread && NoneOf(b, t);
    SameBehind(a, b, [e] + b);
  }

  // An epoch's clock grows past those of `passed`.
  ghost predicate MayAdvance(o: Order, a: seq<Epoch>, passed: seq<Epoch>, e: Epoch, b: seq<Epoch>, clock: int) {
    && o.front == a + (passed + ([e] + b)) && e.clock <= clock
    && (forall x :: x in a ==> x.clock >= clock) && (forall x :: x in passed ==> x.clock <= clock)
    && NoneOf(a + passed, e.thread)
  }

  lemma AdvanceKeepsOrder(o: Order, a: seq<Epoch>, passed: seq<Epoch>, e: Epoch, b: seq<Epoch>, clock: int)
    requires Ordered(o) && MayAdvance(o, a, passed, e, b, clock)
    ensures Ordered(o.(front := a + ([e.(clock := clock)] + (passed + b))))
  {
    var w := o.(front := a + (passed + b));
    Regroup(a, passed, [e] + b);
    Regroup(a, passed, b);
    DropKeepsOrder(o, a + passed, e, b);
    assert forall x :: x in passed + b + o.token + o.behind <==> x in passed || x in b + o.token + o.behind;
    assert forall x :: x in w.All() <==> x in a + passed || x in b + o.token + o.behind;
    assert NoneOf((passed + b) + o.token, e.thread) <==> NoneOf(passed, e.thread) && NoneOf(b + o.token, e.thread);
    InsertKeepsOrder(w, a, e.(clock := clock), passed + b);
  }

  lemma DropKeepsOrder(o: Order, a: seq<Epoch>, e: Epoch, b: seq<Epoch>)
    requires Ordered(o) && o.front == a + ([e] + b) && NoneOf(a, e.thread)
    ensures Ordered(o.(front := a + b))
    ensures forall x :: x in a || x in b + o.token + o.behind ==> x.id != e.id
    ensures forall x :: x in b + o.token + o.behind ==> x.clock <= e.clock
    ensures e.phase == ThreadSafe <==> NoneOf(b + o.token, e.thread)
    ensures e.phase == Spec || e.phase == ThreadSafe
  {
    var n := o.(front := a + b);
    FrontWith(o, a, e, b);
    FrontParts(n, a, b);
    DropKeepsClocks(a, e, b + o.token + o.behind);
    DropKeepsSafe(a, e, b + o.token);
    TailIsSafe(a, [e] + (b + o.token));
    assert ([e] + (b + o.token))[1..] == b + o.token;
    assert e in o.front;
  }

  lemma DropKeepsSafe(a: seq<Epoch>, e: Epoch, b: seq<Epoch>)
    requires OldestSafe(a + ([e] + b)) && NoneOf(a, e.thread)
    ensures OldestSafe(a + b)
  {
    TailIsSafe(a, [e] + b);
    assert ([e] + b)[1..] == b;
    assert forall t :: NoneOf([e] + b, t) <==> t != e.thread && NoneOf(b, t);
    SameBehind(a, [e] + b, b);
  }

  lemma GlobalSaveKeepsOrder(o: Order, f: seq<Epoch>, e: Epoch)
    requires Ordered(o) && o.token == [] && o.front == f + [e] && e.phase == ThreadSafe
    ensures Ordered(Order(f, [e.(phase := GlobalSafe)], o.behind))
  {
    var e' := e.(phase := GlobalSafe);
    var n := Order(f, [e'], o.behind);
    assert o.All() == f + ([e] + o.behind);
    assert n.All() == f + ([e'] + o.behind);
    Parts(f, [e] + o.behind);
    Parts([e], o.behind);
    Parts([e'], o.behind);
    Parts(f, [e'] + o.behind);
    assert o.Live() == f + [e];
    TailIsSafe(f, [e]);
    SameBehind(f, [e], [e']);
  }

  // The GlobalSafe epoch commits, and the front becomes f.
  function AfterCommit(o: Order, f: seq<Epoch>): Order
    requires |o.token| == 1
  {
    Order(f, [], [o.token[0].(phase := Committed)] + o.behind)
  }

  lemma CommitKeepsClocks(o: Order, f: seq<Epoch>)
    requires ByClock(o.All()) && DistinctIds(o.All()) && |o.token| == 1 && SameRanks(o.front, f)
    ensures ByClock(AfterCommit(o, f).All()) && DistinctIds(AfterCommit(o, f).All())
  {
    var t := [o.token[0].(phase := Committed)];
    SameRanksAppend(o.front, o.token, f, t);
    SameRanksAppend(o.Live(), o.behind, f + t, o.behind);
    SameKeys(o.All(), f + t + o.behind);
    assert f + (t + o.behind) == f + t + o.behind;
  }

  ghost predicate SameRanks(s: seq<Epoch>, t: seq<Epoch>) {
    |s| == |t| && forall i :: 0 <= i < |s| ==> t[i].clock == s[i].clock && t[i].id == s[i].id
  }

  lemma SameRanksAppend(a: seq<Epoch>, b: seq<Epoch>, a': seq<Epoch>, b': seq<Epoch>)
    requires SameRanks(a, a') && SameRanks(b, b')
    ensures SameRanks(a + b, a' + b')
  {
  }

  lemma SameKeys(s: seq<Epoch>, t: seq<Epoch>)
    requires SameRanks(s, t)
    ensures ByClock(s) <==> ByClock(t)
    ensures DistinctIds(s) <==> DistinctIds(t)
  {
  }

  lemma NextIsSafe(a: seq<Epoch>, m: Epoch, b: seq<Epoch>, e: Epoch)
    requires OldestSafe(a + ([m] + (b + [e]))) && m.thread == e.thread && NoneOf(b, e.thread)
    ensures OldestSafe(a + ([m.(phase := ThreadSafe)] + b))
  {
    var was, now := [m] + (b + [e]), [m.(phase := ThreadSafe)] + b;
    TailIsSafe(a, was);
    assert was[1..] == b + ([e] + []) && now[1..] == b && b + [] == b;
    DropKeepsSafe(b, e, []);
    assert forall t :: NoneOf(was, t) <==> t != m.thread && NoneOf(b, t);
    assert forall t :: NoneOf(now, t) <==> t != m.thread && NoneOf(b, t);
    SameBehind(a, was, now);
  }

  lemma NoNextIsSafe(b: seq<Epoch>, e: Epoch)
    requires OldestSafe(b + [e]) && NoneOf(b, e.thread)
    ensures OldestSafe(b)
  {
    assert [e] + [] == [e] && b + [] == b;
    DropKeepsSafe(b, e, []);
  }

  // The counters of an epoch change.
  ghost predicate SameStanding(x: Epoch, y: Epoch) {
    x.id == y.id && x.thread == y.thread && x.clock == y.clock && x.phase == y.phase
  }

  lemma {:induction false} ProgressKeepsSafe(s: seq<Epoch>, t: seq<Epoch>)
    requires |s| == |t| && OldestSafe(s) && forall i :: 0 <= i < |s| ==> SameStanding(s[i], t[i])
    ensures OldestSafe(t)
  {
    if s != [] {
      ProgressKeepsSafe(s[1..], t[1..]);
      assert forall i :: 0 <= i < |s| - 1 ==> t[1..][i].thread == s[1..][i].thread;
      SameThreads(s[1..], t[1..], s[0].thread);
    }
  }

  lemma SameThreads(s: seq<Epoch>, t: seq<Epoch>, thread: nat)
    requires |s| == |t| && forall i :: 0 <= i < |s| ==> SameStanding(s[i], t[i])
    ensures NoneOf(s, thread) <==> NoneOf(t, thread)
  {
    assert forall i :: 0 <= i < |s| ==> s[i] in s && t[i] in t;
  }

  lemma ProgressKeepsOrder(o: Order, n: Order)
    requires Ordered(o) && |n.front| == |o.front| && |n.token| == |o.token| && n.behind == o.behind
    requires forall i :: 0 <= i < |o.Live()| ==> SameStanding(o.Live()[i], n.Live()[i])
    ensures Ordered(n)
  {
    SameRanksAppend(o.Live(), o.behind, n.Live(), o.behind);
    SameKeys(o.All(), n.All());
    ProgressKeepsSafe(o.Live(), n.Live());
    assert forall i :: 0 <= i < |o.front| ==> n.Live()[i] == n.front[i] && o.Live()[i] == o.front[i];
    assert |o.token| == 1 ==> n.Live()[|o.front|] == n.token[0] && o.Live()[|o.front|] == o.token[0];
  }
}
