/**
 How the token of the epochs is passed on, as a function on the list: the epoch next in line takes the
 token, or goes behind an active one if it waits; the holder commits once it has finished. A step of
 the program changes the list and then follows this rule until it comes to rest.
 */
module EpochSaving {
  import opened EpochOrder

  // The thread of the epoch neither waits nor has completed the epoch.
  predicate Active(x: Epoch, waiting: set<nat>) {
    x.thread !in waiting && !x.completed
  }

  // What moving and saving epochs leaves alone.
  datatype Key = Key(id: Id, thread: nat, completed: bool)

  function KeyOf(x: Epoch): Key {
    Key(x.id, x.thread, x.completed)
  }

  ghost function Keys(s: seq<Epoch>): set<Key> {
    set x | x in s :: KeyOf(x)
  }

  lemma KeysAppend(a: seq<Epoch>, b: seq<Epoch>)
    ensures Keys(a + b) == Keys(a) + Keys(b)
  {
  }

  lemma KeysOne(x: Epoch)
    ensures Keys([x]) == {KeyOf(x)}
  {
  }

  lemma SameKeySets(s: seq<Epoch>, t: seq<Epoch>)
    requires |s| == |t| && forall i :: 0 <= i < |s| ==> KeyOf(s[i]) == KeyOf(t[i])
    ensures Keys(s) == Keys(t)
  {
    assert forall i :: 0 <= i < |s| ==> s[i] in s && t[i] in t;
  }

  // Some epoch is active.
  ghost predicate SomeActive(keys: set<Key>, waiting: set<nat>) {
    exists k :: k in keys && k.thread !in waiting && !k.completed
  }

  // A thread that waits has one epoch only.
  ghost predicate Alone(keys: set<Key>, waiting: set<nat>) {
    forall j, k :: j in keys && k in keys && j.thread == k.thread && j.thread in waiting ==> j.id == k.id
  }

  ghost predicate Sound(o: Order, waiting: set<nat>) {
    Ordered(o) && Alone(Keys(o.Live()), waiting)
  }

  // How many epochs at the end of the list come before an active one.
  ghost function Ahead(s: seq<Epoch>, waiting: set<nat>): nat {
    if s == [] || Active(s[|s| - 1], waiting) then 0 else 1 + Ahead(s[..|s| - 1], waiting)
  }

  lemma {:induction false} AheadOfActive(s: seq<Epoch>, t: seq<Epoch>, waiting: set<nat>, k: nat)
    requires k < |t| && Active(t[k], waiting)
    ensures Ahead(s + t, waiting) == Ahead(t, waiting)
  {
    var n := |t| - 1;
    assert (s + t)[|s + t| - 1] == t[n];
    assert (s + t)[..|s + t| - 1] == s + t[..n];
    if !Active(t[n], waiting) {
      AheadOfActive(s, t[..n], waiting, k);
    }
  }

  // What stands in the way of the epoch that is next for the token is not this.
  predicate Ready(x: Epoch, waiting: set<nat>) {
    x.phase == ThreadSafe && x.pend > 0 && (x.thread in waiting || (x.nest == 0 && x.exec > 0))
  }

  predicate Finished(x: Epoch) {
    x.completed && x.done == x.pend
  }

  // Epochs that had committed still have, in the same order; others have joined them in front.
  predicate Extends(a: seq<Epoch>, b: seq<Epoch>) {
    |a| <= |b| && forall i :: 0 <= i < |a| ==> a[i] == b[|b| - |a| + i]
  }

  lemma ExtendsTrans(a: seq<Epoch>, b: seq<Epoch>, c: seq<Epoch>)
    requires Extends(a, b) && Extends(b, c)
    ensures Extends(a, c)
  {
  }

  // ---------- the list as the program has it, and the rule ----------

  // `g` is where the token stands: in front of it everything is uncommitted, behind it everything has
  // committed, and the epoch at it is GlobalSafe unless the token is available.
  datatype List = List(all: seq<Epoch>, g: nat, available: bool, waiting: set<nat>)

  predicate InRange(s: List) {
    if s.available then s.g <= |s.all| else s.g < |s.all|
  }

  // The parts of a list.
  ghost predicate Splits(s: List, o: Order) {
    && s.all == o.front + (o.token + o.behind) && |o.front| == s.g
    && |o.token| == if s.available then 0 else 1
  }

  // The last of the first k epochs that belongs to the thread, or -1.
  function NextOf(all: seq<Epoch>, k: nat, thread: nat): (m: int)
    requires k <= |all|
    ensures -1 <= m < k && (m >= 0 ==> all[m].thread == thread)
  {
    if k == 0 then -1 else if all[k - 1].thread == thread then k - 1 else NextOf(all, k - 1, thread)
  }

  // The last of the first k epochs that is active, or -1.
  function Nearest(all: seq<Epoch>, k: nat, waiting: set<nat>): (m: int)
    requires k <= |all|
    ensures -1 <= m < k && (m >= 0 ==> Active(all[m], waiting))
  {
    if k == 0 then -1 else if Active(all[k - 1], waiting) then k - 1 else Nearest(all, k - 1, waiting)
  }

  // The epoch at i gets the clock c and moves forward past all that are older.
  function Advanced(all: seq<Epoch>, i: nat, c: int): (r: seq<Epoch>)
    requires i < |all|
    ensures |r| == |all|
    decreases i
  {
    if i == 0 || all[i - 1].clock >= c then all[i := all[i].(clock := c)]
    else Advanced(all[i := all[i - 1]][i - 1 := all[i]], i - 1, c)
  }

  // The epoch next in line takes the token.
  function Taken(s: List): List
    requires InRange(s) && s.available && s.g > 0
  {
    s.(all := s.all[s.g - 1 := s.all[s.g - 1].(phase := GlobalSafe)], g := s.g - 1, available := false)
  }

  // The holder of the token commits, and the next epoch of its thread becomes ThreadSafe.
  function Freed(s: List): List
    requires InRange(s) && !s.available
  {
    s.(all := CommitMarks(s.all, s.g, NextOf(s.all, s.g, s.all[s.g].thread)), available := true)
  }

  // The epoch next in line goes past the nearest active one.
  function Deferred(s: List): List
    requires InRange(s) && s.available && s.g > 0 && Nearest(s.all, s.g, s.waiting) >= 0
  {
    s.(all := Advanced(s.all, s.g - 1, s.all[Nearest(s.all, s.g, s.waiting)].clock + 1))
  }

  // The rule. What it cannot go on with stays as it is.
  function Save(s: List): (r: List)
    requires InRange(s)
    ensures InRange(r) && r.waiting == s.waiting
  {
    if !s.available then if Finished(s.all[s.g]) then Freed(s) else s
    else if s.g == 0 || !Ready(s.all[s.g - 1], s.waiting) then s
    else if s.all[s.g - 1].thread !in s.waiting then Taken(s)
    else if Nearest(s.all, s.g, s.waiting) >= 0 then Deferred(s)
    else s
  }

  function Saved(s: List, k: nat): (r: List)
    requires InRange(s)
    ensures InRange(r) && r.waiting == s.waiting
    decreases k
  {
    if k == 0 then s else Saved(Save(s), k - 1)
  }

  // Neither can the epoch next in line take the token or give way, nor the holder commit.
  predicate Settled(s: List)
    requires InRange(s)
  {
    if s.available then s.g == 0 || !Ready(s.all[s.g - 1], s.waiting) else !Finished(s.all[s.g])
  }

  lemma {:induction false} SettledStays(s: List, k: nat)
    requires InRange(s) && Settled(s)
    ensures Saved(s, k) == s
  {
    if k > 0 {
      SettledStays(s, k - 1);
    }
  }

  lemma {:induction false} SavedTwice(s: List, j: nat, k: nat)
    requires InRange(s)
    ensures Saved(Saved(s, j), k) == Saved(s, j + k)
    decreases j
  {
    if j > 0 {
      SavedTwice(Save(s), j - 1, k);
    }
  }

  // Some epoch in front of the token is active.
  predicate Open(s: List)
    requires InRange(s)
  {
    exists j :: 0 <= j < s.g && Active(s.all[j], s.waiting)
  }

  // Instructions retire after they execute and execute after they are fetched; what has committed is finished.
  predicate Counted(x: Epoch) {
    x.done <= x.exec <= x.pend && (x.phase == Committed ==> Finished(x))
  }

  ghost predicate Good(s: List, o: Order) {
    Splits(s, o) && Sound(o, s.waiting) && forall i :: 0 <= i < |s.all| ==> Counted(s.all[i])
  }

  // An epoch at the end of the front moves in front of an active one.
  lemma MovedAhead(a: seq<Epoch>, passed: seq<Epoch>, e: Epoch, e': Epoch, waiting: set<nat>)
    requires e.thread in waiting && e'.thread == e.thread
    requires exists k :: 0 <= k < |passed| && Active(passed[k], waiting)
    ensures Ahead(a + ([e'] + passed), waiting) < Ahead(a + (passed + [e]), waiting)
  {
    var k :| 0 <= k < |passed| && Active(passed[k], waiting);
    AheadOfActive(a + [e'], passed, waiting, k);
    AheadOfActive(a, passed, waiting, k);
    assert a + ([e'] + passed) == (a + [e']) + passed;
    var s := a + (passed + [e]);
    assert s[|s| - 1] == e && s[..|s| - 1] == a + passed;
  }

  // The epoch at i gets the clock c and goes in front of those from p on.
  function Shifted(all: seq<Epoch>, p: nat, i: nat, c: int): seq<Epoch>
    requires p <= i < |all|
  {
    all[..p] + ([all[i].(clock := c)] + (all[p..i] + all[i + 1..]))
  }

  // The epoch at i has moved forward to p.
  function Moved(o: Order, p: nat, i: nat, c: int): Order
    requires p <= i < |o.front|
  {
    o.(front := o.front[..p] + ([o.front[i].(clock := c)] + (o.front[p..i] + o.front[i + 1..])))
  }

  lemma MovedKeys(front: seq<Epoch>, p: nat, i: nat, c: int)
    requires p <= i < |front|
    ensures Keys(front[..p] + ([front[i].(clock := c)] + (front[p..i] + front[i + 1..]))) == Keys(front)
  {
    var a, passed, e, e', b := front[..p], front[p..i], front[i], front[i].(clock := c), front[i + 1..];
    assert front == a + (passed + ([e] + b));
    KeysAppend(a, passed + ([e] + b));
    KeysAppend(passed, [e] + b);
    KeysAppend([e], b);
    KeysAppend(a, [e'] + (passed + b));
    KeysAppend([e'], passed + b);
    KeysAppend(passed, b);
    KeysOne(e);
    KeysOne(e');
  }

  lemma MovedIsSound(o: Order, p: nat, i: nat, c: int, waiting: set<nat>)
    requires Sound(o, waiting) && p <= i < |o.front|
    requires o.front[i].clock <= c && NoneOf(o.front[..i], o.front[i].thread)
    requires (forall j :: p <= j < i ==> o.front[j].clock <= c) && (p > 0 ==> o.front[p - 1].clock >= c)
    ensures Sound(Moved(o, p, i, c), waiting) && Keys(Moved(o, p, i, c).front) == Keys(o.front)
  {
    MovedKeys(o.front, p, i, c);
    KeysAppend(o.front, o.token);
    KeysAppend(Moved(o, p, i, c).front, o.token);
    MovedKeepsOrder(o, p, i, c);
  }

  lemma MovedKeepsOrder(o: Order, p: nat, i: nat, c: int)
    requires Ordered(o) && p <= i < |o.front|
    requires o.front[i].clock <= c && NoneOf(o.front[..i], o.front[i].thread)
    requires (forall j :: p <= j < i ==> o.front[j].clock <= c) && (p > 0 ==> o.front[p - 1].clock >= c)
    ensures Ordered(Moved(o, p, i, c))
  {
    FrontClocks(o);
    MayMove(o, p, i, c);
    AdvanceKeepsOrder(o, o.front[..p], o.front[p..i], o.front[i], o.front[i + 1..], c);
  }

  lemma MayMove(o: Order, p: nat, i: nat, c: int)
    requires ByClock(o.front) && p <= i < |o.front|
    requires o.front[i].clock <= c && NoneOf(o.front[..i], o.front[i].thread)
    requires (forall j :: p <= j < i ==> o.front[j].clock <= c) && (p > 0 ==> o.front[p - 1].clock >= c)
    ensures MayAdvance(o, o.front[..p], o.front[p..i], o.front[i], o.front[i + 1..], c)
  {
    ClocksAbove(o.front, p, c);
    ThreeParts(o.front, p, i);
  }

  lemma FrontClocks(o: Order)
    requires Ordered(o)
    ensures ByClock(o.front)
  {
    Parts(o.front, o.token);
    Parts(o.Live(), o.behind);
  }

  lemma ThreeParts(s: seq<Epoch>, p: nat, i: nat)
    requires p <= i < |s|
    ensures s == s[..p] + (s[p..i] + ([s[i]] + s[i + 1..])) && s[..i] == s[..p] + s[p..i]
  {
  }

  // Moving an element within the front of a list.
  lemma MovedList(all: seq<Epoch>, front: seq<Epoch>, tail: seq<Epoch>, p: nat, i: nat, x: Epoch)
    requires all == front + tail && p <= i < |front|
    ensures all[..p] + ([x] + (all[p..i] + all[i + 1..])) == (front[..p] + ([x] + (front[p..i] + front[i + 1..]))) + tail
  {
    assert all[..p] == front[..p] && all[p..i] == front[p..i] && all[i + 1..] == front[i + 1..] + tail;
    Put(front[..p], [x], front[p..i], front[i + 1..], tail);
  }

  lemma ShiftedList(all: seq<Epoch>, o: Order, p: nat, i: nat, c: int)
    requires all == o.front + (o.token + o.behind) && p <= i < |o.front|
    ensures var n := Moved(o, p, i, c); Shifted(all, p, i, c) == n.front + (n.token + n.behind)
  {
    assert all[i] == o.front[i];
    MovedList(all, o.front, o.token + o.behind, p, i, o.front[i].(clock := c));
  }

  lemma Put(a: seq<Epoch>, e: seq<Epoch>, passed: seq<Epoch>, b: seq<Epoch>, tail: seq<Epoch>)
    ensures a + (e + (passed + (b + tail))) == (a + (e + (passed + b))) + tail
  {
  }

  lemma ClocksAbove(s: seq<Epoch>, p: nat, c: int)
    requires ByClock(s) && p <= |s| && (p > 0 ==> s[p - 1].clock >= c)
    ensures forall x :: x in s[..p] ==> x.clock >= c
  {
  }

  // ---------- the token is taken ----------

  function TokenTaken(o: Order): Order
    requires o.front != []
  {
    var k := |o.front| - 1;
    Order(o.front[..k], [o.front[k].(phase := GlobalSafe)], o.behind)
  }

  lemma TokenTakenIsSound(o: Order, waiting: set<nat>)
    requires Sound(o, waiting) && o.token == [] && o.front != [] && o.front[|o.front| - 1].phase == ThreadSafe
    ensures Sound(TokenTaken(o), waiting)
  {
    var k := |o.front| - 1;
    var e, n := o.front[k], TokenTaken(o);
    assert o.front == o.front[..k] + [e];
    GlobalSaveKeepsOrder(o, o.front[..k], e);
    assert o.Live() == o.front;
    SameKeySets(o.Live(), n.Live());
  }

  lemma TokenTakenList(all: seq<Epoch>, o: Order)
    requires o.front != [] && o.token == [] && all == o.front + (o.token + o.behind)
    ensures var k, n := |o.front| - 1, TokenTaken(o);
            all[k := all[k].(phase := GlobalSafe)] == n.front + (n.token + n.behind)
  {
  }

  // ---------- the token holder commits ----------

  // The epoch at m, if there is one, becomes ThreadSafe.
  function NextSaved(f: seq<Epoch>, m: int): (r: seq<Epoch>)
    requires -1 <= m < |f|
    ensures SameRanks(f, r)
    ensures forall i :: 0 <= i < |f| ==> KeyOf(r[i]) == KeyOf(f[i]) && (r[i].phase == f[i].phase || r[i].phase == ThreadSafe)
  {
    if m >= 0 then f[m := f[m].(phase := ThreadSafe)] else f
  }

  // m is the next epoch of the token holder's thread, or -1.
  function CommitDone(o: Order, m: int): Order
    requires |o.token| == 1 && -1 <= m < |o.front|
  {
    AfterCommit(o, NextSaved(o.front, m))
  }

  // The next epoch of the token holder's thread is the one at m, or there is none.
  ghost predicate IsNext(o: Order, m: int) {
    && |o.token| == 1 && -1 <= m < |o.front|
    && (m >= 0 ==> o.front[m].thread == o.token[0].thread)
    && forall j :: m < j < |o.front| ==> o.front[j].thread != o.token[0].thread
  }

  lemma CommitDoneIsSound(o: Order, m: int, waiting: set<nat>)
    requires Sound(o, waiting) && IsNext(o, m)
    ensures Sound(CommitDone(o, m), waiting) && Keys(CommitDone(o, m).front) == Keys(o.front)
  {
    CommitDoneKeys(o, m);
    CommitDoneKeepsOrder(o, m);
  }

  lemma CommitDoneKeys(o: Order, m: int)
    requires |o.token| == 1 && -1 <= m < |o.front|
    ensures Keys(CommitDone(o, m).front) == Keys(o.front) && Keys(CommitDone(o, m).Live()) <= Keys(o.Live())
  {
    var n := CommitDone(o, m);
    KeysAppend(o.front, o.token);
    assert n.Live() == n.front;
    SameKeySets(o.front, n.front);
  }

  lemma CommitDoneKeepsOrder(o: Order, m: int)
    requires Ordered(o) && IsNext(o, m)
    ensures Ordered(CommitDone(o, m))
  {
    CommitKeepsSafe(o, m);
    CommitKeepsClocks(o, NextSaved(o.front, m));
    CommitPhases(o, m);
  }

  lemma CommitKeepsSafe(o: Order, m: int)
    requires OldestSafe(o.Live()) && IsNext(o, m)
    ensures OldestSafe(CommitDone(o, m).Live())
  {
    OneToken(o);
    FrontStaysSafe(o.front, m, o.token[0]);
  }

  lemma OneToken(o: Order)
    requires |o.token| == 1
    ensures o.Live() == o.front + [o.token[0]]
  {
    assert o.token == [o.token[0]];
  }

  lemma FrontStaysSafe(f: seq<Epoch>, m: int, e: Epoch)
    requires OldestSafe(f + [e]) && -1 <= m < |f|
    requires (m >= 0 ==> f[m].thread == e.thread) && forall j :: m < j < |f| ==> f[j].thread != e.thread
    ensures OldestSafe(NextSaved(f, m))
  {
    if m >= 0 {
      NoneBetween(f, m + 1, |f|, e.thread);
      SetInParts(f, m, f[m].(phase := ThreadSafe), [e]);
      NextIsSafe(f[..m], f[m], f[m + 1..], e);
    } else {
      NoNextIsSafe(f, e);
    }
  }

  lemma CommitPhases(o: Order, m: int)
    requires Phases(o) && |o.token| == 1 && -1 <= m < |o.front|
    ensures Phases(CommitDone(o, m))
  {
  }

  lemma SetInParts(s: seq<Epoch>, m: nat, x: Epoch, t: seq<Epoch>)
    requires m < |s|
    ensures s + t == s[..m] + ([s[m]] + (s[m + 1..] + t)) && s[m := x] == s[..m] + ([x] + s[m + 1..]) && s[m + 1..|s|] == s[m + 1..]
  {
  }

  function CommitMarks(all: seq<Epoch>, g: nat, k: int): seq<Epoch>
    requires g < |all| && -1 <= k < g
  {
    var t := all[g := all[g].(phase := Committed)];
    if k >= 0 then t[k := t[k].(phase := ThreadSafe)] else t
  }

  lemma CommitDoneList(all: seq<Epoch>, o: Order, k: int)
    requires |o.token| == 1 && -1 <= k < |o.front| && all == o.front + (o.token + o.behind)
    ensures var n := CommitDone(o, k); CommitMarks(all, |o.front|, k) == n.front + (n.token + n.behind)
  {
  }

  // ---------- the chain of calls ----------

  // A waiting epoch has no other of its thread in front of it.
  lemma AloneInFront(o: Order, i: nat, waiting: set<nat>)
    requires Sound(o, waiting) && i < |o.front| && o.front[i].thread in waiting
    ensures NoneOf(o.front[..i], o.front[i].thread)
  {
    KeysAppend(o.front, o.token);
    FrontClocks(o);
    Parts(o.front, o.token);
    Parts(o.Live(), o.behind);
    forall x | x in o.front[..i]
      ensures x.thread != o.front[i].thread
    {
      var j :| 0 <= j < i && o.front[j] == x;
      assert KeyOf(o.front[j]) in Keys(o.front) && KeyOf(o.front[i]) in Keys(o.front);
    }
  }

  lemma FrontOfList(all: seq<Epoch>, o: Order)
    requires all == o.front + (o.token + o.behind)
    ensures forall j :: 0 <= j < |o.front| ==> o.front[j] == all[j]
  {
  }

  // What the deferral of the epoch that was next in line leaves of an order.
  ghost predicate GaveWay(o: Order, n: Order, waiting: set<nat>) {
    && n.behind == o.behind && n.token == o.token && |n.front| == |o.front|
    && Keys(n.front) == Keys(o.front) && Ahead(n.front, waiting) < Ahead(o.front, waiting)
  }

  // p and c are where epoch i goes and its new clock: past epoch k.
  ghost predicate GoesPast(s: seq<Epoch>, p: nat, i: nat, k: nat, c: int) {
    && p <= i < |s| && k < |s| && c == s[k].clock + 1
    && (forall j :: p <= j < i ==> s[j].clock < c) && (p > 0 ==> s[p - 1].clock >= c)
  }

  lemma DeferredOrder(all: seq<Epoch>, o: Order, p: nat, k: nat, c: int, waiting: set<nat>) returns (n: Order)
    requires Sound(o, waiting) && o.token == [] && o.front != []
    requires all == o.front + (o.token + o.behind) && k < |o.front| && Active(all[k], waiting)
    requires GoesPast(all, p, |o.front| - 1, k, c) && all[|o.front| - 1].thread in waiting
    ensures Sound(n, waiting) && GaveWay(o, n, waiting)
    ensures var i := |o.front| - 1;
      Shifted(all, p, i, c) == n.front + (n.token + n.behind)
  {
    GoesPastInFront(all, o, p, k, c);
    ShiftedList(all, o, p, |o.front| - 1, c);
    n := Moved(o, p, |o.front| - 1, c);
    DeferIsSound(o, p, k, c, waiting);
  }

  lemma GoesPastInFront(all: seq<Epoch>, o: Order, p: nat, k: nat, c: int)
    requires all == o.front + (o.token + o.behind) && o.front != [] && k < |o.front|
    requires GoesPast(all, p, |o.front| - 1, k, c)
    ensures GoesPast(o.front, p, |o.front| - 1, k, c)
    ensures all[|o.front| - 1] == o.front[|o.front| - 1] && all[k] == o.front[k]
  {
    FrontOfList(all, o);
  }

  lemma DeferIsSound(o: Order, p: nat, k: nat, c: int, waiting: set<nat>)
    requires Sound(o, waiting) && o.token == [] && o.front != [] && k < |o.front| && Active(o.front[k], waiting)
    requires GoesPast(o.front, p, |o.front| - 1, k, c) && o.front[|o.front| - 1].thread in waiting
    ensures Sound(Moved(o, p, |o.front| - 1, c), waiting) && GaveWay(o, Moved(o, p, |o.front| - 1, c), waiting)
  {
    PastIsLater(o, p, k, c);
    DeferGivesWay(o.front, p, k, c, waiting);
    AloneInFront(o, |o.front| - 1, waiting);
    MovedIsSound(o, p, |o.front| - 1, c, waiting);
  }

  // The active epoch is not older than the one that goes past it.
  lemma PastIsLater(o: Order, p: nat, k: nat, c: int)
    requires Ordered(o) && o.front != [] && GoesPast(o.front, p, |o.front| - 1, k, c)
    ensures o.front[|o.front| - 1].clock < c && p <= k
  {
    FrontClocks(o);
  }

  lemma DeferGivesWay(front: seq<Epoch>, p: nat, k: nat, c: int, waiting: set<nat>)
    requires front != [] && p <= k < |front| && Active(front[k], waiting) && front[|front| - 1].thread in waiting
    ensures var i := |front| - 1; var r := front[..p] + ([front[i].(clock := c)] + (front[p..i] + front[i + 1..]));
            |r| == |front| && Keys(r) == Keys(front) && Ahead(r, waiting) < Ahead(front, waiting)
  {
    MovedKeys(front, p, |front| - 1, c);
    DeferredAhead(front, p, k, c, waiting);
  }

  lemma CommittedOrder(all: seq<Epoch>, o: Order, k: int, waiting: set<nat>) returns (n: Order)
    requires Sound(o, waiting) && |o.token| == 1 && all == o.front + (o.token + o.behind)
    requires -1 <= k < |o.front| && (k >= 0 ==> all[k].thread == all[|o.front|].thread)
    requires forall j :: k < j < |o.front| ==> all[j].thread != all[|o.front|].thread
    ensures Sound(n, waiting) && |n.front| == |o.front| && n.token == [] && Keys(n.front) == Keys(o.front)
    ensures CommitMarks(all, |o.front|, k) == n.front + (n.token + n.behind)
    ensures n.behind == [o.token[0].(phase := Committed)] + o.behind
  {
    assert all[|o.front|] == o.token[0];
    FrontOfList(all, o);
    CommitDoneIsSound(o, k, waiting);
    CommitDoneList(all, o, k);
    n := CommitDone(o, k);
  }

  lemma DeferredAhead(front: seq<Epoch>, p: nat, k: nat, c: int, waiting: set<nat>)
    requires front != [] && p <= k < |front| - 1 && Active(front[k], waiting)
    requires front[|front| - 1].thread in waiting
    ensures var i := |front| - 1;
      Ahead(front[..p] + ([front[i].(clock := c)] + (front[p..i] + front[i + 1..])), waiting) < Ahead(front, waiting)
  {
    var i := |front| - 1;
    var passed := front[p..i];
    assert passed[k - p] == front[k];
    MovedAhead(front[..p], passed, front[i], front[i].(clock := c), waiting);
    assert front[i + 1..] == [] && passed + front[i + 1..] == passed;
    assert front == front[..p] + (passed + [front[i]]);
  }

  // ---------- the rule keeps the list good ----------

  lemma OpenByKeys(s: List, o: Order)
    requires Splits(s, o)
    ensures Open(s) <==> SomeActive(Keys(o.front), s.waiting)
  {
    FrontOfList(s.all, o);
    forall j | 0 <= j < s.g
      ensures KeyOf(s.all[j]) in Keys(o.front)
    {
      assert o.front[j] in o.front;
    }
    forall k | k in Keys(o.front)
      ensures exists j :: 0 <= j < s.g && KeyOf(s.all[j]) == k
    {
      var x :| x in o.front && KeyOf(x) == k;
      var j :| 0 <= j < |o.front| && o.front[j] == x;
      assert KeyOf(s.all[j]) == k;
    }
  }

  lemma {:induction false} AdvancedIsShifted(all: seq<Epoch>, p: nat, i: nat, c: int)
    requires p <= i < |all| && (forall j :: p <= j < i ==> all[j].clock < c) && (p > 0 ==> all[p - 1].clock >= c)
    ensures Advanced(all, i, c) == Shifted(all, p, i, c)
    decreases i
  {
    if p < i {
      var t := all[i := all[i - 1]][i - 1 := all[i]];
      AdvancedIsShifted(t, p, i - 1, c);
      SwappedParts(all, p, i);
    }
  }

  lemma SwappedParts(all: seq<Epoch>, p: nat, i: nat)
    requires p < i < |all|
    ensures var t := all[i := all[i - 1]][i - 1 := all[i]];
      t[..p] == all[..p] && t[i - 1] == all[i] && t[p..i - 1] + t[i..] == all[p..i] + all[i + 1..]
  {
    var t := all[i := all[i - 1]][i - 1 := all[i]];
    assert t[i..] == [all[i - 1]] + all[i + 1..];
    assert all[p..i] == t[p..i - 1] + [all[i - 1]];
  }

  lemma {:induction false} PlaceOf(all: seq<Epoch>, i: nat, c: int) returns (p: nat)
    requires i < |all|
    ensures p <= i && (forall j :: p <= j < i ==> all[j].clock < c) && (p > 0 ==> all[p - 1].clock >= c)
  {
    p := i;
    while p > 0 && c > all[p - 1].clock
      invariant p <= i
      invariant forall j :: p <= j < i ==> all[j].clock < c
    {
      p := p - 1;
    }
  }

  lemma {:induction false} AdvancedCounted(all: seq<Epoch>, i: nat, c: int)
    requires i < |all| && forall j :: 0 <= j < |all| ==> Counted(all[j])
    ensures forall j :: 0 <= j < |all| ==> Counted(Advanced(all, i, c)[j])
    decreases i
  {
    if i > 0 && all[i - 1].clock < c {
      AdvancedCounted(all[i := all[i - 1]][i - 1 := all[i]], i - 1, c);
    }
  }

  lemma {:induction false} NearestIsFirst(all: seq<Epoch>, k: nat, waiting: set<nat>)
    requires k <= |all|
    ensures forall j :: Nearest(all, k, waiting) < j < k ==> !Active(all[j], waiting)
  {
    if k > 0 && !Active(all[k - 1], waiting) {
      NearestIsFirst(all, k - 1, waiting);
    }
  }

  lemma {:induction false} NextOfIsFirst(all: seq<Epoch>, k: nat, thread: nat)
    requires k <= |all|
    ensures forall j :: NextOf(all, k, thread) < j < k ==> all[j].thread != thread
  {
    if k > 0 && all[k - 1].thread != thread {
      NextOfIsFirst(all, k - 1, thread);
    }
  }

  lemma NoneBetween(all: seq<Epoch>, a: nat, b: nat, thread: nat)
    requires a <= b <= |all| && forall j :: a <= j < b ==> all[j].thread != thread
    ensures NoneOf(all[a..b], thread)
  {
  }

  lemma TakeIsGood(s: List, o: Order) returns (n: Order)
    requires Good(s, o) && s.available && s.g > 0 && s.all[s.g - 1].phase == ThreadSafe
    ensures Good(Taken(s), n) && |n.front| == |o.front| - 1 && |n.token| == 1 && n.behind == o.behind
  {
    FrontOfList(s.all, o);
    TokenTakenIsSound(o, s.waiting);
    TokenTakenList(s.all, o);
    n := TokenTaken(o);
  }

  lemma FreeKeepsCounted(s: List)
    requires InRange(s) && !s.available && Finished(s.all[s.g]) && forall i :: 0 <= i < |s.all| ==> Counted(s.all[i])
    ensures forall i :: 0 <= i < |s.all| ==> Counted(Freed(s).all[i])
  {
  }

  lemma FreeKeepsSound(all: seq<Epoch>, o: Order, g: nat, waiting: set<nat>) returns (n: Order)
    requires Sound(o, waiting) && |o.token| == 1 && all == o.front + (o.token + o.behind) && g == |o.front|
    ensures Sound(n, waiting) && |n.front| == g && n.token == []
    ensures n.behind == [all[g].(phase := Committed)] + o.behind
    ensures CommitMarks(all, g, NextOf(all, g, all[g].thread)) == n.front + (n.token + n.behind)
  {
    assert all[g] == o.token[0];
    var m := NextOf(all, g, all[g].thread);
    NextOfIsFirst(all, g, all[g].thread);
    n := CommittedOrder(all, o, m, waiting);
  }

  // The epoch that commits joins the committed ones in front.
  lemma FreeIsGood(s: List, o: Order) returns (n: Order)
    requires Good(s, o) && !s.available && Finished(s.all[s.g])
    ensures Good(Freed(s), n) && |n.front| == |o.front| && n.token == []
    ensures n.behind == [s.all[s.g].(phase := Committed)] + o.behind
  {
    n := FreeKeepsSound(s.all, o, s.g, s.waiting);
    FreeKeepsCounted(s);
  }

  lemma DeferIsSplit(s: List, o: Order) returns (n: Order)
    requires Splits(s, o) && Sound(o, s.waiting) && s.available && s.g > 0 && s.all[s.g - 1].thread in s.waiting
    requires Nearest(s.all, s.g, s.waiting) >= 0
    ensures Splits(Deferred(s), n) && Sound(n, s.waiting) && GaveWay(o, n, s.waiting)
  {
    var k, i := Nearest(s.all, s.g, s.waiting), s.g - 1;
    var c := s.all[k].clock + 1;
    var p := PlaceOf(s.all, i, c);
    n := DeferredOrder(s.all, o, p, k, c, s.waiting);
    AdvancedIsShifted(s.all, p, i, c);
  }

  lemma DeferIsCounted(s: List)
    requires InRange(s) && s.available && s.g > 0 && Nearest(s.all, s.g, s.waiting) >= 0
    requires forall i :: 0 <= i < |s.all| ==> Counted(s.all[i])
    ensures forall i :: 0 <= i < |s.all| ==> Counted(Deferred(s).all[i])
  {
    AdvancedCounted(s.all, s.g - 1, s.all[Nearest(s.all, s.g, s.waiting)].clock + 1);
  }

  lemma DeferIsGood(s: List, o: Order) returns (n: Order)
    requires Good(s, o) && s.available && s.g > 0 && s.all[s.g - 1].thread in s.waiting
    requires Nearest(s.all, s.g, s.waiting) >= 0
    ensures Good(Deferred(s), n) && GaveWay(o, n, s.waiting)
  {
    DeferIsCounted(s);
    n := DeferIsSplit(s, o);
  }

  lemma SameFrontIsOpen(s: List, o: Order, t: List, n: Order)
    requires Splits(s, o) && Splits(t, n) && t.waiting == s.waiting && Keys(n.front) == Keys(o.front) && Open(s)
    ensures Open(t)
  {
    OpenByKeys(s, o);
    OpenByKeys(t, n);
  }

  // One turn of the rule keeps the list good and the committed epochs in place.
  lemma SaveIsGood(s: List, o: Order) returns (n: Order)
    requires Good(s, o)
    ensures Good(Save(s), n) && Extends(o.behind, n.behind)
  {
    n := o;
    if !s.available {
      if Finished(s.all[s.g]) {
        n := FreeIsGood(s, o);
      }
    } else if s.g > 0 && Ready(s.all[s.g - 1], s.waiting) {
      if s.all[s.g - 1].thread !in s.waiting {
        n := TakeIsGood(s, o);
      } else if Nearest(s.all, s.g, s.waiting) >= 0 {
        n := DeferIsGood(s, o);
      }
    }
  }

  lemma {:induction false} SavedIsGood(s: List, o: Order, k: nat) returns (n: Order)
    requires Good(s, o)
    ensures Good(Saved(s, k), n) && Extends(o.behind, n.behind)
    decreases k
  {
    n := o;
    if k > 0 {
      var m := SaveIsGood(s, o);
      n := SavedIsGood(Save(s), m, k - 1);
      ExtendsTrans(o.behind, m.behind, n.behind);
    }
  }

  ghost predicate Sane(s: List) {
    InRange(s) && exists o :: Good(s, o)
  }

  // How many epochs in front of the token come before an active one.
  ghost function AheadOf(s: List): nat
    requires InRange(s)
  {
    Ahead(s.all[..s.g], s.waiting)
  }

  // How many epochs have not committed.
  function Live(s: List): nat {
    if s.available then s.g else s.g + 1
  }

  lemma FrontIs(s: List, o: Order)
    requires Splits(s, o)
    ensures s.all[..s.g] == o.front && s.all[Live(s)..] == o.behind
  {
  }

  /** Taking the token keeps the list sane. */
  lemma TakeKeeps(s: List)
    requires Sane(s) && s.available && s.g > 0 && s.all[s.g - 1].phase == ThreadSafe
    ensures Sane(Taken(s))
  {
    var o :| Good(s, o);
    var n := TakeIsGood(s, o);
  }

  /** So does the commit of a finished epoch. */
  lemma FreeKeeps(s: List)
    requires Sane(s) && !s.available && Finished(s.all[s.g])
    ensures Sane(Freed(s))
  {
    var o :| Good(s, o);
    var n := FreeIsGood(s, o);
  }

  /** So does giving way, after which fewer epochs stand behind an active one. */
  lemma DeferKeeps(s: List)
    requires Sane(s) && s.available && s.g > 0 && s.all[s.g - 1].thread in s.waiting && Open(s)
    ensures Nearest(s.all, s.g, s.waiting) >= 0 && Sane(Deferred(s)) && Open(Deferred(s))
    ensures AheadOf(Deferred(s)) < AheadOf(s)
  {
    NearestIsFirst(s.all, s.g, s.waiting);
    var o :| Good(s, o);
    var n := DeferIsGood(s, o);
    FrontIs(s, o);
    FrontIs(Deferred(s), n);
    SameFrontIsOpen(s, o, Deferred(s), n);
  }

  // ---------- what the rule does not touch ----------

  function Record(x: Epoch): Epoch {
    x.(clock := 0, phase := Spec)
  }

  function Records(all: seq<Epoch>): seq<Epoch> {
    seq(|all|, i requires 0 <= i < |all| => Record(all[i]))
  }

  lemma {:induction false} AdvancedRecords(all: seq<Epoch>, i: nat, c: int)
    requires i < |all|
    ensures multiset(Records(Advanced(all, i, c))) == multiset(Records(all))
    decreases i
  {
    var t := all[i := all[i].(clock := c)];
    assert Records(t) == Records(all);
    if i > 0 && all[i - 1].clock < c {
      var u, r := all[i := all[i - 1]][i - 1 := all[i]], Records(all);
      assert Records(u) == r[i := r[i - 1]][i - 1 := r[i]];
      AdvancedRecords(u, i - 1, c);
    }
  }

  /** The rule loses no epoch and makes none, and of each it changes the clock and the phase at most. */
  lemma {:induction false} SavedKeepsRecords(s: List, k: nat)
    requires InRange(s)
    ensures multiset(Records(Saved(s, k).all)) == multiset(Records(s.all))
    decreases k
  {
    if k > 0 {
      SaveKeepsRecords(s);
      SavedKeepsRecords(Save(s), k - 1);
    }
  }

  lemma SaveKeepsRecords(s: List)
    requires InRange(s)
    ensures multiset(Records(Save(s).all)) == multiset(Records(s.all))
  {
    if !s.available {
      if Finished(s.all[s.g]) {
        assert Records(Freed(s).all) == Records(s.all);
      }
    } else if s.g > 0 && Ready(s.all[s.g - 1], s.waiting) {
      if s.all[s.g - 1].thread !in s.waiting {
        assert Records(Taken(s).all) == Records(s.all);
      } else if Nearest(s.all, s.g, s.waiting) >= 0 {
        AdvancedRecords(s.all, s.g - 1, s.all[Nearest(s.all, s.g, s.waiting)].clock + 1);
      }
    }
  }

  // ---------- the events ----------

  lemma AdvancedOrder(all: seq<Epoch>, o: Order, p: nat, i: nat, c: int, waiting: set<nat>) returns (n: Order)
    requires Sound(o, waiting) && all == o.front + (o.token + o.behind) && p <= i < |o.front|
    requires all[i].clock < c && NoneOf(all[..i], all[i].thread)
    requires (forall j :: p <= j < i ==> all[j].clock < c) && (p > 0 ==> all[p - 1].clock >= c)
    ensures Sound(n, waiting) && Keys(n.front) == Keys(o.front) && |n.front| == |o.front|
    ensures n.token == o.token && n.behind == o.behind
    ensures Shifted(all, p, i, c) == n.front + (n.token + n.behind)
  {
    FrontOfList(all, o);
    assert all[..i] == o.front[..i];
    n := Moved(o, p, i, c);
    MovedIsSound(o, p, i, c, waiting);
    ShiftedList(all, o, p, i, c);
  }

  // A new epoch may come in: its clock is not older than that of the epoch at the token, and it is
  // ThreadSafe exactly if its thread is new.
  ghost predicate Fits(o: Order, e: Epoch) {
    && !e.completed
    && (forall x :: x in o.token + o.behind ==> x.clock <= e.clock)
    && if e.phase == ThreadSafe then NoneOf(o.Live(), e.thread)
       else e.phase == Spec && exists x :: x in o.Live() && x.thread == e.thread && x.clock <= e.clock
  }

  lemma OrderedList(all: seq<Epoch>, o: Order)
    requires Ordered(o) && all == o.front + (o.token + o.behind)
    ensures ByClock(all)
  {
    assert all == o.All();
  }

  lemma ClockFits(all: seq<Epoch>, o: Order, j: nat, c: int)
    requires Ordered(o) && all == o.front + (o.token + o.behind) && j < |o.front| + |o.token| && all[j].clock <= c
    ensures forall x :: x in o.token + o.behind ==> x.clock <= c
  {
    assert all == o.All();
    var t := o.token + o.behind;
    forall x | x in t
      ensures x.clock <= c
    {
      var k :| 0 <= k < |t| && t[k] == x;
      assert all[|o.front| + k] == x;
    }
  }

  lemma LiveInList(all: seq<Epoch>, o: Order, i: nat)
    requires all == o.front + (o.token + o.behind) && i < |o.front| + |o.token|
    ensures all[i] in o.Live()
  {
    assert all[i] == (o.front + o.token)[i];
    assert o.token == [] ==> o.Live()[i] == all[i];
  }

  lemma TokenFits(all: seq<Epoch>, o: Order)
    requires Ordered(o) && all == o.front + (o.token + o.behind)
    ensures |all| > |o.front| ==> forall x :: x in o.token + o.behind ==> x.clock <= all[|o.front|].clock
    ensures |all| == |o.front| ==> o.token + o.behind == []
  {
    assert all == o.All();
    var t := o.token + o.behind;
    forall k | 0 <= k < |t|
      ensures t[k].clock <= all[|o.front|].clock
    {
      assert all[|o.front| + k] == t[k];
    }
  }

  lemma NewThreadFits(all: seq<Epoch>, o: Order, thread: nat)
    requires all == o.front + (o.token + o.behind) && forall x :: x in all ==> x.thread != thread
    ensures NoneOf(o.Live(), thread)
  {
    assert forall x :: x in o.Live() ==> x in all;
  }

  lemma InsertedOrder(all: seq<Epoch>, o: Order, p: nat, e: Epoch, waiting: set<nat>) returns (n: Order)
    requires Sound(o, waiting) && all == o.front + (o.token + o.behind) && p <= |all|
    requires forall x :: x in all ==> x.id != e.id
    requires Fits(o, e) && (e.thread in waiting ==> e.phase == ThreadSafe)
    requires forall j :: 0 <= j < p ==> all[j].clock > e.clock
    requires forall j :: p <= j < |all| ==> all[j].clock <= e.clock
    ensures p <= |o.front| && Sound(n, waiting)
    ensures |n.front| == |o.front| + 1 && n.token == o.token && n.behind == o.behind
    ensures all[..p] + ([e] + all[p..]) == n.front + (n.token + n.behind)
  {
    InsertedInFront(all, o, p, e);
    var a, b := o.front[..p], o.front[p..];
    n := o.(front := a + ([e] + b));
    assert o.front == a + b;
    MayComeIn(all, o, a, b, e);
    InsertKeepsOrder(o, a, e, b);
    InsertedAlone(o, a, b, e, waiting);
    InsertedList(all, o.front, o.token + o.behind, p, e);
  }

  lemma InsertedList(all: seq<Epoch>, front: seq<Epoch>, tail: seq<Epoch>, p: nat, e: Epoch)
    requires all == front + tail && p <= |front|
    ensures all[..p] + ([e] + all[p..]) == (front[..p] + ([e] + front[p..])) + tail
  {
    assert all[..p] == front[..p] && all[p..] == front[p..] + tail;
    PutOne(front[..p], [e], front[p..], tail);
  }

  lemma PutOne(a: seq<Epoch>, e: seq<Epoch>, b: seq<Epoch>, t: seq<Epoch>)
    ensures a + (e + (b + t)) == (a + (e + b)) + t
  {
  }

  lemma InsertedInFront(all: seq<Epoch>, o: Order, p: nat, e: Epoch)
    requires all == o.front + (o.token + o.behind) && p <= |all|
    requires forall x :: x in o.token + o.behind ==> x.clock <= e.clock
    requires forall j :: 0 <= j < p ==> all[j].clock > e.clock
    ensures p <= |o.front|
  {
    var t := o.token + o.behind;
    assert |all| > |o.front| ==> all[|o.front|] == t[0] && t[0] in t;
  }

  lemma MayComeIn(all: seq<Epoch>, o: Order, a: seq<Epoch>, b: seq<Epoch>, e: Epoch)
    requires o.front == a + b && all == o.front + (o.token + o.behind) && Fits(o, e)
    requires forall x :: x in all ==> x.id != e.id
    requires forall j :: 0 <= j < |a| ==> all[j].clock > e.clock
    requires forall j :: |a| <= j < |all| ==> all[j].clock <= e.clock
    ensures MayInsert(o, a, e, b)
  {
    assert forall j :: 0 <= j < |a| ==> all[j] == a[j];
    assert forall j :: 0 <= j < |b| ==> all[|a| + j] == b[j];
    assert forall x :: x in a ==> x.clock > e.clock;
    assert forall x :: x in b ==> x.clock <= e.clock;
    assert forall x :: x in o.Live() <==> x in a || x in b + o.token;
    assert forall x :: x in o.All() ==> x in all;
    if e.phase == Spec {
      var x :| x in o.Live() && x.thread == e.thread && x.clock <= e.clock;
      assert x in b + o.token;
    }
  }

  lemma InsertedAlone(o: Order, a: seq<Epoch>, b: seq<Epoch>, e: Epoch, waiting: set<nat>)
    requires Alone(Keys(o.Live()), waiting) && o.front == a + b
    requires e.thread in waiting ==> NoneOf(o.Live(), e.thread)
    ensures Alone(Keys(o.(front := a + ([e] + b)).Live()), waiting)
  {
    var n := o.(front := a + ([e] + b));
    assert forall x :: x in n.Live() <==> x == e || x in o.Live();
    assert forall k :: k in Keys(n.Live()) ==> k == KeyOf(e) || k in Keys(o.Live());
  }

  lemma UpdatedOrder(all: seq<Epoch>, o: Order, i: nat, e: Epoch, waiting: set<nat>) returns (n: Order)
    requires Sound(o, waiting) && all == o.front + (o.token + o.behind) && i < |o.front| + |o.token|
    requires SameStanding(all[i], e)
    ensures Sound(n, waiting) && n.behind == o.behind && |n.front| == |o.front| && |n.token| == |o.token|
    ensures all[i := e] == n.front + (n.token + n.behind)
  {
    n := Updated(o, i, e);
    UpdatedStanding(all, o, i, e);
    ProgressKeepsOrder(o, n);
    UpdatedAlone(o.Live(), n.Live(), waiting);
  }

  function Updated(o: Order, i: nat, e: Epoch): Order
    requires i < |o.front| + |o.token|
  {
    if i < |o.front| then o.(front := o.front[i := e]) else o.(token := o.token[i - |o.front| := e])
  }

  lemma UpdatedStanding(all: seq<Epoch>, o: Order, i: nat, e: Epoch)
    requires all == o.front + (o.token + o.behind) && i < |o.front| + |o.token| && SameStanding(all[i], e)
    ensures var n := Updated(o, i, e);
      && |n.Live()| == |o.Live()| && (forall j :: 0 <= j < |o.Live()| ==> SameStanding(o.Live()[j], n.Live()[j]))
      && all[i := e] == n.front + (n.token + n.behind)
  {
    var n := Updated(o, i, e);
    assert i < |o.front| ==> all[i] == o.front[i];
    assert i >= |o.front| ==> all[i] == o.token[i - |o.front|];
  }

  lemma UpdatedAlone(s: seq<Epoch>, t: seq<Epoch>, waiting: set<nat>)
    requires Alone(Keys(s), waiting) && |s| == |t| && forall j :: 0 <= j < |s| ==> SameStanding(s[j], t[j])
    ensures Alone(Keys(t), waiting)
  {
    forall j, k | j in Keys(t) && k in Keys(t) && j.thread == k.thread && j.thread in waiting
      ensures j.id == k.id
    {
      var x :| x in t && KeyOf(x) == j;
      var y :| y in t && KeyOf(y) == k;
      var m :| 0 <= m < |t| && t[m] == x;
      var l :| 0 <= l < |t| && t[l] == y;
      assert KeyOf(s[m]) in Keys(s) && KeyOf(s[l]) in Keys(s);
    }
  }
}
