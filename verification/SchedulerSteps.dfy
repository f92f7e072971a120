/**
 What the scheduler's steps do, process by process, and what they never do over a run.
 */
module SchedulerSteps {
  import opened Scheduling
  import opened Scheduler

  // p stands at k, behind all that are not worse.
  ghost predicate StandsAt(s: Schedule, p: Pid, k: nat) {
    && p in s.procs && Known(s.queue, s.procs) && k <= |s.queue|
    && (forall i :: 0 <= i < k ==> s.procs[s.queue[i]].priority <= s.procs[p].priority)
    && (forall i :: k <= i < |s.queue| ==> s.procs[s.queue[i]].priority > s.procs[p].priority)
  }

  function QueueWith(q: seq<Pid>, k: nat, p: Pid): seq<Pid>
    requires k <= |q|
  {
    q[..k] + [p] + q[k..]
  }

  // p runs on the core, pinned to it if it may not migrate; it was ready or is now.
  function RunningOn(x: Process, c: Cpu): Process {
    Process(Running, x.priority, c, x.migrable, x.pinned || !x.migrable)
  }

  ghost predicate Idle(s: Schedule, c: Cpu) {
    c in s.cores && c !in s.core
  }

  // v runs where x may, and is worse.
  ghost predicate Loses(s: Schedule, x: Process, v: Pid) {
    && v in s.procs && s.procs[v].state == Running && s.procs[v].priority > x.priority
    && (!x.pinned || x.cpu == s.procs[v].cpu)
  }

  /** A process that prefers an idle core runs there. */
  lemma PreferredFirst(s: Schedule, chain: seq<Pid>, n: Schedule) returns (k: nat)
    requires Consistent(s) && Chained(s, chain, n) && s.procs[chain[0]].cpu >= 0 && Idle(s, s.procs[chain[0]].cpu)
    ensures var p := chain[0]; var x := s.procs[p];
      && chain == [p] && StandsAt(s, p, k)
      && n == Schedule(s.procs[p := RunningOn(x, x.cpu)], QueueWith(s.queue, k, p), s.core[x.cpu := p], s.cores)
  {
    var p := chain[0];
    var r; r, k := Joined(s, chain, n);
    assert !NoPlace(r, p);
  }

  /** One that prefers no idle core but may run on another takes some idle core. */
  lemma AnyIdleNext(s: Schedule, chain: seq<Pid>, n: Schedule, idle: Cpu) returns (k: nat, c: Cpu)
    requires Consistent(s) && Chained(s, chain, n) && Idle(s, idle)
    requires var x := s.procs[chain[0]]; !x.pinned && (x.cpu < 0 || x.cpu in s.core)
    ensures var p := chain[0]; var x := s.procs[p];
      && chain == [p] && StandsAt(s, p, k) && Idle(s, c)
      && n == Schedule(s.procs[p := RunningOn(x, c)], QueueWith(s.queue, k, p), s.core[c := p], s.cores)
  {
    var p := chain[0];
    var r; r, k := Joined(s, chain, n);
    assert Compatible(r.procs[p], idle) && !NoPlace(r, p);
    c :| Suits(r, p, c) && n == Started(r, p, c);
  }

  // There is no idle core that p may use.
  ghost predicate NoIdle(s: Schedule, p: Pid)
    requires p in s.procs
  {
    forall c :: c in s.cores && (!s.procs[p].pinned || s.procs[p].cpu == c) ==> c in s.core
  }

  // v stands at m in the queue, loses its core, and no process behind it would.
  ghost predicate LastToLose(s: Schedule, x: Process, v: Pid, m: nat) {
    m < |s.queue| && s.queue[m] == v && Loses(s, x, v) && forall j :: m < j < |s.queue| ==> !Loses(s, x, s.queue[j])
  }

  /** One without an idle core takes over that of a worse process: the worst, and of equals the last in the
      queue. That one is no longer runnable, and is then made so again. */
  lemma WorstLoses(s: Schedule, chain: seq<Pid>, n: Schedule, v: Pid, m: nat) returns (k: nat, e: Schedule)
    requires Consistent(s) && Chained(s, chain, n) && NoIdle(s, chain[0]) && s.procs[chain[0]].state == Invalid
    requires LastToLose(s, s.procs[chain[0]], v, m)
    ensures |chain| > 1 && chain[1] == v && v != chain[0] && StandsAt(s, chain[0], k) && k <= m
    ensures var p := chain[0]; var x, y, q := s.procs[p], s.procs[v], QueueWith(s.queue, k, p);
      && e == Schedule(s.procs[p := RunningOn(x, y.cpu)][v := y.(state := Invalid)], q[..m + 1] + q[m + 2..], s.core[y.cpu := p], s.cores)
      && Chained(e, chain[1..], n)
    ensures forall u :: Loses(s, s.procs[chain[0]], u) ==> s.procs[u].priority <= s.procs[v].priority
  {
    var p := chain[0];
    var x, y := s.procs[p], s.procs[v];
    var r; r, k := Joined(s, chain, n);
    LoserStands(s, p, v, m, k, r);
    assert NoPlace(r, p);
    assert |chain| > 1;
    e :| Evicts(r, p, chain[1], e) && Chained(e, chain[1..], n);
    SameLoser(s, p, k, m, v, r, chain[1]);
    Handover(s, p, k, m, v, r, e);
    NobodyLosesMore(s, x, v, m);
  }

  lemma NobodyLosesMore(s: Schedule, x: Process, v: Pid, m: nat)
    requires Consistent(s) && LastToLose(s, x, v, m)
    ensures forall u :: Loses(s, x, u) ==> s.procs[u].priority <= s.procs[v].priority
  {
    forall u | Loses(s, x, u)
      ensures s.procs[u].priority <= s.procs[v].priority
    {
      assert u in s.queue;
      var j :| 0 <= j < |s.queue| && s.queue[j] == u;
    }
  }

  // In the longer queue v stands one further back, and the same processes would lose.
  lemma LoserStands(s: Schedule, p: Pid, v: Pid, m: nat, k: nat, r: Schedule)
    requires Consistent(s) && p in s.procs && s.procs[p].state == Invalid && StandsAt(s, p, k)
    requires LastToLose(s, s.procs[p], v, m)
    requires r == Schedule(s.procs[p := s.procs[p].(state := Ready)], QueueWith(s.queue, k, p), s.core, s.cores)
    ensures k <= m && v != p && |r.queue| == |s.queue| + 1 && r.queue[m + 1] == v && MayEvict(r, r.procs[p], v)
    ensures forall j :: m + 1 < j < |r.queue| ==> !MayEvict(r, r.procs[p], r.queue[j])
    ensures forall j :: 0 <= j < |r.queue| && r.queue[j] == v ==> j == m + 1
  {
    assert p !in s.queue;
    Inserted(s.queue, k, p);
    assert k <= m;
    assert r.queue[m + 1] == v;
    forall j | m + 1 < j < |r.queue|
      ensures !MayEvict(r, r.procs[p], r.queue[j])
    {
      InsertedBehind(s.queue, k, p, j - 1);
      SameLosses(s, p, s.queue[j - 1], r);
    }
    SameLosses(s, p, v, r);
  }

  lemma SameLosses(s: Schedule, p: Pid, u: Pid, r: Schedule)
    requires p in s.procs && r.procs == s.procs[p := s.procs[p].(state := Ready)]
    ensures u != p && Loses(s, s.procs[p], u) ==> MayEvict(r, r.procs[p], u)
    ensures MayEvict(r, r.procs[p], u) ==> u != p && Loses(s, s.procs[p], u)
  {
  }

  lemma SameLoser(s: Schedule, p: Pid, k: nat, m: nat, v: Pid, r: Schedule, u: Pid)
    requires p in r.procs && m + 1 < |r.queue| && r.queue[m + 1] == v && MayEvict(r, r.procs[p], v)
    requires forall j :: m + 1 < j < |r.queue| ==> !MayEvict(r, r.procs[p], r.queue[j])
    requires IsVictim(r, r.procs[p], u)
    ensures u == v
  {
  }

  // What the takeover makes of the schedule.
  lemma Handover(s: Schedule, p: Pid, k: nat, m: nat, v: Pid, r: Schedule, e: Schedule)
    requires p in s.procs && v in s.procs && v != p && k <= |s.queue|
    requires r == Schedule(s.procs[p := s.procs[p].(state := Ready)], QueueWith(s.queue, k, p), s.core, s.cores)
    requires m + 1 < |r.queue| && r.queue[m + 1] == v && TakesOver(r, p, v, e)
    requires forall j :: 0 <= j < |r.queue| && r.queue[j] == v ==> j == m + 1
    ensures var x, y, q := s.procs[p], s.procs[v], QueueWith(s.queue, k, p);
      e == Schedule(s.procs[p := RunningOn(x, y.cpu)][v := y.(state := Invalid)], q[..m + 1] + q[m + 2..], s.core[y.cpu := p], s.cores)
  {
    var x, y := s.procs[p], s.procs[v];
    var j :| 0 <= j < |r.queue| && r.queue[j] == v && e == Dropped(Started(Stopped(r, v), p, r.procs[v].cpu), v, j);
    assert j == m + 1;
    TakenBack(s.core, y.cpu, p);
    TwoChanges(s.procs, p, v, x.(state := Ready), y.(state := Ready), RunningOn(x, y.cpu), y.(state := Invalid));
  }

  lemma TakenBack(core: map<Cpu, Pid>, c: Cpu, p: Pid)
    ensures (core - {c})[c := p] == core[c := p]
  {
  }

  lemma TwoChanges(procs: map<Pid, Process>, p: Pid, v: Pid, x1: Process, y1: Process, x2: Process, y2: Process)
    requires p != v
    ensures procs[p := x1][v := y1][p := x2][v := y2] == procs[p := x2][v := y2]
  {
  }

  /** And one without an idle core and without a worse process waits. */
  lemma Waits(s: Schedule, chain: seq<Pid>, n: Schedule) returns (k: nat)
    requires Consistent(s) && Chained(s, chain, n) && NoIdle(s, chain[0]) && s.procs[chain[0]].state == Invalid
    requires forall v :: !Loses(s, s.procs[chain[0]], v)
    ensures var p := chain[0];
      chain == [p] && StandsAt(s, p, k) && n == Schedule(s.procs[p := s.procs[p].(state := Ready)], QueueWith(s.queue, k, p), s.core, s.cores)
  {
    var p := chain[0];
    var r; r, k := Joined(s, chain, n);
    assert NoPlace(r, p);
    if |chain| > 1 {
      var e :| Evicts(r, p, chain[1], e) && Chained(e, chain[1..], n);
      assert MayEvict(r, r.procs[p], chain[1]);
      assert Loses(s, s.procs[p], chain[1]);
    }
  }

  // The list after the first process of the chain has joined the queue.
  lemma Joined(s: Schedule, chain: seq<Pid>, n: Schedule) returns (r: Schedule, k: nat)
    requires Chained(s, chain, n)
    ensures chain != [] && StandsAt(s, chain[0], k)
    ensures var p := chain[0];
      r == Schedule(s.procs[p := s.procs[p].(state := Ready)], QueueWith(s.queue, k, p), s.core, s.cores)
    ensures if |chain| == 1 then Runs(r, chain[0], n) || Stays(r, chain[0], n)
            else exists e :: Evicts(r, chain[0], chain[1], e) && Chained(e, chain[1..], n)
  {
    r :| Joins(s, chain[0], r)
         && if |chain| == 1 then Runs(r, chain[0], n) || Stays(r, chain[0], n)
            else exists e :: Evicts(r, chain[0], chain[1], e) && Chained(e, chain[1..], n);
    k := JoinsAt(s, chain[0], r);
  }

  lemma JoinsAt(s: Schedule, p: Pid, r: Schedule) returns (k: nat)
    requires Joins(s, p, r)
    ensures StandsAt(s, p, k)
    ensures r == Schedule(s.procs[p := s.procs[p].(state := Ready)], QueueWith(s.queue, k, p), s.core, s.cores)
  {
    k :| k <= |s.queue| && Belongs(s, p, k) && r == Readied(s, p, k);
  }

  // ---------- withdrawing ----------

  // r is the first in the queue that is ready and may run on the core.
  ghost predicate FirstReady(s: Schedule, c: Cpu, r: Pid, m: nat) {
    && m < |s.queue| && s.queue[m] == r && CanRun(s, c, r)
    && forall j :: 0 <= j < m ==> !CanRun(s, c, s.queue[j])
  }

  ghost predicate CanRun(s: Schedule, c: Cpu, r: Pid) {
    r in s.procs && s.procs[r].state == Ready && (!s.procs[r].pinned || s.procs[r].cpu == c)
  }

  // The schedule without p.
  function Gone(s: Schedule, p: Pid, k: nat): Schedule
    requires p in s.procs && k < |s.queue|
  {
    Schedule(s.procs[p := s.procs[p].(state := Invalid)], s.queue[..k] + s.queue[k + 1..],
             if s.procs[p].state == Running then s.core - {s.procs[p].cpu} else s.core, s.cores)
  }

  // The core goes to the first in the queue that is ready and may run there, if there is one.
  ghost predicate GoesToFirst(d: Schedule, c: Cpu, n: Schedule) {
    if exists j :: 0 <= j < |d.queue| && CanRun(d, c, d.queue[j])
    then exists r, m :: FirstReady(d, c, r, m) && n == Schedule(d.procs[r := RunningOn(d.procs[r], c)], d.queue, d.core[c := r], d.cores)
    else n == d
  }

  /** A process that is withdrawn leaves the queue. If it was running its core goes to the first that waits
      for it; nothing else changes. */
  lemma WithdrawnExactly(s: Schedule, p: Pid, n: Schedule) returns (k: nat)
    requires Withdrawn(s, p, n)
    ensures p in s.procs && k < |s.queue| && s.queue[k] == p
    ensures if s.procs[p].state == Running then GoesToFirst(Gone(s, p, k), s.procs[p].cpu, n) else n == Gone(s, p, k)
  {
    var d :| Leaves(s, p, d) && if s.procs[p].state == Running then PassedOn(d, s.procs[p].cpu, n) else n == d;
    k := LeavesAt(s, p, d);
    if s.procs[p].state == Running {
      PassedToFirst(d, s.procs[p].cpu, n);
    }
  }

  lemma LeavesAt(s: Schedule, p: Pid, d: Schedule) returns (k: nat)
    requires Leaves(s, p, d)
    ensures p in s.procs && k < |s.queue| && s.queue[k] == p && d == Gone(s, p, k)
  {
    k :| 0 <= k < |s.queue| && s.queue[k] == p && d == Dropped(if s.procs[p].state == Running then Stopped(s, p) else s, p, k);
    assert d.procs == s.procs[p := s.procs[p].(state := Invalid)];
  }

  lemma PassedToFirst(d: Schedule, c: Cpu, n: Schedule)
    requires PassedOn(d, c, n)
    ensures GoesToFirst(d, c, n)
  {
    var r :| IsFirst(d, c, r) && if r < 0 then n == d else r in d.procs && n == Started(d, r, c);
    assert forall j :: 0 <= j < |d.queue| ==> (CanRun(d, c, d.queue[j]) <==> Eligible(d, c, d.queue[j]));
    if r >= 0 {
      var m :| 0 <= m < |d.queue| && d.queue[m] == r && Eligible(d, c, r) && forall j :: 0 <= j < m ==> !Eligible(d, c, d.queue[j]);
      assert FirstReady(d, c, r, m);
    }
  }

  // ---------- runs ----------

  // Schedules one after another, as each call leaves them.
  ghost predicate Run(s: seq<Schedule>) {
    (forall i :: 0 <= i < |s| ==> Consistent(s[i])) && forall i, j :: 0 <= i < j < |s| && j == i + 1 ==> Rescheduled(s[i], s[j])
  }

  lemma {:induction false} StaysPinned(s: seq<Schedule>, q: Pid, i: nat, j: nat)
    requires Run(s) && i <= j < |s| && q in s[i].procs && s[i].procs[q].pinned
    ensures q in s[j].procs && s[j].procs[q].pinned && s[j].procs[q].cpu == s[i].procs[q].cpu
  {
    if i < j {
      StaysPinned(s, q, i, j - 1);
      assert Rescheduled(s[j - 1], s[j]);
    }
  }

  /** Over any run a process that may not migrate never runs on two cores. */
  lemma NeverMigrates(s: seq<Schedule>, q: Pid, i: nat, j: nat)
    requires Run(s) && i <= j < |s| && q in s[i].procs && !s[i].procs[q].migrable && s[i].procs[q].state == Running
    ensures q in s[j].procs && s[j].procs[q].pinned
    ensures s[j].procs[q].state == Running ==> s[j].procs[q].cpu == s[i].procs[q].cpu
  {
    StaysPinned(s, q, i, j);
  }
}
