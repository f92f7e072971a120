/**
 The scheduler at work: making a process runnable, with the eviction of worse processes that this
 may set off, and making one not runnable.
 */
module Scheduler {
  import opened Scheduling

  // A process that p could evict.
  ghost predicate MayEvict(s: Schedule, p: Process, v: Pid) {
    v in s.procs && s.procs[v].state == Running && s.procs[v].priority > p.priority && Compatible(p, s.procs[v].cpu)
  }

  // The process that p evicts is the last in the queue that it could evict: the worst of them.
  ghost predicate IsVictim(s: Schedule, p: Process, victim: int) {
    if victim < 0 then forall v :: v in s.queue ==> !MayEvict(s, p, v)
    else exists m :: 0 <= m < |s.queue| && s.queue[m] == victim && MayEvict(s, p, victim)
                     && forall j :: m < j < |s.queue| ==> !MayEvict(s, p, s.queue[j])
  }

  /** No process that could be evicted is worse than the one that is. */
  lemma VictimIsWorst(s: Schedule, p: Process, victim: Pid, v: Pid)
    requires Consistent(s) && IsVictim(s, p, victim) && MayEvict(s, p, v)
    ensures MayEvict(s, p, victim) && s.procs[v].priority <= s.procs[victim].priority
  {
    var m :| 0 <= m < |s.queue| && s.queue[m] == victim && MayEvict(s, p, victim)
             && forall j :: m < j < |s.queue| ==> !MayEvict(s, p, s.queue[j]);
    assert v in s.queue;
    var i :| 0 <= i < |s.queue| && s.queue[i] == v;
  }

  // ---------- what scheduling does, step by step ----------

  // p joins the queue behind all that are not worse.
  ghost predicate Joins(s: Schedule, p: Pid, r: Schedule) {
    Known(s.queue, s.procs) && p in s.procs
    && exists k: nat :: k <= |s.queue| && Belongs(s, p, k) && r == Readied(s, p, k)
  }

  // The core is idle, and p prefers it, or may run anywhere and finds the one it prefers taken.
  ghost predicate Suits(r: Schedule, p: Pid, c: Cpu)
    requires p in r.procs
  {
    var x := r.procs[p];
    c in r.cores && c !in r.core && if x.cpu >= 0 && x.cpu !in r.core then c == x.cpu else !x.pinned
  }

  ghost predicate Runs(r: Schedule, p: Pid, n: Schedule) {
    p in r.procs && exists c :: Suits(r, p, c) && n == Started(r, p, c)
  }

  ghost predicate NoPlace(r: Schedule, p: Pid) {
    p in r.procs && forall c :: c in r.cores && Compatible(r.procs[p], c) ==> c in r.core
  }

  ghost predicate Stays(r: Schedule, p: Pid, n: Schedule) {
    NoPlace(r, p) && IsVictim(r, r.procs[p], -1) && n == r
  }

  // p takes over the core of v, which leaves the queue.
  ghost predicate TakesOver(r: Schedule, p: Pid, v: Pid, n: Schedule) {
    p in r.procs && v in r.procs
    && exists j :: 0 <= j < |r.queue| && r.queue[j] == v && n == Dropped(Started(Stopped(r, v), p, r.procs[v].cpu), v, j)
  }

  ghost predicate Evicts(r: Schedule, p: Pid, v: Pid, n: Schedule) {
    NoPlace(r, p) && IsVictim(r, r.procs[p], v) && TakesOver(r, p, v, n)
  }

  // Each process of the chain is made runnable, and evicts the next one; the last runs or waits.
  ghost predicate Chained(s: Schedule, chain: seq<Pid>, n: Schedule)
    decreases |chain|
  {
    chain != [] && exists r ::
      && Joins(s, chain[0], r)
      && if |chain| == 1 then Runs(r, chain[0], n) || Stays(r, chain[0], n)
         else exists e :: Evicts(r, chain[0], chain[1], e) && Chained(e, chain[1..], n)
  }

  lemma ChainStep(s: Schedule, p: Pid, r: Schedule, v: Pid, e: Schedule, rest: seq<Pid>, n: Schedule)
    requires Joins(s, p, r) && Evicts(r, p, v, e) && Chained(e, rest, n) && rest[0] == v
    ensures Chained(s, [p] + rest, n)
  {
    var chain := [p] + rest;
    assert chain[1..] == rest && chain[0] == p && chain[1] == v;
  }

  // A process that waits for the core.
  predicate Eligible(s: Schedule, cpu: Cpu, p: Pid) {
    p in s.procs && s.procs[p].state == Ready && Compatible(s.procs[p], cpu)
  }

  // The first in the queue that waits for the core, if there is one.
  ghost predicate IsFirst(s: Schedule, cpu: Cpu, r: int) {
    if r < 0 then forall j :: 0 <= j < |s.queue| ==> !Eligible(s, cpu, s.queue[j])
    else exists m :: 0 <= m < |s.queue| && s.queue[m] == r && Eligible(s, cpu, r)
                     && forall j :: 0 <= j < m ==> !Eligible(s, cpu, s.queue[j])
  }

  // p leaves the queue, and its core if it has one.
  ghost predicate Leaves(s: Schedule, p: Pid, d: Schedule) {
    p in s.procs
    && exists k :: 0 <= k < |s.queue| && s.queue[k] == p
                   && d == Dropped(if s.procs[p].state == Running then Stopped(s, p) else s, p, k)
  }

  // The core goes to the first that waits for it.
  ghost predicate PassedOn(d: Schedule, cpu: Cpu, n: Schedule) {
    exists r :: IsFirst(d, cpu, r) && if r < 0 then n == d else r in d.procs && n == Started(d, r, cpu)
  }

  ghost predicate Withdrawn(s: Schedule, p: Pid, n: Schedule) {
    exists d :: Leaves(s, p, d) && if s.procs[p].state == Running then PassedOn(d, s.procs[p].cpu, n) else n == d
  }

  lemma WithdrawnRunning(s: Schedule, p: Pid, d: Schedule, n: Schedule)
    requires Leaves(s, p, d) && s.procs[p].state == Running && PassedOn(d, s.procs[p].cpu, n)
    ensures Withdrawn(s, p, n)
  {
  }

  lemma WithdrawnWaiting(s: Schedule, p: Pid, k: nat)
    requires p in s.procs && s.procs[p].state == Ready && k < |s.queue| && s.queue[k] == p
    ensures Withdrawn(s, p, Dropped(s, p, k))
  {
    assert Leaves(s, p, Dropped(s, p, k));
  }

  /** The other running processes keep their cores when one leaves. */
  lemma OthersGoOn(s: Schedule, p: Pid, n: Schedule, q: Pid)
    requires Withdrawn(s, p, n) && q in s.procs && s.procs[q].state == Running && q != p
    ensures q in n.procs && n.procs[q] == s.procs[q]
  {
  }

  // What scheduling leaves as it is: priorities, and the cores that processes are pinned to. A core
  // that was busy stays so.
  ghost predicate Rescheduled(s: Schedule, n: Schedule) {
    && n.procs.Keys == s.procs.Keys && n.cores == s.cores
    && forall q :: q in s.procs ==>
         && n.procs[q].priority == s.procs[q].priority && n.procs[q].migrable == s.procs[q].migrable
         && (s.procs[q].pinned ==> n.procs[q].pinned && n.procs[q].cpu == s.procs[q].cpu)
  }

  // The processes other than p that could run or wait still do, and no others.
  ghost predicate SameRunnable(s: Schedule, n: Schedule, but: set<Pid>) {
    forall q :: q in s.procs && q in n.procs && q !in but ==> (n.procs[q].state == Invalid <==> s.procs[q].state == Invalid)
  }

  // The processes that are worse than a priority.
  ghost function Worse(procs: map<Pid, Process>, priority: int): set<Pid> {
    set q | q in procs && procs[q].priority > priority
  }

  lemma FewerWorse(procs: map<Pid, Process>, procs': map<Pid, Process>, v: Pid, priority: int)
    requires v in procs && procs[v].priority > priority && procs'.Keys == procs.Keys
    requires forall q :: q in procs ==> procs'[q].priority == procs[q].priority
    ensures |Worse(procs', procs'[v].priority)| < |Worse(procs, priority)|
  {
    var a, b := Worse(procs', procs'[v].priority), Worse(procs, priority);
    assert v in b && v !in a && a <= b;
    assert a <= b - {v};
    Smaller(a, b - {v});
  }

  lemma {:induction false} Smaller(a: set<Pid>, b: set<Pid>)
    requires a <= b
    ensures |a| <= |b|
  {
    if a != {} {
      var x :| x in a;
      Smaller(a - {x}, b - {x});
    }
  }

  class RunningProcs {
    var procs: map<Pid, Process>
    var queue: seq<Pid>
    var core: map<Cpu, Pid>
    const cores: set<Cpu>

    ghost function State(): Schedule
      reads this
    {
      Schedule(procs, queue, core, cores)
    }

    // All processes start out as not runnable.
    constructor (procs: map<Pid, Process>, cores: set<Cpu>)
      requires forall p :: p in procs ==> procs[p].state == Invalid
      requires forall c :: c in cores ==> c >= 0
      requires forall p :: p in procs && (procs[p].cpu >= 0 || procs[p].pinned) ==> procs[p].cpu in cores
      ensures Consistent(State()) && Guarantee(State())
      ensures this.procs == procs && this.cores == cores
    {
      this.procs, this.queue, this.core, this.cores := procs, [], map[], cores;
    }

    // Where the process belongs in the queue, and which process it would evict: the last one that it
    // could, or a negative number.
    method FindPosition(p: Pid) returns (at: nat, victim: int)
      requires Consistent(State()) && p in procs && procs[p].state == Invalid
      ensures at <= |queue| && Belongs(State(), p, at)
      ensures IsVictim(Readied(State(), p, at), Readied(State(), p, at).procs[p], victim)
    {
      ghost var s, m := State(), 0;
      var me, k := procs[p], |queue|;
      victim := -1;
      while k > 0
        invariant 0 <= k <= |queue|
        invariant forall i :: k <= i < |queue| ==> procs[queue[i]].priority > me.priority
        invariant LastVictim(s, me, k, victim, m)
      {
        var where := queue[k - 1];
        if procs[where].priority <= me.priority {
          break;
        }
        if victim < 0 && procs[where].state == Running && (!me.pinned || me.cpu == procs[where].cpu) {
          victim, m := where, k - 1;
        }
        k := k - 1;
      }
      at := k;
      VictimInQueue(s, p, at, victim, m);
    }

    // The process joins the queue at the end of its priority group.
    method QueueInsert(p: Pid) returns (victim: int, ghost k: nat)
      requires Consistent(State()) && p in procs && procs[p].state == Invalid
      modifies this`procs, this`queue
      ensures k <= |old(queue)| && Belongs(old(State()), p, k) && State() == Readied(old(State()), p, k)
      ensures IsVictim(State(), procs[p], victim) && Joins(old(State()), p, State())
    {
      var at;
      at, victim := FindPosition(p);
      k := at;
      procs := procs[p := procs[p].(state := Ready)];
      queue := queue[..at] + [p] + queue[at..];
    }

    method BecomeReady(p: Pid) returns (victim: int)
      requires Consistent(State()) && Guarantee(State()) && p in procs && procs[p].state == Invalid
      modifies this`procs, this`queue
      ensures Consistent(State()) && GuaranteeBut(State(), {p}) && procs == old(procs)[p := old(procs)[p].(state := Ready)]
      ensures Joins(old(State()), p, State()) && IsVictim(State(), procs[p], victim) && Quiet(old(State()), State(), {p})
      ensures victim < 0 ==> forall v :: v in procs ==> !MayEvict(State(), procs[p], v)
      ensures victim >= 0 ==> MayEvict(State(), procs[p], victim)
    {
      ghost var s := State();
      ghost var k;
      victim, k := QueueInsert(p);
      ReadiedIsConsistent(s, p, k);
    }

    // The first process in the queue that waits and may run on the core, or a negative number.
    method QueueGet(cpu: Cpu) returns (r: int)
      requires Consistent(State())
      ensures IsFirst(State(), cpu, r)
      ensures if r < 0 then forall p :: p in procs && procs[p].state == Ready ==> !Compatible(procs[p], cpu)
              else r in procs && procs[r].state == Ready && Compatible(procs[r], cpu)
                   && forall p :: p in procs && procs[p].state == Ready && Compatible(procs[p], cpu)
                        ==> procs[r].priority <= procs[p].priority
    {
      var i := 0;
      r := -1;
      while i < |queue|
        invariant i <= |queue|
        invariant forall j :: 0 <= j < i ==> !Eligible(State(), cpu, queue[j])
      {
        var p := procs[queue[i]];
        if p.state == Ready && (!p.pinned || p.cpu == cpu) {
          r := queue[i];
          break;
        }
        i := i + 1;
      }
      forall p | p in procs && procs[p].state == Ready && Compatible(procs[p], cpu)
        ensures r >= 0 && procs[r].priority <= procs[p].priority
      {
        assert p in queue;
        var j :| 0 <= j < |queue| && queue[j] == p;
        assert i <= j;
      }
    }

    method SwitchIn(cpu: Cpu, p: Pid)
      requires p in procs
      modifies this`procs, this`core
      ensures State() == Started(old(State()), p, cpu)
    {
      var x := procs[p];
      procs := procs[p := x.(state := Running, cpu := cpu, pinned := x.pinned || !x.migrable)];
      core := core[cpu := p];
    }

    method SwitchOut(p: Pid)
      requires p in procs
      modifies this`procs, this`core
      ensures State() == Stopped(old(State()), p)
    {
      core := core - {procs[p].cpu};
      procs := procs[p := procs[p].(state := Ready)];
    }

    method BecomeNonReady(p: Pid) returns (ghost k: nat)
      requires p in procs && p in queue
      modifies this`procs, this`queue
      ensures k < |old(queue)| && old(queue)[k] == p && State() == Dropped(old(State()), p, k)
    {
      var at :| 0 <= at < |queue| && queue[at] == p;
      k := at;
      procs := procs[p := procs[p].(state := Invalid)];
      queue := queue[..at] + queue[at + 1..];
    }

    // Some idle core, or a negative number.
    method AvailableProcessor() returns (c: Cpu, found: bool)
      ensures found ==> c in cores && c !in core
      ensures !found ==> forall c :: c in cores ==> c in core
    {
      c, found := -1, false;
      if x :| x in cores && x !in core {
        c, found := x, true;
      }
    }

    // Starts the ready process on the core it prefers, or on another that it may use, if one is idle.
    method FindPlace(p: Pid) returns (started: bool)
      requires Consistent(State()) && GuaranteeBut(State(), {p}) && p in procs && procs[p].state == Ready
      modifies this`procs, this`core
      ensures Consistent(State()) && Quiet(old(State()), State(), {})
      ensures started ==> Guarantee(State()) && Runs(old(State()), p, State())
      ensures !started ==> State() == old(State()) && NoPlace(State(), p)
    {
      var at := procs[p].cpu;
      started := at >= 0 && at !in core;
      if !started && !procs[p].pinned {
        at, started := AvailableProcessor();
      }
      if started {
        StartedIsConsistent(State(), p, at);
        StartKeepsGuarantee(State(), p, at);
        SwitchIn(at, p);
      }
    }

    // The ready process takes over the core of a worse one, which is no longer runnable.
    method Evict(p: Pid, v: Pid)
      requires Consistent(State()) && GuaranteeBut(State(), {p}) && p in procs && procs[p].state == Ready
      requires MayEvict(State(), procs[p], v)
      modifies this`procs, this`core, this`queue
      ensures Consistent(State()) && Guarantee(State()) && Quiet(old(State()), State(), {v})
      ensures v != p && procs[v].state == Invalid && procs[p].state == Running && TakesOver(old(State()), p, v, State())
    {
      ghost var s := State();
      var cpu := procs[v].cpu;
      assert v in s.queue;
      SwitchOut(v);
      SwitchIn(cpu, p);
      ghost var k := BecomeNonReady(v);
      EvictKeepsGuarantee(s, p, v, k);
    }

    // The process becomes ready and starts if it can; otherwise the result is the process to evict
    // for it, if there is one.
    method TryToStart(p: Pid) returns (victim: int, ghost r: Schedule)
      requires Consistent(State()) && Guarantee(State()) && p in procs && procs[p].state == Invalid
      modifies this`procs, this`core, this`queue
      ensures Consistent(State()) && Quiet(old(State()), State(), {p}) && procs[p].state != Invalid
      ensures Joins(old(State()), p, r)
      ensures victim < 0 ==> Guarantee(State()) && (Runs(r, p, State()) || Stays(r, p, State()))
      ensures victim >= 0 ==> GuaranteeBut(State(), {p}) && procs[p].state == Ready && MayEvict(State(), procs[p], victim)
      ensures victim >= 0 ==> State() == r && NoPlace(r, p) && IsVictim(r, r.procs[p], victim)
    {
      ghost var s := State();
      victim := BecomeReady(p);
      r := State();
      var started := FindPlace(p);
      QuietThen(s, r, State(), p);
      if started {
        victim := -1;
      } else if victim < 0 {
        NobodyToEvict(r, p);
      }
    }

    // The process becomes runnable. If it cannot run at once it evicts a worse one, for which a place
    // is sought in the same way; each process evicted is worse than the one before.
    // `chain` are these processes, one after another.
    method MakeRunnable(p: Pid) returns (ghost chain: seq<Pid>)
      requires Consistent(State()) && Guarantee(State()) && p in procs && procs[p].state == Invalid
      modifies this`procs, this`core, this`queue
      ensures Consistent(State()) && Guarantee(State())
      ensures Quiet(old(State()), State(), {p}) && procs[p].state != Invalid
      ensures Chained(old(State()), chain, State()) && chain[0] == p
      decreases |Worse(procs, procs[p].priority)|
    {
      ghost var a := State();
      var victim; ghost var r;
      victim, r := TryToStart(p);
      chain := [p];
      if victim >= 0 {
        ghost var b := State();
        Evict(p, victim);
        ghost var c := State();
        FewerWorse(a.procs, c.procs, victim, a.procs[p].priority);
        ghost var rest := MakeRunnable(victim);
        QuietTrans(a, b, c, State(), p, victim);
        ChainStep(a, p, r, victim, c, rest, State());
        chain := [p] + rest;
      }
    }

    // The process is no longer runnable. If it was running the best process that may use its core
    // takes over.
    method MakeNonRunnable(p: Pid)
      requires Consistent(State()) && Guarantee(State()) && p in procs && procs[p].state != Invalid
      modifies this`procs, this`core, this`queue
      ensures Consistent(State()) && Guarantee(State())
      ensures Rescheduled(old(State()), State()) && SameRunnable(old(State()), State(), {p}) && procs[p].state == Invalid
      ensures Withdrawn(old(State()), p, State())
    {
      if procs[p].state == Running {
        StopRunning(p);
      } else {
        StopWaiting(p);
      }
    }

    method StopRunning(p: Pid)
      requires Consistent(State()) && Guarantee(State()) && p in procs && procs[p].state == Running
      modifies this`procs, this`core, this`queue
      ensures Consistent(State()) && Guarantee(State())
      ensures Rescheduled(old(State()), State()) && SameRunnable(old(State()), State(), {p}) && procs[p].state == Invalid
      ensures Withdrawn(old(State()), p, State())
    {
      ghost var s := State();
      var cpu := procs[p].cpu;
      Leave(p);
      ghost var d := State();
      RunBest(cpu);
      RescheduledThen(s, d, State(), p);
      WithdrawnRunning(s, p, d, State());
    }

    method StopWaiting(p: Pid)
      requires Consistent(State()) && Guarantee(State()) && p in procs && procs[p].state == Ready
      modifies this`procs, this`core, this`queue
      ensures Consistent(State()) && Guarantee(State())
      ensures Rescheduled(old(State()), State()) && SameRunnable(old(State()), State(), {p}) && procs[p].state == Invalid
      ensures Withdrawn(old(State()), p, State())
    {
      ghost var s := State();
      ghost var k := BecomeNonReady(p);
      DroppedIsConsistent(s, p, k);
      DropKeepsGuarantee(s, p, k);
      WithdrawnWaiting(s, p, k);
    }

    // The idle core gets the best process that may use it.
    method RunBest(cpu: Cpu)
      requires Consistent(State()) && GuaranteeElsewhere(State(), cpu) && cpu in cores && cpu !in core
      modifies this`procs, this`core
      ensures Consistent(State()) && Guarantee(State())
      ensures Rescheduled(old(State()), State()) && SameRunnable(old(State()), State(), {})
      ensures PassedOn(old(State()), cpu, State())
    {
      var r := QueueGet(cpu);
      if r >= 0 {
        StartedIsConsistent(State(), r, cpu);
        BestKeepsGuarantee(State(), r, cpu);
        SwitchIn(cpu, r);
      } else {
        NobodyKeepsGuarantee(State(), cpu);
      }
    }

    // A running process leaves its core and the queue.
    method Leave(p: Pid)
      requires Consistent(State()) && Guarantee(State()) && p in procs && procs[p].state == Running
      modifies this`procs, this`core, this`queue
      ensures Consistent(State()) && GuaranteeElsewhere(State(), old(procs[p].cpu)) && old(procs[p].cpu) in cores
      ensures procs == old(procs)[p := old(procs)[p].(state := Invalid)] && core == old(core) - {old(procs[p].cpu)}
      ensures Leaves(old(State()), p, State())
      ensures Rescheduled(old(State()), State()) && SameRunnable(old(State()), State(), {p})
    {
      ghost var s := State();
      assert p in s.queue;
      SwitchOut(p);
      ghost var k := BecomeNonReady(p);
      StoppedIsConsistent(s, p);
      DroppedIsConsistent(Stopped(s, p), p, k);
      LeaveKeepsElsewhere(s, p, k);
    }
  }

  // Runnable processes other than those of `but` stay so, and busy cores stay busy.
  ghost predicate Quiet(s: Schedule, n: Schedule, but: set<Pid>) {
    Rescheduled(s, n) && SameRunnable(s, n, but) && s.core.Keys <= n.core.Keys
  }

  lemma RescheduledThen(a: Schedule, b: Schedule, c: Schedule, p: Pid)
    requires Rescheduled(a, b) && SameRunnable(a, b, {p}) && Rescheduled(b, c) && SameRunnable(b, c, {}) && p in b.procs
    ensures Rescheduled(a, c) && SameRunnable(a, c, {p}) && (c.procs[p].state == Invalid <==> b.procs[p].state == Invalid)
  {
  }

  lemma QuietThen(a: Schedule, b: Schedule, c: Schedule, p: Pid)
    requires Quiet(a, b, {p}) && Quiet(b, c, {}) && p in b.procs && b.procs[p].state != Invalid
    ensures Quiet(a, c, {p}) && c.procs[p].state != Invalid
  {
    RescheduledThen(a, b, c, p);
  }

  lemma QuietTrans(a: Schedule, b: Schedule, c: Schedule, d: Schedule, p: Pid, v: Pid)
    requires Quiet(a, b, {p}) && Quiet(b, c, {v}) && Quiet(c, d, {v})
    requires p in a.procs && v in a.procs && v != p
    requires b.procs[v].state != Invalid && d.procs[v].state != Invalid && c.procs[p].state != Invalid
    requires a.procs[v].state != Invalid
    ensures Quiet(a, d, {p}) && d.procs[p].state != Invalid
  {
  }

  // ---------- when a process leaves ----------

  // The guarantee, but for one core.
  ghost predicate GuaranteeElsewhere(s: Schedule, cpu: Cpu) {
    forall p, c :: p in s.procs && s.procs[p].state == Ready && c in s.cores && c != cpu && Compatible(s.procs[p], c)
      ==> Taken(s, c, s.procs[p])
  }

  lemma LeaveKeepsElsewhere(s: Schedule, p: Pid, k: nat)
    requires Consistent(s) && Guarantee(s) && p in s.procs && s.procs[p].state == Running && k < |s.queue|
    ensures GuaranteeElsewhere(Dropped(Stopped(s, p), p, k), s.procs[p].cpu)
  {
    var n := Dropped(Stopped(s, p), p, k);
    forall r, c | r in n.procs && n.procs[r].state == Ready && c in n.cores && c != s.procs[p].cpu && Compatible(n.procs[r], c)
      ensures Taken(n, c, n.procs[r])
    {
      assert WaitsFairly(s, s.procs[r]);
      assert Taken(s, c, s.procs[r]);
    }
  }

  lemma BestKeepsGuarantee(s: Schedule, r: Pid, cpu: Cpu)
    requires Consistent(s) && GuaranteeElsewhere(s, cpu) && r in s.procs && s.procs[r].state == Ready && cpu !in s.core
    requires forall p :: p in s.procs && s.procs[p].state == Ready && Compatible(s.procs[p], cpu)
               ==> s.procs[r].priority <= s.procs[p].priority
    ensures Guarantee(Started(s, r, cpu))
  {
    var n := Started(s, r, cpu);
    forall p | p in n.procs && n.procs[p].state == Ready
      ensures WaitsFairly(n, n.procs[p])
    {
      forall c | c in n.cores && Compatible(n.procs[p], c)
        ensures Taken(n, c, n.procs[p])
      {
        assert c != cpu ==> Taken(s, c, s.procs[p]);
      }
    }
  }

  lemma NobodyKeepsGuarantee(s: Schedule, cpu: Cpu)
    requires GuaranteeElsewhere(s, cpu)
    requires forall p :: p in s.procs && s.procs[p].state == Ready ==> !Compatible(s.procs[p], cpu)
    ensures Guarantee(s)
  {
    forall p | p in s.procs && s.procs[p].state == Ready
      ensures WaitsFairly(s, s.procs[p])
    {
      assert forall c :: c in s.cores && Compatible(s.procs[p], c) ==> Taken(s, c, s.procs[p]);
    }
  }

  lemma DropKeepsGuarantee(s: Schedule, p: Pid, k: nat)
    requires Consistent(s) && Guarantee(s) && p in s.procs && s.procs[p].state == Ready && k < |s.queue|
    ensures Guarantee(Dropped(s, p, k))
  {
    var n := Dropped(s, p, k);
    forall r | r in n.procs && n.procs[r].state == Ready
      ensures WaitsFairly(n, n.procs[r])
    {
      assert WaitsFairly(s, s.procs[r]);
      assert forall c :: Taken(s, c, s.procs[r]) ==> Taken(n, c, n.procs[r]);
    }
  }

  // The last process in the queue, from k on, that could be evicted stands at m, or there is none.
  ghost predicate LastVictim(s: Schedule, me: Process, k: nat, victim: int, m: nat) {
    if victim < 0 then forall i :: k <= i < |s.queue| ==> !MayEvict(s, me, s.queue[i])
    else k <= m < |s.queue| && s.queue[m] == victim && MayEvict(s, me, victim)
         && forall j :: m < j < |s.queue| ==> !MayEvict(s, me, s.queue[j])
  }

  lemma VictimInQueue(s: Schedule, p: Pid, k: nat, victim: int, m: nat)
    requires Queued(s) && p in s.procs && s.procs[p].state == Invalid && k <= |s.queue| && Belongs(s, p, k)
    requires LastVictim(s, s.procs[p], k, victim, m)
    ensures IsVictim(Readied(s, p, k), Readied(s, p, k).procs[p], victim)
  {
    if victim < 0 {
      NoVictim(s, p, k);
    } else {
      SameVictim(s, p, k, m);
    }
  }

  lemma NoVictim(s: Schedule, p: Pid, k: nat)
    requires Queued(s) && p in s.procs && s.procs[p].state == Invalid && k <= |s.queue| && Belongs(s, p, k)
    requires forall i :: k <= i < |s.queue| ==> !MayEvict(s, s.procs[p], s.queue[i])
    ensures forall v :: v in Readied(s, p, k).queue ==> !MayEvict(Readied(s, p, k), Readied(s, p, k).procs[p], v)
  {
    var n := Readied(s, p, k);
    Inserted(s.queue, k, p);
    forall v | v in n.queue
      ensures !MayEvict(n, n.procs[p], v)
    {
      if v != p {
        var i :| 0 <= i < |s.queue| && s.queue[i] == v;
        assert i < k ==> s.procs[v].priority <= s.procs[p].priority;
      }
    }
  }

  // With no place and nobody to evict the process waits for good reason.
  lemma NobodyToEvict(r: Schedule, p: Pid)
    requires Consistent(r) && GuaranteeBut(r, {p}) && NoPlace(r, p) && r.procs[p].state == Ready
    requires IsVictim(r, r.procs[p], -1)
    ensures Guarantee(r) && Stays(r, p, r)
  {
    forall c | c in r.cores && Compatible(r.procs[p], c)
      ensures !MayEvict(r, r.procs[p], r.core[c])
    {
      assert r.core[c] in r.queue;
    }
    WaitKeepsGuarantee(r, p);
  }

  lemma SameVictim(s: Schedule, p: Pid, k: nat, m: nat)
    requires Queued(s) && p in s.procs && s.procs[p].state == Invalid && k <= m < |s.queue|
    requires MayEvict(s, s.procs[p], s.queue[m])
    requires forall j :: m < j < |s.queue| ==> !MayEvict(s, s.procs[p], s.queue[j])
    ensures IsVictim(Readied(s, p, k), Readied(s, p, k).procs[p], s.queue[m])
  {
    var n := Readied(s, p, k);
    InsertedBehind(s.queue, k, p, m);
    assert s.queue[m] != p;
    SameEviction(s, p, k, s.queue[m]);
    forall j | m + 1 < j < |n.queue|
      ensures !MayEvict(n, n.procs[p], n.queue[j])
    {
      InsertedBehind(s.queue, k, p, j - 1);
      SameEviction(s, p, k, s.queue[j - 1]);
    }
    assert n.queue[m + 1] == s.queue[m];
  }

  lemma InsertedBehind(q: seq<Pid>, k: nat, p: Pid, i: nat)
    requires k <= i < |q|
    ensures var r := q[..k] + [p] + q[k..]; |r| == |q| + 1 && r[i + 1] == q[i]
  {
  }

  lemma SameEviction(s: Schedule, p: Pid, k: nat, v: Pid)
    requires p in s.procs && k <= |s.queue|
    ensures v != p ==> (MayEvict(Readied(s, p, k), Readied(s, p, k).procs[p], v) <==> MayEvict(s, s.procs[p], v))
  {
  }
}
