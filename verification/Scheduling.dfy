/**
 The state of the process scheduler as a value, for cores that run one process at a time: the
 processes, the queue of those that are ready or running, and what runs on each core.
 */
module Scheduling {
  type Pid = nat
  type Cpu = int

  datatype Status = Invalid | Ready | Running

  // Lower numbers are better priorities. `cpu` is where the process runs, ran or wants to run, or
  // negative.
  datatype Process = Process(state: Status, priority: int, cpu: Cpu, migrable: bool, pinned: bool)

  datatype Schedule = Schedule(procs: map<Pid, Process>, queue: seq<Pid>, core: map<Cpu, Pid>, cores: set<Cpu>)

  predicate Compatible(p: Process, c: Cpu) {
    !p.pinned || p.cpu == c
  }

  // ---------- what always holds ----------

  ghost predicate Known(q: seq<Pid>, procs: map<Pid, Process>) {
    forall i :: 0 <= i < |q| ==> q[i] in procs
  }

  // Sorted by priority, best first.
  ghost predicate Sorted(q: seq<Pid>, procs: map<Pid, Process>)
    requires Known(q, procs)
  {
    forall i, j :: 0 <= i < j < |q| ==> procs[q[i]].priority <= procs[q[j]].priority
  }

  ghost predicate Distinct(q: seq<Pid>) {
    forall i, j :: 0 <= i < j < |q| ==> q[i] != q[j]
  }

  // The queue holds the ready and the running processes, in order of priority.
  ghost predicate Queued(s: Schedule) {
    && Known(s.queue, s.procs) && Sorted(s.queue, s.procs) && Distinct(s.queue)
    && forall p :: p in s.procs ==> (s.procs[p].state != Invalid <==> p in s.queue)
  }

  // Processes and cores agree on what runs where.
  ghost predicate Placed(s: Schedule) {
    && (forall c :: c in s.cores ==> c >= 0)
    && (forall c :: c in s.core ==>
          c in s.cores && s.core[c] in s.procs && s.procs[s.core[c]].state == Running && s.procs[s.core[c]].cpu == c)
    && (forall p :: p in s.procs && s.procs[p].state == Running ==> s.procs[p].cpu in s.core && s.core[s.procs[p].cpu] == p)
    && (forall p :: p in s.procs && (s.procs[p].cpu >= 0 || s.procs[p].pinned) ==> s.procs[p].cpu in s.cores)
    && forall p :: p in s.procs && s.procs[p].state == Running && !s.procs[p].migrable ==> s.procs[p].pinned
  }

  // The core is taken by a process that is not worse than r.
  ghost predicate Taken(s: Schedule, c: Cpu, r: Process) {
    c in s.core && s.core[c] in s.procs && s.procs[s.core[c]].priority <= r.priority
  }

  // A ready process waits for good reason: each core it may use is taken.
  ghost predicate WaitsFairly(s: Schedule, r: Process) {
    forall c :: c in s.cores && Compatible(r, c) ==> Taken(s, c, r)
  }

  // The scheduler's guarantee, for all ready processes but one.
  ghost predicate GuaranteeBut(s: Schedule, but: set<Pid>) {
    forall p :: p in s.procs && p !in but && s.procs[p].state == Ready ==> WaitsFairly(s, s.procs[p])
  }

  ghost predicate Guarantee(s: Schedule) {
    GuaranteeBut(s, {})
  }

  ghost predicate Consistent(s: Schedule) {
    Queued(s) && Placed(s)
  }

  /** What the guarantee says: no ready process could use an idle core, and none is better than a
      process that runs on a core it could use. */
  lemma GuaranteeMeans(s: Schedule)
    requires Consistent(s)
    ensures Guarantee(s) <==>
      (forall p, c :: p in s.procs && s.procs[p].state == Ready && c in s.cores && Compatible(s.procs[p], c) ==>
         c in s.core && forall q :: q in s.procs && s.procs[q].state == Running && s.procs[q].cpu == c ==>
                          s.procs[q].priority <= s.procs[p].priority)
  {
    if Guarantee(s) {
      forall p, c | p in s.procs && s.procs[p].state == Ready && c in s.cores && Compatible(s.procs[p], c)
        ensures c in s.core && forall q :: q in s.procs && s.procs[q].state == Running && s.procs[q].cpu == c ==>
                                 s.procs[q].priority <= s.procs[p].priority
      {
        assert WaitsFairly(s, s.procs[p]);
        assert Taken(s, c, s.procs[p]);
      }
    }
  }

  // ---------- the elementary changes ----------

  function Readied(s: Schedule, p: Pid, k: nat): Schedule
    requires p in s.procs && k <= |s.queue|
  {
    s.(procs := s.procs[p := s.procs[p].(state := Ready)], queue := s.queue[..k] + [p] + s.queue[k..])
  }

  function Started(s: Schedule, p: Pid, c: Cpu): Schedule
    requires p in s.procs
  {
    var x := s.procs[p];
    s.(procs := s.procs[p := x.(state := Running, cpu := c, pinned := x.pinned || !x.migrable)], core := s.core[c := p])
  }

  function Stopped(s: Schedule, p: Pid): Schedule
    requires p in s.procs
  {
    s.(procs := s.procs[p := s.procs[p].(state := Ready)], core := s.core - {s.procs[p].cpu})
  }

  function Dropped(s: Schedule, p: Pid, k: nat): Schedule
    requires p in s.procs && k < |s.queue|
  {
    s.(procs := s.procs[p := s.procs[p].(state := Invalid)], queue := s.queue[..k] + s.queue[k + 1..])
  }

  // Where the queue takes a new process: behind all that are not worse.
  ghost predicate Belongs(s: Schedule, p: Pid, k: nat)
    requires Known(s.queue, s.procs) && p in s.procs && k <= |s.queue|
  {
    && (forall i :: 0 <= i < k ==> s.procs[s.queue[i]].priority <= s.procs[p].priority)
    && (forall i :: k <= i < |s.queue| ==> s.procs[s.queue[i]].priority > s.procs[p].priority)
  }

  lemma ReadiedIsConsistent(s: Schedule, p: Pid, k: nat)
    requires Consistent(s) && Guarantee(s) && p in s.procs && s.procs[p].state == Invalid
    requires k <= |s.queue| && Belongs(s, p, k)
    ensures Consistent(Readied(s, p, k)) && GuaranteeBut(Readied(s, p, k), {p})
  {
    ReadiedIsQueued(s, p, k);
    var n := Readied(s, p, k);
    forall r | r in n.procs && r != p && n.procs[r].state == Ready
      ensures WaitsFairly(n, n.procs[r])
    {
      assert WaitsFairly(s, s.procs[r]);
      assert forall c :: Taken(s, c, s.procs[r]) ==> Taken(n, c, n.procs[r]);
    }
  }

  lemma ReadiedIsQueued(s: Schedule, p: Pid, k: nat)
    requires Queued(s) && p in s.procs && s.procs[p].state == Invalid && k <= |s.queue| && Belongs(s, p, k)
    ensures Queued(Readied(s, p, k))
  {
    var n := Readied(s, p, k);
    Inserted(s.queue, k, p);
    assert Known(n.queue, n.procs);
    forall i, j | 0 <= i < j < |n.queue|
      ensures n.procs[n.queue[i]].priority <= n.procs[n.queue[j]].priority
    {
      assert n.queue[i] == if i < k then s.queue[i] else if i == k then p else s.queue[i - 1];
      assert n.queue[j] == if j < k then s.queue[j] else if j == k then p else s.queue[j - 1];
    }
  }

  lemma Inserted(q: seq<Pid>, k: nat, p: Pid)
    requires Distinct(q) && k <= |q| && p !in q
    ensures var r := q[..k] + [p] + q[k..];
      && Distinct(r) && (forall x :: x in r <==> x == p || x in q)
      && |r| == |q| + 1 && forall i :: 0 <= i < |r| ==> r[i] == if i < k then q[i] else if i == k then p else q[i - 1]
  {
    assert q == q[..k] + q[k..];
  }

  lemma Removed(q: seq<Pid>, k: nat)
    requires Distinct(q) && k < |q|
    ensures var r := q[..k] + q[k + 1..];
      && Distinct(r) && (forall x :: x in r <==> x in q && x != q[k])
      && |r| == |q| - 1 && forall i :: 0 <= i < |r| ==> r[i] == q[if i < k then i else i + 1]
  {
    assert q == q[..k] + [q[k]] + q[k + 1..];
  }

  lemma StartedIsConsistent(s: Schedule, p: Pid, c: Cpu)
    requires Consistent(s) && p in s.procs && s.procs[p].state == Ready && c in s.cores && c !in s.core
    ensures Consistent(Started(s, p, c))
  {
    var n := Started(s, p, c);
    assert forall i :: 0 <= i < |n.queue| ==> n.queue[i] in s.procs && n.procs[n.queue[i]].priority == s.procs[s.queue[i]].priority;
    assert forall d :: d in n.core ==> d == c || (d in s.core && n.core[d] == s.core[d]);
  }

  lemma StoppedIsConsistent(s: Schedule, p: Pid)
    requires Consistent(s) && p in s.procs && s.procs[p].state == Running
    ensures Consistent(Stopped(s, p)) && s.procs[p].cpu in s.cores && s.procs[p].cpu !in Stopped(s, p).core
  {
    var n := Stopped(s, p);
    assert forall i :: 0 <= i < |n.queue| ==> n.queue[i] in s.procs && n.procs[n.queue[i]].priority == s.procs[s.queue[i]].priority;
  }

  lemma DroppedIsConsistent(s: Schedule, p: Pid, k: nat)
    requires Consistent(s) && p in s.procs && s.procs[p].state == Ready && k < |s.queue| && s.queue[k] == p
    ensures Consistent(Dropped(s, p, k))
  {
    Removed(s.queue, k);
    var n := Dropped(s, p, k);
    assert Known(n.queue, n.procs);
    assert Sorted(n.queue, n.procs);
  }

  // ---------- the guarantee ----------

  // A process starts on an idle core it may use.
  lemma StartKeepsGuarantee(s: Schedule, p: Pid, c: Cpu)
    requires Consistent(s) && GuaranteeBut(s, {p}) && p in s.procs && s.procs[p].state == Ready
    requires c in s.cores && c !in s.core
    ensures Guarantee(Started(s, p, c))
  {
    var n := Started(s, p, c);
    forall r | r in n.procs && n.procs[r].state == Ready
      ensures WaitsFairly(n, n.procs[r])
    {
      assert WaitsFairly(s, s.procs[r]);
      forall d | d in n.cores && Compatible(n.procs[r], d)
        ensures Taken(n, d, n.procs[r])
      {
        assert Taken(s, d, s.procs[r]);
      }
    }
  }

  // A process that may use neither an idle core nor one with a worse process waits.
  lemma WaitKeepsGuarantee(s: Schedule, p: Pid)
    requires Consistent(s) && GuaranteeBut(s, {p}) && p in s.procs && WaitsFairly(s, s.procs[p])
    ensures Guarantee(s)
  {
  }

  // A process takes the core of a worse one, which leaves.
  lemma EvictKeepsGuarantee(s: Schedule, p: Pid, v: Pid, k: nat)
    requires Consistent(s) && GuaranteeBut(s, {p}) && p in s.procs && s.procs[p].state == Ready
    requires v in s.procs && s.procs[v].state == Running && s.procs[p].priority < s.procs[v].priority
    requires k < |s.queue| && s.queue[k] == v
    ensures var n := Started(Stopped(s, v), p, s.procs[v].cpu);
      n.queue == s.queue && Consistent(Dropped(n, v, k)) && Guarantee(Dropped(n, v, k))
  {
    var c := s.procs[v].cpu;
    var n := Started(Stopped(s, v), p, c);
    StoppedIsConsistent(s, v);
    StartedIsConsistent(Stopped(s, v), p, c);
    DroppedIsConsistent(n, v, k);
    var d := Dropped(n, v, k);
    forall r | r in d.procs && d.procs[r].state == Ready
      ensures WaitsFairly(d, d.procs[r])
    {
      assert r != p && r != v && d.procs[r] == s.procs[r];
      assert WaitsFairly(s, s.procs[r]);
      forall e | e in d.cores && Compatible(d.procs[r], e)
        ensures Taken(d, e, d.procs[r])
      {
        assert Taken(s, e, s.procs[r]);
      }
    }
  }
}
