/**
 Whole runs of the speculative versioned memory, and the equivalence with sequential execution.
 */
module SpeculativeRuns {
  import opened Options
  import opened Chunks
  import opened VersionedMemory
  import opened SequentialEquivalence

  // ---------- the reference order is the stable sort ----------

  lemma {:induction false} ProjectionSplit(a: seq<Op>, b: seq<Op>, v: Version)
    ensures OfVersion(a + b, v) == OfVersion(a, v) + OfVersion(b, v)
  {
    if b == [] {
      assert a + b == a;
    } else {
      assert (a + b)[..|a + b| - 1] == a + b[..|b| - 1];
      ProjectionSplit(a, b[..|b| - 1], v);
    }
  }

  lemma {:induction false} NothingOfVersion(a: seq<Op>, v: Version)
    requires forall op :: op in a ==> op.ver != v
    ensures OfVersion(a, v) == []
  {
    if a != [] {
      NothingOfVersion(a[..|a| - 1], v);
    }
  }

  lemma InsertProjection(ops: seq<Op>, op: Op, v: Version)
    requires Sorted(ops)
    ensures OfVersion(Insert(ops, op), v) == OfVersion(ops + [op], v)
  {
    var p := Upto(ops, op.ver);
    var a, b := ops[..p], ops[p..];
    assert ops == a + b;
    ProjectionSplit(a + [op], b, v);
    ProjectionSplit(a, [op], v);
    ProjectionSplit(a, b, v);
    ProjectionSplit(ops, [op], v);
    if v == op.ver {
      NothingOfVersion(b, v);
    } else {
      NothingOfVersion([op], v);
    }
    SwapEmpty(OfVersion(a, v), OfVersion([op], v), OfVersion(b, v));
  }

  lemma SwapEmpty(x: seq<Op>, y: seq<Op>, z: seq<Op>)
    requires y == [] || z == []
    ensures x + y + z == x + z + y
  {
  }

  // The reference order is sorted by version and keeps every version's program order.
  lemma {:induction false} ByVersionIsVersionOrder(h: seq<Op>)
    ensures VersionOrder(h, ByVersion(h))
  {
    if h != [] {
      var front, op := h[..|h| - 1], h[|h| - 1];
      ByVersionIsVersionOrder(front);
      InsertSorted(ByVersion(front), op);
      forall v
        ensures OfVersion(ByVersion(h), v) == OfVersion(h, v)
      {
        InsertProjection(ByVersion(front), op, v);
        ProjectionSplit(ByVersion(front), [op], v);
      }
    }
  }

  lemma SpliceTake<T>(s: seq<T>, p: nat, x: T, q: nat)
    requires p <= q <= |s|
    ensures Splice(s, p, x)[..q + 1] == Splice(s[..q], p, x)
  {
  }

  lemma SpliceBehind<T>(a: seq<T>, b: seq<T>, p: nat, x: T)
    requires p <= |b|
    ensures Splice(a + b, |a| + p, x) == a + Splice(b, p, x)
  {
    assert (a + b)[..|a| + p] == a + b[..p];
  }

  lemma SeenAfterInsert(ops: seq<Op>, op: Op, w: Version)
    requires Sorted(ops)
    ensures op.ver < w ==> Seen(Insert(ops, op), w - 1) == Insert(Seen(ops, w - 1), op)
    ensures op.ver >= w ==> Seen(Insert(ops, op), w - 1) == Seen(ops, w - 1)
  {
    if op.ver < w {
      SeenIsInserted(ops, op, w - 1);
    } else {
      SeenIsSame(ops, op, w - 1);
    }
  }

  lemma SeenIsInserted(ops: seq<Op>, op: Op, v: Version)
    requires Sorted(ops) && op.ver <= v
    ensures Seen(Insert(ops, op), v) == Insert(Seen(ops, v), op)
  {
    UptoInsert(ops, op, v);
    UptoOfSeen(ops, op.ver, v);
    SeenWithInserted(ops, op, v);
  }

  lemma SeenIsSame(ops: seq<Op>, op: Op, v: Version)
    requires Sorted(ops) && op.ver > v
    ensures Seen(Insert(ops, op), v) == Seen(ops, v)
  {
    UptoInsert(ops, op, v);
    UptoMonotone(ops, v, op.ver);
    SeenBeforeInserted(ops, op, v);
  }

  lemma SeenBeforeInserted(ops: seq<Op>, op: Op, v: Version)
    requires Upto(ops, v) <= Upto(ops, op.ver) && Upto(Insert(ops, op), v) == Upto(ops, v)
    ensures Seen(Insert(ops, op), v) == Seen(ops, v)
  {
    PrefixBeforeInsert(ops, op, Upto(ops, v));
  }

  lemma SeenWithInserted(ops: seq<Op>, op: Op, v: Version)
    requires Upto(ops, op.ver) <= Upto(ops, v) && Upto(Insert(ops, op), v) == Upto(ops, v) + 1
    requires Upto(Seen(ops, v), op.ver) == Upto(ops, op.ver)
    ensures Seen(Insert(ops, op), v) == Insert(Seen(ops, v), op)
  {
    SpliceTake(ops, Upto(ops, op.ver), op, Upto(ops, v));
  }

  lemma UptoOfSeen(ops: seq<Op>, u: Version, v: Version)
    requires Sorted(ops) && u <= v
    ensures Upto(Seen(ops, v), u) == Upto(ops, u) <= Upto(ops, v)
  {
    UptoMonotone(ops, u, v);
    UptoUnique(Seen(ops, v), u, Upto(ops, u));
  }

  lemma InsertLast(h: seq<Op>, op: Op)
    ensures ByVersion(h + [op]) == Insert(ByVersion(h), op)
  {
    assert (h + [op])[..|h|] == h;
  }

  // Killing a suffix of versions cuts the reference order.
  lemma {:induction false} KillCutsOrder(h: seq<Op>, w: Version)
    ensures ByVersion(Older(h, w)) == Seen(ByVersion(h), w - 1)
  {
    if h != [] {
      KillCutsOrder(h[..|h| - 1], w);
      KillCutsLast(h[..|h| - 1], h[|h| - 1], h, w);
    }
  }

  lemma OlderLast(h: seq<Op>, w: Version)
    requires h != []
    ensures var front, op := h[..|h| - 1], h[|h| - 1];
      Older(h, w) == if op.ver < w then Older(front, w) + [op] else Older(front, w)
  {
  }

  lemma KillCutsLast(front: seq<Op>, op: Op, h: seq<Op>, w: Version)
    requires h != [] && front == h[..|h| - 1] && op == h[|h| - 1]
    requires ByVersion(Older(front, w)) == Seen(ByVersion(front), w - 1)
    ensures ByVersion(Older(h, w)) == Seen(ByVersion(h), w - 1)
  {
    ByVersionIsVersionOrder(front);
    SeenAfterInsert(ByVersion(front), op, w);
    OlderLast(h, w);
    if op.ver < w {
      InsertLast(Older(front, w), op);
    }
  }

  // ---------- one step of a run ----------

  // `done` has been merged into memory, `live` still lives in cells.
  ghost predicate Split(m0: Memory, done: seq<Op>, live: seq<Op>, s: State) {
    && InMemory(m0, done) && s.mem == Execute(m0, done)
    && (forall op :: op in done ==> op.ver <= s.floor)
    && Sorted(done)
    && (forall k :: 0 <= k < |done| ==> ReadAgrees(m0, done, k))
    && Agrees(live, s)
  }

  lemma InsertBehind(done: seq<Op>, live: seq<Op>, op: Op)
    requires forall o :: o in done ==> o.ver <= op.ver
    requires Sorted(done + live) && Sorted(live)
    ensures Insert(done + live, op) == done + Insert(live, op)
  {
    var p := Upto(live, op.ver);
    UptoUnique(done + live, op.ver, |done| + p);
    SpliceBehind(done, live, p, op);
  }

  lemma SplitSorted(m0: Memory, done: seq<Op>, live: seq<Op>, s: State)
    requires Split(m0, done, live, s)
    ensures Sorted(done + live)
  {
    forall j, k | 0 <= j < k < |done + live|
      ensures (done + live)[j].ver <= (done + live)[k].ver
    {
      if j < |done| <= k {
        assert done[j] in done && live[k - |done|] in live;
      }
    }
  }

  lemma KillBehind(m0: Memory, done: seq<Op>, live: seq<Op>, s: State, w: Version)
    requires Split(m0, done, live, s) && s.floor < w
    ensures Seen(done + live, w - 1) == done + Seen(live, w - 1)
  {
    SplitSorted(m0, done, live, s);
    var q := Upto(live, w - 1);
    UptoUnique(done + live, w - 1, |done| + q);
  }

  lemma AccessStep(m0: Memory, done: seq<Op>, live: seq<Op>, s: State, op: Op, s': State) returns (live': seq<Op>)
    requires Split(m0, done, live, s)
    requires if op.write then WriteStep(s, op.chunk, op.ver, op.acc, op.value, None, s')
             else ReadStep(s, op.chunk, op.ver, op.acc, op.value, s')
    ensures Split(m0, done, live', s')
    ensures done + live' == Insert(done + live, op)
  {
    live' := Insert(live, op);
    SplitSorted(m0, done, live, s);
    InsertBehind(done, live, op);
    if op.write {
      WriteKeepsAgreement(live, s, op.chunk, op.ver, op.acc, op.value, s');
    } else {
      ReadKeepsAgreement(live, s, op.chunk, op.ver, op.acc, op.value, s');
    }
  }

  // A reported write and the kill that follows it.
  lemma ReportedStep(m0: Memory, done: seq<Op>, live: seq<Op>, s: State, op: Op, w: Version, s': State)
    returns (live': seq<Op>)
    requires Split(m0, done, live, s) && op.write
    requires exists t :: WriteStep(s, op.chunk, op.ver, op.acc, op.value, Some(w), t) && KillStep(t, w, s')
    ensures op.ver < w && Split(m0, done, live', s')
    ensures done + live' == Insert(Seen(done + live, w - 1), op)
  {
    var t :| WriteStep(s, op.chunk, op.ver, op.acc, op.value, Some(w), t) && KillStep(t, w, s');
    ReportedWrite(s, op.chunk, op.ver, op.acc, op.value, w, t);
    KillKeepsAgreement(live, s, w, Killed(s, w));
    KillBehind(m0, done, live, s, w);
    live' := AccessStep(m0, done, Seen(live, w - 1), Killed(s, w), op, s');
  }

  lemma MergeMoves(m0: Memory, done: seq<Op>, live: seq<Op>, s: State, v: Version, s': State)
    returns (done': seq<Op>, live': seq<Op>)
    requires Split(m0, done, live, s) && MergeStep(s, v, s')
    ensures Split(m0, done', live', s')
    ensures done' + live' == done + live
  {
    var a := Seen(live, v);
    done', live' := done + a, live[Upto(live, v)..];
    MergeKeepsAgreement(live, s, v, s');
    MergeIsExecution(live, s, v, s');
    SplitSorted(m0, done, live, s);
    ExecuteCompose(m0, done, a);
    MergedPart(m0, done, live, v);
    Regroup(done, live, Upto(live, v));
  }

  lemma Regroup<T>(a: seq<T>, b: seq<T>, p: nat)
    requires p <= |b|
    ensures a + b[..p] + b[p..] == a + b
  {
  }

  // The merged operations, with those of version v added.
  lemma MergedPart(m0: Memory, done: seq<Op>, live: seq<Op>, v: Version)
    requires InMemory(m0, done) && InMemory(m0, live) && Sorted(done + live) && Sorted(live)
    requires forall op :: op in done ==> op.ver <= v
    requires forall k :: 0 <= k < |done| ==> ReadAgrees(m0, done, k)
    requires forall k :: 0 <= k < |live| ==> ReadAgrees(Execute(m0, done), live, k)
    ensures Sorted(done + Seen(live, v))
    ensures forall op :: op in done + Seen(live, v) ==> op.ver <= v
    ensures InMemory(m0, done + Seen(live, v))
    ensures forall k :: 0 <= k < |done + Seen(live, v)| ==> ReadAgrees(m0, done + Seen(live, v), k)
  {
    var all := done + Seen(live, v);
    assert forall k :: 0 <= k < |all| ==> all[k] == (done + live)[k];
    forall k | 0 <= k < |all|
      ensures ReadAgrees(m0, all, k)
    {
      CombinedRead(m0, done, Seen(live, v), k, live);
    }
  }

  lemma {:induction false} ExecuteCompose(m: Memory, a: seq<Op>, b: seq<Op>)
    requires InMemory(m, a) && InMemory(m, b)
    ensures InMemory(m, a + b) && Execute(m, a + b) == Execute(Execute(m, a), b)
  {
    if b == [] {
      assert a + b == a;
    } else {
      assert (a + b)[..|a + b| - 1] == a + b[..|b| - 1];
      ExecuteCompose(m, a, b[..|b| - 1]);
    }
  }

  lemma CombinedRead(m: Memory, done: seq<Op>, a: seq<Op>, k: nat, live: seq<Op>)
    requires InMemory(m, done) && InMemory(m, a) && k < |done + a| && a <= live && InMemory(m, live)
    requires k < |done| ==> ReadAgrees(m, done, k)
    requires |done| <= k ==> ReadAgrees(Execute(m, done), live, k - |done|)
    ensures ReadAgrees(m, done + a, k)
  {
    var all := done + a;
    if k < |done| {
      assert all[..k] == done[..k];
    } else {
      var j := k - |done|;
      assert all[..k] == done + a[..j] && a[..j] == live[..j];
      forall i | i in all[k].acc
        ensures ByteAfter(m, all[..k], all[k].chunk, i) == ByteAfter(Execute(m, done), live[..j], all[k].chunk, i)
      {
        ByteCompose(m, done, a[..j], all[k].chunk, i);
      }
    }
  }

  // ---------- runs ----------

  lemma StepKeepsSplit(m0: Memory, done: seq<Op>, live: seq<Op>, s: State, ev: Event, s': State, h: seq<Op>)
    returns (done': seq<Op>, live': seq<Op>)
    requires Split(m0, done, live, s) && Next(s, ev, s')
    requires done + live == ByVersion(h)
    ensures Split(m0, done', live', s')
    ensures done' + live' == ByVersion(After(h, ev))
  {
    done' := done;
    match ev
    case Read(c, v, acc, d) => live' := AccessEvent(m0, done, live, s, Op(false, c, v, acc, d), s', h);
    case Write(c, v, acc, d, r) =>
      if r.None? {
        live' := AccessEvent(m0, done, live, s, Op(true, c, v, acc, d), s', h);
      } else {
        live' := ReportedEvent(m0, done, live, s, Op(true, c, v, acc, d), r.value, s', h);
      }
    case Kill(w) => live' := KillEvent(m0, done, live, s, w, s', h);
    case Merge(v) => done', live' := MergeMoves(m0, done, live, s, v, s');
  }

  lemma AccessEvent(m0: Memory, done: seq<Op>, live: seq<Op>, s: State, op: Op, s': State, h: seq<Op>)
    returns (live': seq<Op>)
    requires Split(m0, done, live, s) && done + live == ByVersion(h)
    requires if op.write then WriteStep(s, op.chunk, op.ver, op.acc, op.value, None, s')
             else ReadStep(s, op.chunk, op.ver, op.acc, op.value, s')
    ensures Split(m0, done, live', s') && done + live' == ByVersion(h + [op])
  {
    live' := AccessStep(m0, done, live, s, op, s');
    InsertLast(h, op);
  }

  lemma ReportedEvent(m0: Memory, done: seq<Op>, live: seq<Op>, s: State, op: Op, w: Version, s': State, h: seq<Op>)
    returns (live': seq<Op>)
    requires Split(m0, done, live, s) && op.write && done + live == ByVersion(h)
    requires exists t :: WriteStep(s, op.chunk, op.ver, op.acc, op.value, Some(w), t) && KillStep(t, w, s')
    ensures Split(m0, done, live', s') && done + live' == ByVersion(Older(h + [op], w))
  {
    live' := ReportedStep(m0, done, live, s, op, w, s');
    ReportedOrder(h, op, w);
  }

  lemma KillEvent(m0: Memory, done: seq<Op>, live: seq<Op>, s: State, w: Version, s': State, h: seq<Op>)
    returns (live': seq<Op>)
    requires Split(m0, done, live, s) && KillStep(s, w, s') && done + live == ByVersion(h)
    ensures Split(m0, done, live', s') && done + live' == ByVersion(Older(h, w))
  {
    live' := Seen(live, w - 1);
    KillKeepsAgreement(live, s, w, s');
    KillBehind(m0, done, live, s, w);
    KillCutsOrder(h, w);
  }

  // A write by an older version stays when a suffix of versions is killed.
  lemma ReportedOrder(h: seq<Op>, op: Op, w: Version)
    requires op.ver < w
    ensures ByVersion(Older(h + [op], w)) == Insert(Seen(ByVersion(h), w - 1), op)
  {
    ByVersionIsVersionOrder(h);
    KillCutsOrder(h + [op], w);
    InsertLast(h, op);
    SeenAfterInsert(ByVersion(h), op, w);
  }

  lemma {:induction false} RunSplits(m0: Memory, states: seq<State>, events: seq<Event>)
    returns (done: seq<Op>, live: seq<Op>)
    requires IsRun(m0, states, events)
    ensures Split(m0, done, live, states[|events|])
    ensures done + live == ByVersion(Survivors(events))
  {
    if events == [] {
      done, live := [], [];
    } else {
      var n := |events| - 1;
      done, live := RunSplits(m0, states[..n + 1], events[..n]);
      done, live := StepKeepsSplit(m0, done, live, states[n], events[n], states[n + 1], Survivors(events[..n]));
    }
  }

  /** Sequential equivalence. In every run, executing the surviving operations one version after
      another on flat memory gives each read the value it had; and once nothing is left to merge,
      it gives the memory of the run. */
  lemma EveryRunIsSequential(m0: Memory, states: seq<State>, events: seq<Event>)
    requires IsRun(m0, states, events)
    ensures VersionOrder(Survivors(events), ByVersion(Survivors(events)))
    ensures InMemory(m0, ByVersion(Survivors(events)))
    ensures ReadsAgree(m0, ByVersion(Survivors(events)))
    ensures states[|events|].cells == map[] ==> states[|events|].mem == Execute(m0, ByVersion(Survivors(events)))
  {
    ByVersionIsVersionOrder(Survivors(events));
    var done, live := RunSplits(m0, states, events);
    ExecuteCompose(m0, done, live);
    var ops := done + live;
    forall k | 0 <= k < |ops| && !ops[k].write
      ensures forall i :: i in ops[k].acc ==> ops[k].value[i] == Execute(m0, ops[..k])[ops[k].chunk][i]
    {
      CombinedRead(m0, done, live, k, live);
      assert ReadAgrees(m0, ops, k);
      forall i | i in ops[k].acc
        ensures ops[k].value[i] == Execute(m0, ops[..k])[ops[k].chunk][i]
      {
        ExecuteIsBytewise(m0, ops[..k], ops[k].chunk, i);
      }
    }
    if states[|events|].cells == map[] {
      assert forall op :: op !in live;
      assert live == [];
      assert ops == done;
    }
  }
}
