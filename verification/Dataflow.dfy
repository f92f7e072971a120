/**
 The dependence window of an out-of-order core as a value: who waits for whom, kept in lists that
 start at the producers, against the dataflow of the program.
 */
module Dataflow {
  type Reg = nat

  // An instruction in program order. `mem` is an older instruction that it waits for because of
  // memory, instead of the producer of its second source; or negative.
  datatype Inst = Inst(src1: Reg, src2: Reg, dest: Reg, pool: nat, mem: int)

  // One of the two pending slots of instruction id.
  datatype Slot = Slot(id: nat, second: bool)

  // `deps` lists the slots that wait for this instruction; `selects` counts how often it has been
  // selected for execution.
  datatype DInst = DInst(nDeps: nat, used1: bool, used2: bool, deps: seq<Slot>, selects: nat, executed: bool) {
    function Used(second: bool): bool { if second then used2 else used1 }
  }

  // ---------- the dataflow of the program ----------

  // The youngest of the first n instructions that writes r, or -1.
  function Latest(prog: seq<Inst>, n: nat, r: Reg): (p: int)
    requires n <= |prog|
    ensures -1 <= p < n
  {
    if n == 0 then -1 else if prog[n - 1].dest == r then n - 1 else Latest(prog, n - 1, r)
  }

  // The instruction that slot s waits for, or -1.
  function Producer(prog: seq<Inst>, s: Slot): (p: int)
    requires s.id < |prog|
  {
    var i := prog[s.id];
    if !s.second then Latest(prog, s.id, i.src1)
    else if i.mem >= 0 then i.mem
    else Latest(prog, s.id, i.src2)
  }

  ghost predicate MemOlder(prog: seq<Inst>) {
    forall i :: 0 <= i < |prog| ==> prog[i].mem < i
  }

  lemma ProducerIsOlder(prog: seq<Inst>, s: Slot)
    requires MemOlder(prog) && s.id < |prog|
    ensures Producer(prog, s) < s.id
  {
  }

  // p is the youngest instruction before i that writes r, or there is none and p is -1.
  ghost predicate YoungestWriter(prog: seq<Inst>, i: nat, r: Reg, p: int)
    requires i <= |prog|
  {
    -1 <= p < i && (p >= 0 ==> prog[p].dest == r) && forall j :: p < j < i ==> prog[j].dest != r
  }

  /** The first slot waits for the youngest older writer of the first source, the second one for the memory
      dependence if there is one, and else for the youngest older writer of the second source. */
  lemma ProducerExactly(prog: seq<Inst>, i: nat)
    requires i < |prog|
    ensures YoungestWriter(prog, i, prog[i].src1, Producer(prog, Slot(i, false)))
    ensures if prog[i].mem >= 0 then Producer(prog, Slot(i, true)) == prog[i].mem
            else YoungestWriter(prog, i, prog[i].src2, Producer(prog, Slot(i, true)))
  {
    LatestIsYoungest(prog, i, prog[i].src1);
    LatestIsYoungest(prog, i, prog[i].src2);
  }

  lemma {:induction false} LatestIsYoungest(prog: seq<Inst>, n: nat, r: Reg)
    requires n <= |prog|
    ensures YoungestWriter(prog, n, r, Latest(prog, n, r))
  {
    if n > 0 {
      LatestIsYoungest(prog, n - 1, r);
    }
  }

  lemma {:induction false} LatestPrefix(prog: seq<Inst>, more: Inst, n: nat, r: Reg)
    requires n <= |prog|
    ensures Latest(prog + [more], n, r) == Latest(prog, n, r)
  {
    if n > 0 {
      LatestPrefix(prog, more, n - 1, r);
    }
  }

  // The slot waits: its producer has not executed.
  ghost predicate Waits(prog: seq<Inst>, dyn: seq<DInst>, s: Slot)
    requires |dyn| == |prog|
  {
    s.id < |prog| && 0 <= Producer(prog, s) < |dyn| && !dyn[Producer(prog, s)].executed
  }

  // ---------- what always holds ----------

  function Count(d: DInst): nat {
    (if d.used1 then 1 else 0) + (if d.used2 then 1 else 0)
  }

  // Each slot once, in program order.
  ghost predicate Listed(s: seq<Slot>) {
    forall j, k :: 0 <= j < k < |s| ==> s[j] != s[k] && s[j].id <= s[k].id
  }

  // A slot is used exactly while it waits, nDeps counts the used ones, and an instruction has been
  // selected exactly once if none is left, else not at all.
  ghost predicate Tracked(prog: seq<Inst>, dyn: seq<DInst>, i: nat)
    requires |dyn| == |prog| && i < |dyn|
  {
    && (forall b :: dyn[i].Used(b) <==> Waits(prog, dyn, Slot(i, b)))
    && dyn[i].nDeps == Count(dyn[i])
    && dyn[i].selects == (if dyn[i].nDeps == 0 then 1 else 0)
    && (dyn[i].executed ==> dyn[i].nDeps == 0)
  }

  // The list of an instruction holds each slot that waits for it, once.
  ghost predicate ListRight(prog: seq<Inst>, dyn: seq<DInst>, p: nat)
    requires |dyn| == |prog| && p < |dyn|
  {
    && Listed(dyn[p].deps)
    && forall s :: s in dyn[p].deps <==> s.id < |prog| && Producer(prog, s) == p && !dyn[p].executed
  }

  // The rename table names, for each register, the youngest writer as long as it has not executed.
  ghost predicate RatRight(prog: seq<Inst>, dyn: seq<DInst>, rat: map<Reg, nat>)
    requires |dyn| == |prog|
  {
    forall r :: if r in rat then rat[r] == Latest(prog, |prog|, r) && !dyn[rat[r]].executed
                else Latest(prog, |prog|, r) >= 0 ==> dyn[Latest(prog, |prog|, r)].executed
  }

  ghost predicate Sound(prog: seq<Inst>, dyn: seq<DInst>) {
    && |dyn| == |prog| && MemOlder(prog)
    && (forall i :: 0 <= i < |dyn| ==> Tracked(prog, dyn, i))
    && forall p :: 0 <= p < |dyn| ==> ListRight(prog, dyn, p)
  }

  // ---------- what it is for ----------

  /** An instruction is selected only when everything it depends on has executed. */
  lemma SelectedAfterProducers(prog: seq<Inst>, dyn: seq<DInst>, s: Slot)
    requires Sound(prog, dyn) && s.id < |prog| && dyn[s.id].selects > 0 && Producer(prog, s) >= 0
    ensures dyn[Producer(prog, s)].executed
  {
    ProducerIsOlder(prog, s);
    assert Tracked(prog, dyn, s.id);
    assert dyn[s.id].Used(s.second) <==> Waits(prog, dyn, Slot(s.id, s.second));
    assert Slot(s.id, s.second) == s;
  }

  /** The oldest instruction that has not executed waits for nothing and has been selected once, so
      the window never blocks. */
  lemma OldestIsSelected(prog: seq<Inst>, dyn: seq<DInst>, i: nat)
    requires Sound(prog, dyn) && i < |dyn| && !dyn[i].executed
    requires forall j :: 0 <= j < i ==> dyn[j].executed
    ensures dyn[i].nDeps == 0 && dyn[i].selects == 1
  {
    assert Tracked(prog, dyn, i);
    ProducerIsOlder(prog, Slot(i, false));
    ProducerIsOlder(prog, Slot(i, true));
    assert !dyn[i].Used(false) && !dyn[i].Used(true);
  }

  /** A used slot is in the list of exactly one instruction, which is older and has not executed. */
  lemma UsedSlotIsListedOnce(prog: seq<Inst>, dyn: seq<DInst>, s: Slot, p: nat)
    requires Sound(prog, dyn) && s.id < |dyn| && p < |dyn|
    ensures s in dyn[p].deps <==> dyn[s.id].Used(s.second) && p == Producer(prog, s)
    ensures s in dyn[p].deps ==> p < s.id && !dyn[p].executed
  {
    assert ListRight(prog, dyn, p) && Tracked(prog, dyn, s.id);
    assert dyn[s.id].Used(s.second) <==> Waits(prog, dyn, Slot(s.id, s.second));
    assert Slot(s.id, s.second) == s;
    ProducerIsOlder(prog, s);
  }

  // ---------- a new instruction ----------

  // The slots that have been linked: those of instructions before n, and some of n's own.
  predicate Linked(s: Slot, n: nat, done: set<bool>) {
    s.id < n || (s.id == n && s.second in done)
  }

  ghost predicate TrackedFor(prog: seq<Inst>, dyn: seq<DInst>, n: nat, done: set<bool>, i: nat)
    requires |dyn| == |prog| && i < |dyn|
  {
    && (forall b :: dyn[i].Used(b) <==> Linked(Slot(i, b), n, done) && Waits(prog, dyn, Slot(i, b)))
    && dyn[i].nDeps == Count(dyn[i])
    && dyn[i].selects == (if i < n && dyn[i].nDeps == 0 then 1 else 0)
    && (dyn[i].executed ==> i < n && dyn[i].nDeps == 0)
  }

  ghost predicate ListRightFor(prog: seq<Inst>, dyn: seq<DInst>, n: nat, done: set<bool>, p: nat)
    requires |dyn| == |prog| && p < |dyn|
  {
    && Listed(dyn[p].deps)
    && forall s :: s in dyn[p].deps <==> s.id < |prog| && Linked(s, n, done) && Producer(prog, s) == p && !dyn[p].executed
  }

  ghost predicate SoundFor(prog: seq<Inst>, dyn: seq<DInst>, n: nat, done: set<bool>) {
    && |dyn| == |prog| && MemOlder(prog)
    && (forall i :: 0 <= i < |dyn| ==> TrackedFor(prog, dyn, n, done, i))
    && forall p :: 0 <= p < |dyn| ==> ListRightFor(prog, dyn, n, done, p)
  }

  const NEW := DInst(0, false, false, [], 0, false)

  lemma ProducerPrefix(prog: seq<Inst>, x: Inst, s: Slot)
    requires s.id < |prog|
    ensures Producer(prog + [x], s) == Producer(prog, s)
  {
    LatestPrefix(prog, x, s.id, prog[s.id].src1);
    LatestPrefix(prog, x, s.id, prog[s.id].src2);
  }

  lemma PushedIsSound(prog: seq<Inst>, dyn: seq<DInst>, x: Inst)
    requires Sound(prog, dyn) && x.mem < |prog|
    ensures SoundFor(prog + [x], dyn + [NEW], |prog|, {})
  {
    var prog', dyn', n := prog + [x], dyn + [NEW], |prog|;
    assert MemOlder(prog');
    forall s: Slot | s.id < |prog|
      ensures Producer(prog', s) == Producer(prog, s) && Producer(prog, s) < |prog|
    {
      ProducerPrefix(prog, x, s);
      ProducerIsOlder(prog, s);
    }
    forall i | 0 <= i < |dyn'|
      ensures TrackedFor(prog', dyn', n, {}, i)
    {
      if i < n {
        assert Tracked(prog, dyn, i);
        assert forall b :: Waits(prog', dyn', Slot(i, b)) <==> Waits(prog, dyn, Slot(i, b));
      }
    }
    forall p | 0 <= p < |dyn'|
      ensures ListRightFor(prog', dyn', n, {}, p)
    {
      if p < n {
        assert ListRight(prog, dyn, p);
      }
    }
  }

  // The slot s joins the list of p, which has not executed.
  function WithSrc(dyn: seq<DInst>, p: nat, s: Slot): (r: seq<DInst>)
    requires p < s.id < |dyn|
    ensures |r| == |dyn|
  {
    var d, c := dyn[p], dyn[s.id];
    dyn[p := d.(deps := d.deps + [s])]
       [s.id := if s.second then c.(nDeps := c.nDeps + 1, used2 := true) else c.(nDeps := c.nDeps + 1, used1 := true)]
  }

  lemma LinkIsSound(prog: seq<Inst>, dyn: seq<DInst>, n: nat, done: set<bool>, b: bool)
    requires SoundFor(prog, dyn, n, done) && n + 1 == |prog| && b !in done
    ensures var p := Producer(prog, Slot(n, b));
      if p >= 0 && !dyn[p].executed then SoundFor(prog, WithSrc(dyn, p, Slot(n, b)), n, done + {b})
      else SoundFor(prog, dyn, n, done + {b})
  {
    var s := Slot(n, b);
    ProducerIsOlder(prog, s);
    var p := Producer(prog, s);
    if p >= 0 && !dyn[p].executed {
      LinkedTracks(prog, dyn, n, done, b);
      LinkedLists(prog, dyn, n, done, b);
    } else {
      forall i | 0 <= i < |dyn|
        ensures TrackedFor(prog, dyn, n, done + {b}, i) && ListRightFor(prog, dyn, n, done + {b}, i)
      {
        assert TrackedFor(prog, dyn, n, done, i) && ListRightFor(prog, dyn, n, done, i);
      }
    }
  }

  lemma LinkedTracks(prog: seq<Inst>, dyn: seq<DInst>, n: nat, done: set<bool>, b: bool)
    requires SoundFor(prog, dyn, n, done) && n < |prog| && b !in done
    requires 0 <= Producer(prog, Slot(n, b)) < n && !dyn[Producer(prog, Slot(n, b))].executed
    ensures var r := WithSrc(dyn, Producer(prog, Slot(n, b)), Slot(n, b));
      forall i :: 0 <= i < |r| ==> TrackedFor(prog, r, n, done + {b}, i)
  {
    var s, p := Slot(n, b), Producer(prog, Slot(n, b));
    var r := WithSrc(dyn, p, s);
    assert TrackedFor(prog, dyn, n, done, n);
    assert !Linked(s, n, done);
    assert Waits(prog, dyn, s) && !dyn[n].Used(b);
    forall i | 0 <= i < |r|
      ensures TrackedFor(prog, r, n, done + {b}, i)
    {
      assert TrackedFor(prog, dyn, n, done, i);
      assert forall c :: Waits(prog, r, Slot(i, c)) <==> Waits(prog, dyn, Slot(i, c));
      assert forall c :: (i != n || c != b) ==> r[i].Used(c) == dyn[i].Used(c);
    }
  }

  lemma LinkedLists(prog: seq<Inst>, dyn: seq<DInst>, n: nat, done: set<bool>, b: bool)
    requires SoundFor(prog, dyn, n, done) && n + 1 == |prog| && b !in done
    requires 0 <= Producer(prog, Slot(n, b)) < n && !dyn[Producer(prog, Slot(n, b))].executed
    ensures var r := WithSrc(dyn, Producer(prog, Slot(n, b)), Slot(n, b));
      forall q :: 0 <= q < |r| ==> ListRightFor(prog, r, n, done + {b}, q)
  {
    var s, p := Slot(n, b), Producer(prog, Slot(n, b));
    var r := WithSrc(dyn, p, s);
    forall q | 0 <= q < |r|
      ensures ListRightFor(prog, r, n, done + {b}, q)
    {
      assert ListRightFor(prog, dyn, n, done, q);
      assert r[q].executed == dyn[q].executed && r[q].deps == if q == p then dyn[q].deps + [s] else dyn[q].deps;
      assert s !in dyn[q].deps;
    }
  }

  // An instruction whose slots have been linked is selected if none waits.
  lemma IssuedIsSound(prog: seq<Inst>, dyn: seq<DInst>, n: nat)
    requires SoundFor(prog, dyn, n, {false, true}) && n + 1 == |prog|
    ensures Sound(prog, dyn[n := dyn[n].(selects := if dyn[n].nDeps == 0 then 1 else 0)])
  {
    var r := dyn[n := dyn[n].(selects := if dyn[n].nDeps == 0 then 1 else 0)];
    forall i | 0 <= i < |r|
      ensures Tracked(prog, r, i) && ListRight(prog, r, i)
    {
      assert TrackedFor(prog, dyn, n, {false, true}, i) && ListRightFor(prog, dyn, n, {false, true}, i);
      assert forall b :: Waits(prog, r, Slot(i, b)) <==> Waits(prog, dyn, Slot(i, b));
    }
  }

  lemma RatAfterIssue(prog: seq<Inst>, dyn: seq<DInst>, rat: map<Reg, nat>, x: Inst, dyn': seq<DInst>)
    requires |dyn| == |prog| && RatRight(prog, dyn, rat) && |dyn'| == |dyn| + 1
    requires !dyn'[|prog|].executed && forall i :: 0 <= i < |dyn| ==> dyn'[i].executed == dyn[i].executed
    ensures RatRight(prog + [x], dyn', rat[x.dest := |prog|])
  {
    var prog' := prog + [x];
    forall r
      ensures Latest(prog', |prog'|, r) == if r == x.dest then |prog| else Latest(prog, |prog|, r)
    {
      LatestPrefix(prog, x, |prog|, r);
    }
  }

  // ---------- an instruction executes ----------

  // The slot no longer waits; an instruction with no other slot in use is selected.
  function Woken(d: DInst, second: bool): DInst
    requires d.nDeps > 0
  {
    d.(nDeps := d.nDeps - 1, used1 := d.used1 && second, used2 := d.used2 && !second,
       selects := if d.nDeps == 1 then d.selects + 1 else d.selects)
  }

  // The lists while p, which has executed, lets go of those that waited for it.
  ghost predicate Draining(prog: seq<Inst>, dyn: seq<DInst>, p: nat) {
    && |dyn| == |prog| && MemOlder(prog) && p < |dyn| && dyn[p].executed
    && Listed(dyn[p].deps) && (forall s :: s in dyn[p].deps ==> s.id < |prog| && Producer(prog, s) == p)
    && (forall q :: 0 <= q < |dyn| && q != p ==> ListRight(prog, dyn, q))
    && forall i :: 0 <= i < |dyn| ==> TrackedOr(prog, dyn, dyn[p].deps, i)
  }

  ghost predicate TrackedOr(prog: seq<Inst>, dyn: seq<DInst>, rest: seq<Slot>, i: nat)
    requires |dyn| == |prog| && i < |dyn|
  {
    && (forall b :: dyn[i].Used(b) <==> Waits(prog, dyn, Slot(i, b)) || Slot(i, b) in rest)
    && dyn[i].nDeps == Count(dyn[i])
    && dyn[i].selects == (if dyn[i].nDeps == 0 then 1 else 0)
    && (dyn[i].executed ==> dyn[i].nDeps == 0)
  }

  lemma StartDrain(prog: seq<Inst>, dyn: seq<DInst>, p: nat)
    requires Sound(prog, dyn) && p < |dyn| && dyn[p].selects > 0 && !dyn[p].executed
    ensures Draining(prog, dyn[p := dyn[p].(executed := true)], p)
  {
    var r := dyn[p := dyn[p].(executed := true)];
    assert ListRight(prog, dyn, p);
    forall i | 0 <= i < |r|
      ensures TrackedOr(prog, r, r[p].deps, i) && (i != p ==> ListRight(prog, r, i))
    {
      assert Tracked(prog, dyn, i) && ListRight(prog, dyn, i);
      forall b
        ensures Waits(prog, dyn, Slot(i, b)) <==> Waits(prog, r, Slot(i, b)) || Slot(i, b) in r[p].deps
      {
        ProducerIsOlder(prog, Slot(i, b));
      }
    }
  }

  // The first slot in the list of p leaves it and wakes up.
  function Popped(dyn: seq<DInst>, p: nat): (r: seq<DInst>)
    requires p < |dyn| && dyn[p].deps != []
    requires var s := dyn[p].deps[0]; s.id < |dyn| && s.id != p && dyn[s.id].nDeps > 0
    ensures |r| == |dyn|
  {
    var s := dyn[p].deps[0];
    dyn[p := dyn[p].(deps := dyn[p].deps[1..])][s.id := Woken(dyn[s.id], s.second)]
  }

  lemma PopMakesSense(prog: seq<Inst>, dyn: seq<DInst>, p: nat)
    requires Draining(prog, dyn, p) && dyn[p].deps != []
    ensures var s := dyn[p].deps[0];
      s.id < |dyn| && p < s.id && dyn[s.id].nDeps > 0 && dyn[s.id].Used(s.second) && !dyn[s.id].executed && dyn[s.id].selects == 0
  {
    var s := dyn[p].deps[0];
    assert s in dyn[p].deps;
    ProducerIsOlder(prog, s);
    assert TrackedOr(prog, dyn, dyn[p].deps, s.id);
    assert dyn[s.id].Used(s.second) <==> Waits(prog, dyn, Slot(s.id, s.second)) || Slot(s.id, s.second) in dyn[p].deps;
    assert Slot(s.id, s.second) == s;
  }

  lemma PopKeepsDraining(prog: seq<Inst>, dyn: seq<DInst>, p: nat)
    requires Draining(prog, dyn, p) && dyn[p].deps != []
    ensures var s := dyn[p].deps[0]; s.id < |dyn| && p < s.id && dyn[s.id].nDeps > 0
    ensures Draining(prog, Popped(dyn, p), p)
  {
    PopMakesSense(prog, dyn, p);
    var s, rest, r := dyn[p].deps[0], dyn[p].deps[1..], Popped(dyn, p);
    assert dyn[p].deps == [s] + rest && s !in rest;
    assert r[p].deps == rest && forall t :: t in rest ==> t in dyn[p].deps;
    ProducerIsOlder(prog, s);
    forall i | 0 <= i < |r|
      ensures i != p ==> ListRight(prog, r, i)
    {
      assert i != p ==> ListRight(prog, dyn, i);
      assert r[i].executed == dyn[i].executed && (i != p ==> r[i].deps == dyn[i].deps);
    }
    forall i | 0 <= i < |r|
      ensures TrackedOr(prog, r, rest, i)
    {
      PoppedTracks(prog, dyn, p, i);
    }
  }

  lemma PoppedTracks(prog: seq<Inst>, dyn: seq<DInst>, p: nat, i: nat)
    requires Draining(prog, dyn, p) && dyn[p].deps != [] && i < |dyn|
    ensures var s := dyn[p].deps[0]; s.id < |dyn| && p < s.id && dyn[s.id].nDeps > 0
    ensures TrackedOr(prog, Popped(dyn, p), dyn[p].deps[1..], i)
  {
    PopMakesSense(prog, dyn, p);
    var s, rest, r := dyn[p].deps[0], dyn[p].deps[1..], Popped(dyn, p);
    assert dyn[p].deps == [s] + rest && s !in rest;
    assert TrackedOr(prog, dyn, dyn[p].deps, i);
    assert !Waits(prog, dyn, s);
    forall b
      ensures r[i].Used(b) <==> Waits(prog, r, Slot(i, b)) || Slot(i, b) in rest
    {
      assert Waits(prog, r, Slot(i, b)) <==> Waits(prog, dyn, Slot(i, b));
      assert Slot(i, b) in dyn[p].deps <==> Slot(i, b) == s || Slot(i, b) in rest;
      assert r[i].Used(b) <==> dyn[i].Used(b) && Slot(i, b) != s;
    }
  }

  lemma DrainDone(prog: seq<Inst>, dyn: seq<DInst>, p: nat)
    requires Draining(prog, dyn, p) && dyn[p].deps == []
    ensures Sound(prog, dyn)
  {
    forall i | 0 <= i < |dyn|
      ensures Tracked(prog, dyn, i) && ListRight(prog, dyn, i)
    {
      assert TrackedOr(prog, dyn, dyn[p].deps, i);
    }
  }
}
