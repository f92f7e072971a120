/**
 An out-of-order core at work on its instructions: rename and issue through the RAT, wake-up of
 dependents when an instruction executes, and retirement in order with its register pools.
 */
module Window {
  import opened Dataflow

  datatype StallCause = NoStall | SmallWinStall | SmallROBStall | SmallREGStall | OtherStall

  // How many of the instructions from lo on take their destination register from a pool.
  function InUse(prog: seq<Inst>, lo: nat, pool: nat): nat
    requires lo <= |prog|
    decreases |prog| - lo
  {
    if lo == |prog| then 0 else (if prog[lo].pool == pool then 1 else 0) + InUse(prog, lo + 1, pool)
  }

  lemma {:induction false} InUsePush(prog: seq<Inst>, x: Inst, lo: nat, pool: nat)
    requires lo <= |prog|
    ensures InUse(prog + [x], lo, pool) == InUse(prog, lo, pool) + if x.pool == pool then 1 else 0
    decreases |prog| - lo
  {
    if lo < |prog| {
      InUsePush(prog, x, lo + 1, pool);
    }
  }

  ghost predicate InProgramOrder(s: seq<nat>) {
    forall j, k :: 0 <= j < k < |s| ==> s[j] < s[k]
  }

  lemma OneMoreInOrder(s: seq<nat>, x: nat)
    requires InProgramOrder(s) && x !in s && forall i :: i in s ==> i <= x
    ensures InProgramOrder(s + [x])
  {
    assert forall j :: 0 <= j < |s| ==> s[j] in s;
  }

  ghost predicate KeepsExecuted(dyn: seq<DInst>, dyn': seq<DInst>) {
    |dyn| <= |dyn'| && forall i :: 0 <= i < |dyn| ==> dyn'[i].executed == dyn[i].executed
  }

  class Core {
    // The instructions that have been issued, in program order, and where each of them stands.
    var prog: seq<Inst>
    var dyn: seq<DInst>
    var rat: map<Reg, nat>
    var rob: seq<nat>
    var regPool: map<nat, int>
    const poolSize: map<nat, int>
    const maxROBSize: nat
    const inOrderCore: bool

    ghost function Retired(): int
      reads this
    {
      |prog| - |rob|
    }

    // Free registers and those held by instructions that have not retired make up each pool.
    ghost predicate PoolsRight()
      reads this
      requires 0 <= Retired() <= |prog|
    {
      && regPool.Keys == poolSize.Keys
      && forall r :: r in regPool ==> regPool[r] >= 0 && regPool[r] + InUse(prog, Retired(), r) == poolSize[r]
    }

    // The reorder buffer holds the youngest instructions in program order; the others have executed.
    ghost predicate RobRight()
      reads this
    {
      && |rob| <= |prog| && |rob| <= maxROBSize && |dyn| == |prog|
      && (forall k :: 0 <= k < |rob| ==> rob[k] == Retired() + k)
      && forall i :: 0 <= i < Retired() ==> dyn[i].executed
    }

    ghost predicate Valid()
      reads this
    {
      Sound(prog, dyn) && RatRight(prog, dyn, rat) && RobRight() && PoolsRight()
    }

    constructor (poolSize: map<nat, int>, maxROBSize: nat, inOrderCore: bool)
      requires forall r :: r in poolSize ==> poolSize[r] >= 0
      ensures Valid() && prog == [] && this.poolSize == poolSize
    {
      this.poolSize, this.maxROBSize, this.inOrderCore := poolSize, maxROBSize, inOrderCore;
      prog, dyn, rat, rob, regPool := [], [], map[], [], poolSize;
    }

    // The slot s of the newest instruction waits for p.
    method AddSrc(p: nat, s: Slot)
      requires p < s.id < |dyn|
      modifies this`dyn
      ensures dyn == WithSrc(old(dyn), p, s)
    {
      dyn := dyn[p := dyn[p].(deps := dyn[p].deps + [s])];
      var c := dyn[s.id];
      dyn := dyn[s.id := if s.second then c.(nDeps := c.nDeps + 1, used2 := true) else c.(nDeps := c.nDeps + 1, used1 := true)];
    }

    // What makes the core refuse an instruction; `refused` is what its cluster and resource say.
    method CanIssue(x: Inst, refused: bool) returns (sc: StallCause)
      requires x.pool in regPool && |rob| <= maxROBSize
      ensures var inTurn := inOrderCore ==> x.src1 !in rat && x.src2 !in rat && x.dest !in rat;
        && (sc == NoStall <==> inTurn && |rob| < maxROBSize && regPool[x.pool] != 0 && !refused)
        && (sc == SmallWinStall <==> !inTurn)
        && (sc == SmallROBStall <==> inTurn && |rob| == maxROBSize)
        && (sc == SmallREGStall <==> inTurn && |rob| < maxROBSize && regPool[x.pool] == 0)
    {
      if inOrderCore && (x.src1 in rat || x.src2 in rat || x.dest in rat) {
        sc := SmallWinStall;
      } else if |rob| >= maxROBSize {
        sc := SmallROBStall;
      } else if regPool[x.pool] == 0 {
        sc := SmallREGStall;
      } else {
        sc := if refused then OtherStall else NoStall;
      }
    }

    // The entry of a register in the RAT, or -1.
    function Entry(r: Reg): int
      reads this`rat
    {
      if r in rat then rat[r] else -1
    }

    // Links one slot of the newest instruction to p, unless p is negative.
    method Link(p: int, second: bool, ghost done: set<bool>, ghost done': set<bool>)
      requires |dyn| == |prog| > 0 && SoundFor(prog, dyn, |prog| - 1, done) && second !in done && done' == done + {second}
      requires p == var q := Producer(prog, Slot(|prog| - 1, second)); if 0 <= q < |prog| - 1 && !dyn[q].executed then q else -1
      modifies this`dyn
      ensures |dyn| == |prog| && SoundFor(prog, dyn, |prog| - 1, done')
      ensures forall i :: 0 <= i < |dyn| ==> dyn[i].executed == old(dyn)[i].executed
    {
      var s := Slot(|prog| - 1, second);
      ProducerIsOlder(prog, s);
      LinkIsSound(prog, dyn, s.id, done, second);
      if p >= 0 {
        AddSrc(p, s);
      }
    }

    // Links the newest instruction into the lists of the instructions that its slots wait for, and
    // selects it if there is none.
    method Rename(ghost was: seq<Inst>, x: Inst)
      requires prog == was + [x] && SoundFor(prog, dyn, |was|, {}) && RatRight(was, dyn[..|was|], rat)
      requires x.mem >= 0 ==> x.mem < |was| && !dyn[x.mem].executed
      modifies this`dyn
      ensures Sound(prog, dyn)
      ensures forall i :: 0 <= i < |prog| ==> dyn[i].executed == old(dyn)[i].executed
    {
      var n := |prog| - 1;
      RatIsProducer(was, x, dyn, rat, Slot(n, false));
      RatIsProducer(was, x, dyn, rat, Slot(n, true));
      Link(Entry(x.src1), false, {}, {false});
      Link(if x.mem >= 0 then x.mem else Entry(x.src2), true, {false}, {false, true});
      IssuedIsSound(prog, dyn, n);
      assert TrackedFor(prog, dyn, n, {false, true}, n);
      ghost var goal := dyn[n := dyn[n].(selects := if dyn[n].nDeps == 0 then 1 else 0)];
      if dyn[n].nDeps == 0 {
        dyn := dyn[n := dyn[n].(selects := dyn[n].selects + 1)];
      }
      assert dyn == goal;
    }

    // An instruction is renamed and issued, or the core says why not.
    method AddInst(x: Inst, refused: bool) returns (sc: StallCause)
      requires Valid() && x.pool in regPool && (x.mem >= 0 ==> x.mem < |prog| && !dyn[x.mem].executed)
      modifies this`prog, this`dyn, this`rat, this`rob, this`regPool
      ensures Valid()
      ensures sc == NoStall <==>
        && old(inOrderCore ==> x.src1 !in rat && x.src2 !in rat && x.dest !in rat)
        && old(|rob| < maxROBSize && regPool[x.pool] != 0) && !refused
      ensures sc != NoStall ==> prog == old(prog) && dyn == old(dyn) && rat == old(rat) && rob == old(rob) && regPool == old(regPool)
      ensures sc == NoStall ==> prog == old(prog) + [x] && rob == old(rob) + [|old(prog)|]
      ensures sc == NoStall ==> regPool == old(regPool)[x.pool := old(regPool)[x.pool] - 1] && KeepsExecuted(old(dyn), dyn)
    {
      sc := CanIssue(x, refused);
      if sc == NoStall {
        Issue(x);
      }
    }

    method Issue(x: Inst)
      requires Valid() && x.pool in regPool && |rob| < maxROBSize && regPool[x.pool] != 0 && (x.mem >= 0 ==> x.mem < |prog| && !dyn[x.mem].executed)
      modifies this`prog, this`dyn, this`rat, this`rob, this`regPool
      ensures Valid() && prog == old(prog) + [x] && rob == old(rob) + [|old(prog)|]
      ensures regPool == old(regPool)[x.pool := old(regPool)[x.pool] - 1] && KeepsExecuted(old(dyn), dyn)
    {
      ghost var was, before := prog, dyn;
      Enter(x);
      assert dyn[..|was|] == before;
      Rename(was, x);
      RatAfterIssue(was, before, rat, x, dyn);
      rat := rat[x.dest := |prog| - 1];
    }

    // The instruction gets its place in the reorder buffer and a register for its result.
    method Enter(x: Inst)
      requires Valid() && x.pool in regPool && |rob| < maxROBSize && regPool[x.pool] != 0 && x.mem < |prog|
      modifies this`prog, this`dyn, this`rob, this`regPool
      ensures prog == old(prog) + [x] && dyn == old(dyn) + [NEW] && rob == old(rob) + [|old(prog)|]
      ensures regPool == old(regPool)[x.pool := old(regPool)[x.pool] - 1]
      ensures SoundFor(prog, dyn, |old(prog)|, {}) && RobRight() && PoolsRight()
    {
      InUseOfAll(prog, x, Retired());
      PushedIsSound(prog, dyn, x);
      regPool := regPool[x.pool := regPool[x.pool] - 1];
      rob := rob + [|prog|];
      prog := prog + [x];
      dyn := dyn + [NEW];
    }

    // The instruction has executed; if it was the youngest writer of its register the RAT forgets it.
    method MarkExecuted(p: nat)
      requires Sound(prog, dyn) && RatRight(prog, dyn, rat) && p < |dyn| && dyn[p].selects > 0 && !dyn[p].executed
      modifies this`dyn, this`rat
      ensures dyn == old(dyn)[p := old(dyn)[p].(executed := true)] && Draining(prog, dyn, p) && RatRight(prog, dyn, rat)
    {
      StartDrain(prog, dyn, p);
      RatAfterExecution(prog, dyn, rat, p);
      if prog[p].dest in rat && rat[prog[p].dest] == p {
        rat := rat - {prog[p].dest};
      }
      dyn := dyn[p := dyn[p].(executed := true)];
    }

    // The first of those that wait for p no longer does.
    method WakeOne(p: nat) returns (s: Slot, selected: bool)
      requires p < |dyn| && dyn[p].deps != []
      requires var s := dyn[p].deps[0]; s.id < |dyn| && s.id != p && dyn[s.id].nDeps > 0
      modifies this`dyn
      ensures dyn == Popped(old(dyn), p) && s == old(dyn)[p].deps[0]
      ensures forall i :: 0 <= i < |dyn| ==> dyn[i].selects == old(dyn)[i].selects + if i == s.id && selected then 1 else 0
    {
      s := dyn[p].deps[0];
      dyn := dyn[p := dyn[p].(deps := dyn[p].deps[1..])];
      var d := dyn[s.id];
      d := d.(nDeps := d.nDeps - 1, used1 := d.used1 && s.second, used2 := d.used2 && !s.second);
      selected := d.nDeps == 0;
      if selected {
        d := d.(selects := d.selects + 1);
      }
      dyn := dyn[s.id := d];
    }

    // The list of p is emptied.
    method WakeAll(p: nat) returns (woken: seq<nat>)
      requires Draining(prog, dyn, p)
      modifies this`dyn
      ensures Sound(prog, dyn)
      ensures forall i :: 0 <= i < |dyn| ==> dyn[i].executed == old(dyn)[i].executed
      ensures forall i :: 0 <= i < |dyn| ==> (i in woken <==> dyn[i].selects > old(dyn)[i].selects)
      ensures InProgramOrder(woken)
    {
      woken := [];
      while dyn[p].deps != []
        invariant Draining(prog, dyn, p)
        invariant forall i :: 0 <= i < |dyn| ==> dyn[i].executed == old(dyn)[i].executed
        invariant forall i :: 0 <= i < |dyn| ==> dyn[i].selects >= old(dyn)[i].selects
        invariant forall i :: 0 <= i < |dyn| ==> (i in woken <==> dyn[i].selects > old(dyn)[i].selects)
        invariant InProgramOrder(woken) && forall i, s :: i in woken && s in dyn[p].deps ==> i <= s.id
        decreases |dyn[p].deps|
      {
        PopMakesSense(prog, dyn, p);
        assert dyn[p].deps[0] in dyn[p].deps && dyn[p].deps[0].id !in woken;
        PopKeepsDraining(prog, dyn, p);
        var s, selected := WakeOne(p);
        if selected {
          OneMoreInOrder(woken, s.id);
          woken := woken + [s.id];
        }
      }
      DrainDone(prog, dyn, p);
    }

    // An instruction that was selected has executed. Those that wait for nothing any more are
    // selected, in the order in which they came to wait.
    method Executed(p: nat) returns (woken: seq<nat>)
      requires Valid() && p < |dyn| && dyn[p].selects > 0 && !dyn[p].executed
      modifies this`dyn, this`rat
      ensures Valid()
      ensures forall i :: 0 <= i < |dyn| ==> dyn[i].executed == (i == p || old(dyn)[i].executed)
      ensures forall i :: 0 <= i < |dyn| ==> (i in woken <==> dyn[i].selects > old(dyn)[i].selects)
      ensures InProgramOrder(woken)
    {
      MarkExecuted(p);
      ghost var started := dyn;
      woken := WakeAll(p);
      SameExecuted(prog, started, dyn, rat);
    }

    // The oldest instruction in the reorder buffer retires.
    method RetireOne()
      requires Valid() && rob != [] && dyn[rob[0]].executed && prog[rob[0]].pool in regPool
      modifies this`rob, this`regPool
      ensures Valid() && rob == old(rob)[1..] && regPool.Keys == old(regPool).Keys
    {
      var rp := prog[rob[0]].pool;
      regPool := regPool[rp := regPool[rp] + 1];
      rob := rob[1..];
    }

    // Retires up to `width` executed instructions, oldest first; `stuck` are those whose resource
    // does not let them go yet.
    method Retire(width: nat, stuck: set<nat>) returns (done: nat)
      requires Valid()
      requires forall i :: 0 <= i < |prog| ==> prog[i].pool in regPool
      modifies this`rob, this`regPool
      ensures Valid() && done <= width && done <= |old(rob)| && rob == old(rob)[done..]
      ensures forall k :: 0 <= k < done ==> dyn[old(rob)[k]].executed && old(rob)[k] !in stuck
      ensures done < width && rob != [] ==> !dyn[rob[0]].executed || rob[0] in stuck
    {
      done := 0;
      while done < width && rob != []
        invariant Valid() && done <= width && done <= |old(rob)| && rob == old(rob)[done..] && regPool.Keys == old(regPool).Keys
        invariant forall k :: 0 <= k < done ==> dyn[old(rob)[k]].executed && old(rob)[k] !in stuck
      {
        if !dyn[rob[0]].executed || rob[0] in stuck {
          break;
        }
        RetireOne();
        done := done + 1;
      }
    }
  }

  lemma InUseOfAll(was: seq<Inst>, x: Inst, lo: nat)
    requires lo <= |was|
    ensures forall r :: InUse(was + [x], lo, r) == InUse(was, lo, r) + if x.pool == r then 1 else 0
  {
    forall r: nat
      ensures InUse(was + [x], lo, r) == InUse(was, lo, r) + if x.pool == r then 1 else 0
    {
      InUsePush(was, x, lo, r);
    }
  }

  lemma RatAfterExecution(prog: seq<Inst>, dyn: seq<DInst>, rat: map<Reg, nat>, p: nat)
    requires |dyn| == |prog| && RatRight(prog, dyn, rat) && p < |dyn| && !dyn[p].executed
    ensures var r := prog[p].dest;
      RatRight(prog, dyn[p := dyn[p].(executed := true)], if r in rat && rat[r] == p then rat - {r} else rat)
  {
    forall r
      ensures Latest(prog, |prog|, r) >= 0 ==> prog[Latest(prog, |prog|, r)].dest == r
    {
      LatestIsYoungest(prog, |prog|, r);
    }
  }

  lemma SameExecuted(prog: seq<Inst>, dyn: seq<DInst>, dyn': seq<DInst>, rat: map<Reg, nat>)
    requires |dyn| == |prog| == |dyn'| && RatRight(prog, dyn, rat)
    requires forall i :: 0 <= i < |dyn| ==> dyn'[i].executed == dyn[i].executed
    ensures RatRight(prog, dyn', rat)
  {
  }

  // For a slot of a new instruction the RAT names its producer, unless that has executed.
  lemma RatIsProducer(was: seq<Inst>, x: Inst, dyn: seq<DInst>, rat: map<Reg, nat>, s: Slot)
    requires |dyn| == |was| + 1 && RatRight(was, dyn[..|was|], rat) && s.id == |was|
    requires x.mem >= 0 ==> x.mem < |was| && !dyn[x.mem].executed
    ensures var p := Producer(was + [x], s);
      var e := if s.second && x.mem >= 0 then x.mem else var r := if s.second then x.src2 else x.src1; if r in rat then rat[r] as int else -1;
      e == if 0 <= p < |was| && !dyn[p].executed then p else -1
  {
    LatestPrefix(was, x, |was|, x.src1);
    LatestPrefix(was, x, |was|, x.src2);
  }
}
