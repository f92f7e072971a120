/**
 Undo logs: each checkpoint keeps what the blocks of memory that were changed since held at its
 start, so that rewinding restores it. Addresses count words; a block has four of them.
 */
module Checkpoints {
  type Word = nat
  type Memory = seq<Word>

  const BLOCK_WORDS: nat := 4

  // The base of the block of an address.
  function Base(w: nat): (b: nat)
    ensures b <= w < b + BLOCK_WORDS && b % BLOCK_WORDS == 0
  {
    w - w % BLOCK_WORDS
  }

  type Blocks = map<nat, seq<Word>>

  // The logged blocks are whole and lie within a memory of n words.
  ghost predicate Fits(blocks: Blocks, n: nat) {
    forall b :: b in blocks ==> Base(b) == b && b + BLOCK_WORDS <= n && |blocks[b]| == BLOCK_WORDS
  }

  // Memory with the logged blocks put back.
  function Restored(mem: Memory, blocks: Blocks): (r: Memory)
    requires Fits(blocks, |mem|)
    ensures |r| == |mem|
  {
    seq(|mem|, w requires 0 <= w < |mem| => if Base(w) in blocks then blocks[Base(w)][w - Base(w)] else mem[w])
  }

  // What the predecessor logged stays; the rest is taken over from its successor.
  function Combined(pred: Blocks, succ: Blocks): Blocks {
    map b | b in pred.Keys + succ.Keys :: if b in pred then pred[b] else succ[b]
  }

  /** Rewinding the merged checkpoint is rewinding the newer and then the older one. */
  lemma CombinedRestores(mem: Memory, pred: Blocks, succ: Blocks)
    requires Fits(pred, |mem|) && Fits(succ, |mem|)
    ensures Fits(Combined(pred, succ), |mem|)
    ensures Restored(mem, Combined(pred, succ)) == Restored(Restored(mem, succ), pred)
  {
  }

  /** Rewinding twice changes nothing more. */
  lemma RestoredTwice(mem: Memory, blocks: Blocks)
    requires Fits(blocks, |mem|)
    ensures Restored(Restored(mem, blocks), blocks) == Restored(mem, blocks)
  {
  }

  // A checkpoint with the clock of the first epoch after it.
  datatype Log = Log(clock: int, blocks: Blocks)

  // Going back over the checkpoints, newest first, leads from one start to the one before.
  ghost predicate Chain(mem: Memory, logs: seq<Log>, starts: seq<Memory>)
    decreases |logs|
  {
    && |logs| == |starts|
    && (logs != [] ==>
          && Fits(logs[0].blocks, |mem|) && Restored(mem, logs[0].blocks) == starts[0]
          && Chain(starts[0], logs[1..], starts[1..]))
  }

  ghost predicate Clocked(logs: seq<Log>) {
    forall i, j :: 0 <= i < j < |logs| ==> logs[i].clock > logs[j].clock
  }

  // Memory after rewinding the first k checkpoints, one after another.
  ghost function Rewound(mem: Memory, logs: seq<Log>, k: nat): Memory
    requires k <= |logs|
    decreases k
  {
    if k == 0 || !Fits(logs[0].blocks, |mem|) then mem else Rewound(Restored(mem, logs[0].blocks), logs[1..], k - 1)
  }

  /** Rewinding checkpoints one after another, newest first, restores memory as it was at the start of
      the last one. */
  lemma {:induction false} RewindReachesStart(mem: Memory, logs: seq<Log>, starts: seq<Memory>, k: nat)
    requires Chain(mem, logs, starts) && 0 < k <= |logs|
    ensures Rewound(mem, logs, k) == starts[k - 1]
    decreases k
  {
    if k > 1 {
      RewindReachesStart(starts[0], logs[1..], starts[1..], k - 1);
    }
  }

  // A block enters the newest log before a word of it changes.
  lemma StoreKeepsChain(mem: Memory, logs: seq<Log>, starts: seq<Memory>, w: nat, v: Word, blocks: Blocks)
    requires Chain(mem, logs, starts) && logs != [] && w < |mem| && Base(w) + BLOCK_WORDS <= |mem|
    requires blocks == if Base(w) in logs[0].blocks then logs[0].blocks
                       else logs[0].blocks[Base(w) := mem[Base(w)..Base(w) + BLOCK_WORDS]]
    ensures Chain(mem[w := v], [logs[0].(blocks := blocks)] + logs[1..], starts)
  {
    var r := [logs[0].(blocks := blocks)] + logs[1..];
    assert r[1..] == logs[1..];
    var a, b := Restored(mem[w := v], blocks), Restored(mem, logs[0].blocks);
    forall i | 0 <= i < |mem|
      ensures a[i] == b[i]
    {
      assert Base(i) != Base(w) ==> i != w;
    }
  }

  ghost predicate NoneNewer(logs: seq<Log>, k: nat)
    requires k < |logs|
  {
    forall j :: 0 <= j < k ==> logs[j].blocks == map[]
  }

  // The starts of the newest k checkpoints are now.
  function StartedAt(starts: seq<Memory>, k: nat, mem: Memory): seq<Memory> {
    seq(|starts|, i requires 0 <= i < |starts| => if i < k then mem else starts[i])
  }

  lemma OneFirst(logs: seq<Log>, x: Log)
    requires logs != []
    ensures logs[0 := x] == [x] + logs[1..]
  {
  }

  // So it does with any log, as long as newer checkpoints have logged nothing: they start later then.
  lemma {:induction false} StoreKeepsChainAt(mem: Memory, logs: seq<Log>, starts: seq<Memory>, k: nat, w: nat, v: Word, blocks: Blocks)
    requires Chain(mem, logs, starts) && k < |logs| && w < |mem| && Base(w) + BLOCK_WORDS <= |mem| && NoneNewer(logs, k)
    requires blocks == if Base(w) in logs[k].blocks then logs[k].blocks
                       else logs[k].blocks[Base(w) := mem[Base(w)..Base(w) + BLOCK_WORDS]]
    ensures Chain(mem[w := v], logs[k := logs[k].(blocks := blocks)], StartedAt(starts, k, mem[w := v]))
    decreases k
  {
    var r := logs[k := logs[k].(blocks := blocks)];
    if k == 0 {
      StoreKeepsChain(mem, logs, starts, w, v, blocks);
      OneFirst(logs, logs[0].(blocks := blocks));
      assert StartedAt(starts, 0, mem[w := v]) == starts;
    } else {
      assert Restored(mem, map[]) == mem && Restored(mem[w := v], map[]) == mem[w := v];
      StoreKeepsChainAt(mem, logs[1..], starts[1..], k - 1, w, v, blocks);
      assert r[1..] == logs[1..][k - 1 := logs[k].(blocks := blocks)];
      assert StartedAt(starts, k, mem[w := v])[1..] == StartedAt(starts[1..], k - 1, mem[w := v]);
    }
  }

  // Logging a block alone changes nothing that rewinding would restore.
  lemma WriteKeepsChain(mem: Memory, logs: seq<Log>, starts: seq<Memory>, k: nat, b: nat)
    requires Chain(mem, logs, starts) && k < |logs| && Base(b) == b && b + BLOCK_WORDS <= |mem| && NoneNewer(logs, k)
    requires b !in logs[k].blocks
    ensures Chain(mem, logs[k := logs[k].(blocks := logs[k].blocks[b := mem[b..b + BLOCK_WORDS]])], StartedAt(starts, k, mem))
  {
    var w := b;
    StoreKeepsChainAt(mem, logs, starts, k, w, mem[w], logs[k].blocks[b := mem[b..b + BLOCK_WORDS]]);
    assert mem[w := mem[w]] == mem;
  }

  // Checkpoint k is merged into the one before it in time, which stands behind it in the list.
  function Merged(logs: seq<Log>, k: nat): seq<Log>
    requires k + 1 < |logs|
  {
    logs[..k] + [logs[k + 1].(blocks := Combined(logs[k + 1].blocks, logs[k].blocks))] + logs[k + 2..]
  }

  /** The earlier of the two goes on under its own clock, and has each block of either, its own first. */
  lemma MergesExactly(logs: seq<Log>, k: nat)
    requires k + 1 < |logs|
    ensures var r := Merged(logs, k);
      && |r| == |logs| - 1 && r[k].clock == logs[k + 1].clock
      && (forall j :: 0 <= j < k ==> r[j] == logs[j]) && (forall j :: k + 1 <= j < |r| ==> r[j] == logs[j + 1])
      && r[k].blocks.Keys == logs[k + 1].blocks.Keys + logs[k].blocks.Keys
      && (forall b :: b in logs[k + 1].blocks ==> r[k].blocks[b] == logs[k + 1].blocks[b])
      && forall b :: b in logs[k].blocks && b !in logs[k + 1].blocks ==> r[k].blocks[b] == logs[k].blocks[b]
  {
  }

  lemma {:induction false} MergeKeepsChain(mem: Memory, logs: seq<Log>, starts: seq<Memory>, k: nat)
    requires Chain(mem, logs, starts) && k + 1 < |logs|
    ensures Chain(mem, Merged(logs, k), starts[..k] + starts[k + 1..])
    decreases k
  {
    var r, s := Merged(logs, k), starts[..k] + starts[k + 1..];
    if k == 0 {
      CombinedRestores(mem, logs[1].blocks, logs[0].blocks);
      assert r[1..] == logs[2..] && logs[1..][1..] == logs[2..];
      assert s[1..] == starts[2..] && starts[1..][1..] == starts[2..];
    } else {
      MergeKeepsChain(starts[0], logs[1..], starts[1..], k - 1);
      assert r[1..] == Merged(logs[1..], k - 1);
      assert s[1..] == starts[1..][..k - 1] + starts[1..][k..];
    }
  }

  class CheckpointLog {
    var memory: array<Word>
    // The checkpoints, newest first.
    var checkpoints: seq<Log>
    // What memory was at the start of each.
    ghost var starts: seq<Memory>

    ghost predicate Valid()
      reads this, memory
    {
      && memory.Length % BLOCK_WORDS == 0 && checkpoints != []
      && Chain(memory[..], checkpoints, starts) && Clocked(checkpoints)
    }

    // The initial checkpoint.
    constructor (memory: array<Word>)
      requires memory.Length % BLOCK_WORDS == 0
      ensures Valid() && this.memory == memory && checkpoints == [Log(0, map[])] && starts == [memory[..]]
    {
      this.memory := memory;
      checkpoints, starts := [Log(0, map[])], [memory[..]];
      new;
      assert Restored(memory[..], map[]) == memory[..];
    }

    method NewCheckpoint(clock: int)
      requires Valid() && clock > checkpoints[0].clock
      modifies this`checkpoints, this`starts
      ensures Valid() && checkpoints == [Log(clock, map[])] + old(checkpoints) && starts == [memory[..]] + old(starts)
    {
      assert Restored(memory[..], map[]) == memory[..];
      checkpoints := [Log(clock, map[])] + checkpoints;
      starts := [memory[..]] + starts;
    }

    // The words of a block, one by one.
    method CopyBlock(b: nat) returns (data: seq<Word>)
      requires b + BLOCK_WORDS <= memory.Length
      ensures data == memory[b..b + BLOCK_WORDS]
    {
      data := [];
      while |data| < BLOCK_WORDS
        invariant |data| <= BLOCK_WORDS && data == memory[b..b + |data|]
        decreases BLOCK_WORDS - |data|
      {
        data := data + [memory[b + |data|]];
      }
    }

    // Must come before a word of the block changes.
    method Write(k: nat, w: nat)
      requires Valid() && k < |checkpoints| && NoneNewer(checkpoints, k) && w < memory.Length
      modifies this`checkpoints, this`starts
      ensures Valid() && |checkpoints| == |old(checkpoints)| && Base(w) in checkpoints[k].blocks
      ensures checkpoints == old(checkpoints)[k := old(checkpoints)[k].(blocks := checkpoints[k].blocks)]
      ensures forall j :: k <= j < |starts| ==> starts[j] == old(starts)[j]
    {
      var b := Base(w);
      if b !in checkpoints[k].blocks {
        var data := CopyBlock(b);
        WriteKeepsChain(memory[..], checkpoints, starts, k, b);
        checkpoints := checkpoints[k := checkpoints[k].(blocks := checkpoints[k].blocks[b := data])];
        starts := StartedAt(starts, k, memory[..]);
      }
    }

    // A store of an epoch with this clock: the block is logged, and then the word changes. Checkpoints
    // later than the epoch have logged nothing.
    method Store(epochClock: int, w: nat, v: Word) returns (k: nat)
      requires Valid() && checkpoints[|checkpoints| - 1].clock <= epochClock && w < memory.Length
      requires forall j :: 0 <= j < |checkpoints| && checkpoints[j].clock > epochClock ==> checkpoints[j].blocks == map[]
      modifies this`checkpoints, this`starts, memory
      ensures Valid() && memory[..] == old(memory[..])[w := v]
      ensures k < |old(checkpoints)| && old(checkpoints)[k].clock <= epochClock
      ensures forall j :: 0 <= j < k ==> old(checkpoints)[j].clock > epochClock
      ensures |checkpoints| == |old(checkpoints)| && Base(w) in checkpoints[k].blocks
      ensures checkpoints == old(checkpoints)[k := old(checkpoints)[k].(blocks := checkpoints[k].blocks)]
      ensures forall j :: k <= j < |starts| ==> starts[j] == old(starts)[j]
    {
      k := GetCheckpoint(epochClock);
      Write(k, w);
      StoreLogged(k, w, v);
    }

    method StoreLogged(k: nat, w: nat, v: Word)
      requires Valid() && k < |checkpoints| && NoneNewer(checkpoints, k) && w < memory.Length && Base(w) in checkpoints[k].blocks
      modifies this`starts, memory
      ensures Valid() && memory[..] == old(memory[..])[w := v]
      ensures forall j :: k <= j < |starts| ==> starts[j] == old(starts)[j]
    {
      StoreKeepsChainAt(memory[..], checkpoints, starts, k, w, v, checkpoints[k].blocks);
      assert checkpoints[k := checkpoints[k].(blocks := checkpoints[k].blocks)] == checkpoints;
      ghost var was := memory[..];
      memory[w] := v;
      assert memory[..] == was[w := v];
      starts := StartedAt(starts, k, memory[..]);
    }

    // The checkpoint into which an epoch with this clock is merged: the newest that is not later.
    method GetCheckpoint(epochClock: int) returns (k: nat)
      requires Valid() && checkpoints[|checkpoints| - 1].clock <= epochClock
      ensures k < |checkpoints| && checkpoints[k].clock <= epochClock
      ensures forall j :: 0 <= j < k ==> checkpoints[j].clock > epochClock
    {
      k := 0;
      while checkpoints[k].clock > epochClock
        invariant k < |checkpoints| && forall j :: 0 <= j < k ==> checkpoints[j].clock > epochClock
        decreases |checkpoints| - k
      {
        k := k + 1;
      }
    }

    method Merge(k: nat)
      requires Valid() && k + 1 < |checkpoints|
      modifies this`checkpoints, this`starts
      ensures Valid() && checkpoints == Merged(old(checkpoints), k) && starts == old(starts)[..k] + old(starts)[k + 1..]
    {
      MergeKeepsChain(memory[..], checkpoints, starts, k);
      var pred, mine := checkpoints[k + 1].blocks, checkpoints[k].blocks;
      var rest := mine.Keys;
      while rest != {}
        invariant rest <= mine.Keys
        invariant pred.Keys == checkpoints[k + 1].blocks.Keys + (mine.Keys - rest)
        invariant forall b :: b in pred ==> pred[b] == if b in checkpoints[k + 1].blocks then checkpoints[k + 1].blocks[b] else mine[b]
        decreases rest
      {
        var b :| b in rest;
        if b !in pred {
          pred := pred[b := mine[b]];
        }
        rest := rest - {b};
      }
      assert pred == Combined(checkpoints[k + 1].blocks, mine);
      checkpoints := checkpoints[..k] + [checkpoints[k + 1].(blocks := pred)] + checkpoints[k + 2..];
      starts := starts[..k] + starts[k + 1..];
    }

    // A block is put back, word by word.
    method RestoreBlock(b: nat, data: seq<Word>)
      requires b + BLOCK_WORDS <= memory.Length && |data| == BLOCK_WORDS
      modifies memory
      ensures memory[..] == old(memory[..])[..b] + data + old(memory[..])[b + BLOCK_WORDS..]
    {
      for i := 0 to BLOCK_WORDS
        invariant forall w :: 0 <= w < memory.Length ==> memory[w] == if b <= w < b + i then data[w - b] else old(memory[w])
      {
        memory[b + i] := data[i];
      }
    }

    // Memory goes back to what it was at the start of the newest checkpoint.
    method Rewind()
      requires Valid()
      modifies memory
      ensures Valid() && memory[..] == starts[0]
    {
      ghost var was := memory[..];
      var blocks := checkpoints[0].blocks;
      var rest := blocks.Keys;
      while rest != {}
        invariant rest <= blocks.Keys
        invariant forall w :: 0 <= w < memory.Length ==>
                    memory[w] == if Base(w) in blocks && Base(w) !in rest then blocks[Base(w)][w - Base(w)] else was[w]
        decreases rest
      {
        var b :| b in rest;
        ghost var before := memory[..];
        RestoreBlock(b, blocks[b]);
        rest := rest - {b};
        BlockBack(before, b, blocks[b], memory[..]);
      }
      assert memory[..] == Restored(was, blocks);
      RestoredTwice(was, blocks);
    }
  }

  lemma BlockBack(before: Memory, b: nat, data: seq<Word>, after: Memory)
    requires b + BLOCK_WORDS <= |before| && |data| == BLOCK_WORDS && Base(b) == b
    requires after == before[..b] + data + before[b + BLOCK_WORDS..]
    ensures |after| == |before|
    ensures forall w :: 0 <= w < |after| ==> after[w] == if Base(w) == b then data[w - b] else before[w]
  {
  }

  // ---------- execution orders ----------

  // An epoch in the execution order of its thread.
  datatype OrderEntry = OrderEntry(myClk: int, parClk: int, iCount: nat)

  ghost predicate InOrder(s: seq<OrderEntry>) {
    forall i, j :: 0 <= i < j < |s| ==> s[i].myClk <= s[j].myClk
  }

  // The epochs with a clock, in their order.
  function AtClock(s: seq<OrderEntry>, clk: int): seq<OrderEntry> {
    if s == [] then []
    else
      var more := AtClock(s[1..], clk);
      if s[0].myClk == clk then [s[0]] + more else more
  }

  lemma {:induction false} AtClockAppend(s: seq<OrderEntry>, t: seq<OrderEntry>, clk: int)
    ensures AtClock(s + t, clk) == AtClock(s, clk) + AtClock(t, clk)
  {
    if s == [] {
      assert s + t == t;
    } else {
      AtClockAppend(s[1..], t, clk);
      assert (s + t)[1..] == s[1..] + t;
      var r := AtClock(s[1..], clk);
      assert [s[0]] + (r + AtClock(t, clk)) == [s[0]] + r + AtClock(t, clk);
    }
  }

  lemma {:induction false} NoneAtClock(s: seq<OrderEntry>, clk: int)
    requires forall i :: 0 <= i < |s| ==> s[i].myClk != clk
    ensures AtClock(s, clk) == []
  {
    if s != [] {
      NoneAtClock(s[1..], clk);
    }
  }

  // With each clock, both lists together have what they had, in the same order.
  ghost predicate Keeps(list: seq<OrderEntry>, rest: seq<OrderEntry>, all: seq<OrderEntry>) {
    forall clk :: AtClock(list, clk) + AtClock(rest, clk) == AtClock(all, clk)
  }

  ghost predicate NotLater(s: seq<OrderEntry>, clk: int) {
    forall i :: 0 <= i < |s| ==> s[i].myClk <= clk
  }

  // Where the merge stands: both lists are in order, and the places up to `at` are settled.
  ghost predicate Merging(list: seq<OrderEntry>, rest: seq<OrderEntry>, at: nat) {
    InOrder(list) && InOrder(rest) && at <= |list| && (rest != [] ==> NotLater(list[..at], rest[0].myClk))
  }

  lemma SpliceFirst(list: seq<OrderEntry>, rest: seq<OrderEntry>, at: nat)
    requires Merging(list, rest, at) && at < |list| && rest != [] && rest[0].myClk < list[at].myClk
    ensures Merging(list[..at] + [rest[0]] + list[at..], rest[1..], at + 1)
  {
    var x, r := rest[0], list[..at] + [rest[0]] + list[at..];
    assert r[..at + 1] == list[..at] + [x];
    forall i, j | 0 <= i < j < |r|
      ensures r[i].myClk <= r[j].myClk
    {
      assert i < at ==> r[i] == list[..at][i];
      assert r[j] == if j < at then list[j] else if j == at then x else list[j - 1];
    }
  }

  lemma SpliceKeeps(list: seq<OrderEntry>, rest: seq<OrderEntry>, at: nat, all: seq<OrderEntry>)
    requires Keeps(list, rest, all) && InOrder(list) && at < |list| && rest != [] && rest[0].myClk < list[at].myClk
    ensures Keeps(list[..at] + [rest[0]] + list[at..], rest[1..], all)
  {
    var before, after := list[..at], list[at..];
    assert before + after == list && [rest[0]] + rest[1..] == rest;
    forall clk
      ensures AtClock(before + [rest[0]] + after, clk) + AtClock(rest[1..], clk) == AtClock(all, clk)
    {
      SpliceOne(before, rest[0], after, rest[1..], clk);
      assert AtClock(list, clk) + AtClock(rest, clk) == AtClock(all, clk);
    }
  }

  lemma SpliceOne(before: seq<OrderEntry>, x: OrderEntry, after: seq<OrderEntry>, more: seq<OrderEntry>, clk: int)
    requires forall i :: 0 <= i < |after| ==> x.myClk < after[i].myClk
    ensures AtClock(before + [x] + after, clk) + AtClock(more, clk) == AtClock(before + after, clk) + AtClock([x] + more, clk)
  {
    AtClockAppend(before, after, clk);
    AtClockAppend(before + [x], after, clk);
    AtClockAppend(before, [x], clk);
    AtClockAppend([x], more, clk);
    if x.myClk == clk {
      NoneAtClock(after, clk);
    }
    MovesOver(AtClock(before, clk), AtClock([x], clk), AtClock(after, clk), AtClock(more, clk));
  }

  lemma MovesOver(a: seq<OrderEntry>, x: seq<OrderEntry>, b: seq<OrderEntry>, c: seq<OrderEntry>)
    requires x == [] || b == []
    ensures a + x + b + c == (a + b) + (x + c)
  {
  }

  lemma SpliceRest(list: seq<OrderEntry>, rest: seq<OrderEntry>, all: seq<OrderEntry>)
    requires Merging(list, rest, |list|) && rest != [] && Keeps(list, rest, all)
    ensures Merging(list + rest, [], |list|) && Keeps(list + rest, [], all)
  {
    assert list[..|list|] == list;
    assert forall i :: 0 <= i < |rest| ==> rest[0].myClk <= rest[i].myClk;
    forall clk
      ensures AtClock(list + rest, clk) + AtClock([], clk) == AtClock(all, clk)
    {
      AtClockAppend(list, rest, clk);
      assert AtClock(list, clk) + AtClock(rest, clk) == AtClock(all, clk);
    }
  }

  /** In order, with the same epochs at each clock: there is one such list. */
  lemma {:induction false} OneMergedOrder(s: seq<OrderEntry>, t: seq<OrderEntry>)
    requires InOrder(s) && InOrder(t) && forall clk :: AtClock(s, clk) == AtClock(t, clk)
    ensures s == t
  {
    if s == [] {
      NoneAtAnyClock(t);
    } else if t == [] {
      NoneAtAnyClock(s);
    } else {
      SameFirst(s, t);
      forall clk
        ensures AtClock(s[1..], clk) == AtClock(t[1..], clk)
      {
        assert AtClock(s, clk) == AtClock(t, clk);
        SameBehind(s, t, clk);
      }
      OneMergedOrder(s[1..], t[1..]);
      assert s == [s[0]] + s[1..] && t == [t[0]] + t[1..];
    }
  }

  lemma NoneAtAnyClock(s: seq<OrderEntry>)
    requires forall clk :: AtClock(s, clk) == []
    ensures s == []
  {
    var clk := if s == [] then 0 else s[0].myClk;
    assert AtClock(s, clk) == [];
  }

  lemma SameFirst(s: seq<OrderEntry>, t: seq<OrderEntry>)
    requires InOrder(s) && InOrder(t) && s != [] && t != [] && forall clk :: AtClock(s, clk) == AtClock(t, clk)
    ensures s[0] == t[0]
  {
    var clk := if s[0].myClk < t[0].myClk then s[0].myClk else t[0].myClk;
    FirstAtClock(s, clk);
    FirstAtClock(t, clk);
    assert AtClock(s, clk) == AtClock(t, clk);
  }

  lemma SameBehind(s: seq<OrderEntry>, t: seq<OrderEntry>, clk: int)
    requires s != [] && t != [] && s[0] == t[0] && AtClock(s, clk) == AtClock(t, clk)
    ensures AtClock(s[1..], clk) == AtClock(t[1..], clk)
  {
    if s[0].myClk == clk {
      var a, b := AtClock(s[1..], clk), AtClock(t[1..], clk);
      assert ([s[0]] + a)[1..] == a && ([s[0]] + b)[1..] == b;
    }
  }

  lemma FirstAtClock(s: seq<OrderEntry>, clk: int)
    requires InOrder(s) && s != [] && clk <= s[0].myClk
    ensures AtClock(s, clk) == [] <==> clk < s[0].myClk
    ensures AtClock(s, clk) != [] ==> AtClock(s, clk)[0] == s[0]
  {
    if clk < s[0].myClk {
      NoneAtClock(s, clk);
    }
  }

  // Merges a thread's execution order into the combined one. Of epochs with the same clock those that
  // were there come first.
  method MergeIntoOrderList(order: seq<OrderEntry>, mergeList: seq<OrderEntry>) returns (list: seq<OrderEntry>)
    requires InOrder(order) && InOrder(mergeList)
    ensures InOrder(list)
    ensures forall clk :: AtClock(list, clk) == AtClock(mergeList, clk) + AtClock(order, clk)
  {
    var rest, at := order, 0;
    list := mergeList;
    ghost var all := mergeList + order;
    assert Keeps(list, rest, all) by {
      forall clk
        ensures AtClock(list, clk) + AtClock(rest, clk) == AtClock(all, clk)
      {
        AtClockAppend(mergeList, order, clk);
      }
    }
    while rest != []
      invariant Merging(list, rest, at) && Keeps(list, rest, all)
      decreases |rest|, |list| - at
    {
      if at == |list| {
        SpliceRest(list, rest, all);
        list, rest := list + rest, [];
      } else if rest[0].myClk < list[at].myClk {
        SpliceFirst(list, rest, at);
        SpliceKeeps(list, rest, at, all);
        list, rest := list[..at] + [rest[0]] + list[at..], rest[1..];
        at := at + 1;
      } else {
        assert list[..at + 1] == list[..at] + [list[at]];
        at := at + 1;
      }
    }
    forall clk
      ensures AtClock(list, clk) == AtClock(mergeList, clk) + AtClock(order, clk)
    {
      AtClockAppend(mergeList, order, clk);
      assert AtClock(list, clk) + AtClock(rest, clk) == AtClock(all, clk);
    }
  }
}
