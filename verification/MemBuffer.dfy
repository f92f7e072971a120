/**
 The memory buffers: the entries of all versions in one ordered set, updated in place, and for each
 version an index of the chunks it has an entry for. The methods take the steps of the versioned
 memory.
 */
module MemBuffers {
  import opened Options
  import opened Chunks
  import opened VersionedMemory
  import opened EntrySet

  class MemBufferDomain {
    var memOps: seq<Entry>
    var memory: Memory
    ghost var cells: map<Key, Cell>
    ghost var floor: Version

    ghost function St(): State
      reads this
    {
      State(memory, cells, floor)
    }

    ghost predicate Valid()
      reads this
    {
      && Ordered(memOps) && Represents(memOps, cells)
      && (forall k :: k in cells ==> k.0 in memory && floor <= k.1)
    }

    constructor (m: Memory, oldest: Version)
      ensures Valid() && St() == State(m, map[], oldest)
    {
      var junk := Cell([0, 0, 0, 0, 0, 0, 0, 0], {}, {});
      memOps := [Entry(FIRST_CHUNK, oldest, junk), Entry(LAST_CHUNK, oldest, junk)];
      memory := m;
      cells := map[];
      floor := oldest;
    }

    // Insertion into the set: before the first entry that is not less than the new one.
    method Insert(e: Entry) returns (mit: nat)
      requires Valid() && FIRST_CHUNK < e.chunk < LAST_CHUNK && KeyOf(e) !in cells
      requires e.chunk in memory && floor <= e.ver
      modifies this`memOps, this`cells
      ensures Valid() && cells == old(cells)[KeyOf(e) := e.cell]
      ensures 0 < mit < |memOps| - 1 && memOps[mit] == e
    {
      mit := 1;
      while Less(memOps[mit], e)
        invariant 0 < mit < |memOps|
        invariant Less(memOps[mit - 1], e)
        decreases |memOps| - mit
      {
        mit := mit + 1;
      }
      NotPresent(memOps, cells, mit, e);
      InsertEntry(memOps, cells, mit, e);
      SpliceAt(memOps, mit, e);
      memOps := Splice(memOps, mit, e);
      cells := cells[KeyOf(e) := e.cell];
    }

    method Find(c: nat, v: Version) returns (mit: nat)
      requires Valid() && (c, v) in cells
      ensures At(memOps, mit, (c, v)) && memOps[mit].cell == cells[(c, v)]
    {
      ghost var j: nat :| At(memOps, j, (c, v));
      mit := 1;
      while memOps[mit].chunk != c || memOps[mit].ver != v
        invariant 0 < mit <= j
        decreases j - mit
      {
        mit := mit + 1;
      }
      assert KeyOf(memOps[mit]) in cells;
    }

    // In-place update of one entry's copy and masks.
    method Update(mit: nat, e: Cell)
      requires Valid() && 0 < mit < |memOps| - 1
      modifies this`memOps, this`cells
      ensures Valid() && memOps == old(memOps)[mit := old(memOps[mit]).(cell := e)]
      ensures cells == old(cells)[KeyOf(old(memOps[mit])) := e] && cells.Keys == old(cells.Keys)
    {
      UpdateEntry(memOps, cells, mit, e);
      assert KeyOf(memOps[mit]) in cells;
      cells := cells[KeyOf(memOps[mit]) := e];
      memOps := memOps[mit := memOps[mit].(cell := e)];
    }

    method Replace(ops: seq<Entry>, ghost newCells: map<Key, Cell>)
      requires Valid() && Ordered(ops) && Represents(ops, newCells) && forall k :: k in newCells <==> k in cells
      modifies this`memOps, this`cells
      ensures Valid() && memOps == ops && St() == old(St()).(cells := newCells)
    {
      memOps := ops;
      cells := newCells;
    }

    // Versions below v are over.
    ghost method RaiseFloor(v: Version)
      requires Valid() && forall k :: k in cells ==> v <= k.1
      modifies this`floor
      ensures Valid() && St() == old(St()).(floor := v)
    {
      floor := v;
    }

    method Erase(mit: nat)
      requires Valid() && 0 < mit < |memOps| - 1
      modifies this`memOps, this`cells
      ensures Valid() && memOps == old(memOps[..mit] + memOps[mit + 1..])
      ensures cells == old(cells) - {KeyOf(old(memOps[mit]))}
    {
      RemoveEntry(memOps, cells, mit);
      cells := cells - {KeyOf(memOps[mit])};
      memOps := memOps[..mit] + memOps[mit + 1..];
    }

    // What a new entry starts with: the copy of the next older version, or memory.
    method InitialData(mit: nat) returns (d: Chunk)
      requires Valid() && 0 < mit < |memOps| - 1 && memOps[mit].chunk in memory
      ensures Inherits(St(), memOps[mit].chunk, memOps[mit].ver, d)
    {
      var e, prevEntry := memOps[mit], memOps[mit - 1];
      assert Less(prevEntry, e);
      OlderNeighbour(memOps, cells, mit, e.chunk, e.ver);
      if prevEntry.chunk == e.chunk {
        d := prevEntry.cell.data;
      } else {
        var copied;
        d, copied := ChunkCopy(e.cell.data, memory[e.chunk], FULL_MASK);
      }
    }
  }

  class MemBuffer {
    const mbd: MemBufferDomain
    const memVer: Version
    var mapMemOps: set<nat>

    // The index lists the chunks that this version has an entry for.
    ghost predicate Valid()
      reads this, mbd
    {
      && mbd.Valid() && mbd.floor <= memVer
      && forall c :: c in mapMemOps <==> (c, memVer) in mbd.cells
    }

    constructor (domain: MemBufferDomain, ver: Version)
      requires domain.Valid() && domain.floor <= ver && forall k :: k in domain.cells ==> k.1 != ver
      ensures mbd == domain && memVer == ver && Valid()
    {
      mbd, memVer, mapMemOps := domain, ver, {};
    }

    method CreateEntry(cIndex: nat) returns (mit: nat)
      requires Valid() && FIRST_CHUNK < cIndex < LAST_CHUNK && cIndex in mbd.memory && cIndex !in mapMemOps
      modifies this, mbd`memOps, mbd`cells
      ensures Valid() && Touch(old(mbd.St()), cIndex, memVer, mbd.St())
      ensures At(mbd.memOps, mit, (cIndex, memVer)) && mbd.memOps[mit].cell == mbd.cells[(cIndex, memVer)]
    {
      mit := AddEntry(cIndex);
      mapMemOps := mapMemOps + {cIndex};
    }

    // A new entry takes its data from the version before or from memory.
    method AddEntry(cIndex: nat) returns (mit: nat)
      requires mbd.Valid() && mbd.floor <= memVer && (cIndex, memVer) !in mbd.cells
      requires FIRST_CHUNK < cIndex < LAST_CHUNK && cIndex in mbd.memory
      modifies mbd`memOps, mbd`cells
      ensures mbd.Valid() && Touch(old(mbd.St()), cIndex, memVer, mbd.St())
      ensures At(mbd.memOps, mit, (cIndex, memVer)) && mbd.memOps[mit].cell == mbd.cells[(cIndex, memVer)]
      ensures mbd.cells.Keys == old(mbd.cells).Keys + {(cIndex, memVer)}
    {
      mit := mbd.Insert(Entry(cIndex, memVer, Cell([0, 0, 0, 0, 0, 0, 0, 0], {}, {})));
      ghost var s, k := mbd.St(), (cIndex, memVer);
      var d := mbd.InitialData(mit);
      InheritsFromOthers(old(mbd.St()), s, cIndex, memVer, d);
      assert KeyOf(mbd.memOps[mit]) == k;
      Overwrite(old(mbd.cells), k, s.cells[k], Cell(d, {}, {}));
      mbd.Update(mit, Cell(d, {}, {}));
    }

    // This version's entry for the chunk, made on the first access to it.
    method GetEntry(cIndex: nat) returns (mit: nat)
      requires Valid() && FIRST_CHUNK < cIndex < LAST_CHUNK && cIndex in mbd.memory
      modifies this, mbd`memOps, mbd`cells
      ensures Valid() && Touch(old(mbd.St()), cIndex, memVer, mbd.St())
      ensures At(mbd.memOps, mit, (cIndex, memVer)) && mbd.memOps[mit].cell == mbd.cells[(cIndex, memVer)]
    {
      if cIndex !in mapMemOps {
        mit := CreateEntry(cIndex);
      } else {
        mit := mbd.Find(cIndex, memVer);
      }
    }

    // The value of the chunk that this version reads.
    method Read(cIndex: nat, accMask: Mask) returns (value: Chunk)
      requires Valid() && FIRST_CHUNK < cIndex < LAST_CHUNK && cIndex in mbd.memory
      modifies this, mbd`memOps, mbd`cells
      ensures Valid() && ReadStep(old(mbd.St()), cIndex, memVer, accMask, value, mbd.St())
    {
      var mit := GetEntry(cIndex);
      ghost var t := mbd.St();
      var e := mbd.memOps[mit].cell;
      mbd.Update(mit, e.(xrd := e.xrd + (accMask - e.wr)));
      value := e.data;
      assert Load(t, cIndex, memVer, accMask, value, mbd.St());
    }

    // A write by this version: reports the first younger version that has read too early, if any.
    method PostWrite(writeData: Chunk, cIndex: nat, accMask: Mask) returns (report: Option<Version>)
      requires Valid() && FIRST_CHUNK < cIndex < LAST_CHUNK && cIndex in mbd.memory
      modifies this, mbd`memOps, mbd`cells
      ensures Valid() && WriteStep(old(mbd.St()), cIndex, memVer, accMask, writeData, report, mbd.St())
    {
      var mit := GetEntry(cIndex);
      ghost var t := mbd.St();
      report := StoreAndForward(mit, cIndex, writeData, accMask);
      assert Store(t, cIndex, memVer, accMask, writeData, report, mbd.St());
    }

    // Takes one of this version's entries out of the set.
    method Detach(c: nat) returns (e: Cell)
      requires Valid() && c in mapMemOps
      modifies this, mbd`memOps, mbd`cells
      ensures mbd.Valid() && Valid() && mapMemOps == old(mapMemOps) - {c}
      ensures old((c, memVer) in mbd.cells) && e == old(mbd.cells[(c, memVer)])
      ensures mbd.cells == old(mbd.cells) - {(c, memVer)}
    {
      var mit := mbd.Find(c, memVer);
      e := mbd.memOps[mit].cell;
      mbd.Erase(mit);
      mapMemOps := mapMemOps - {c};
    }

    // Drops everything this version has done.
    method JustDestroy()
      requires Valid()
      modifies this, mbd`memOps, mbd`cells
      ensures Valid() && mapMemOps == {}
      ensures mbd.cells == map k | k in old(mbd.cells) && k.1 != memVer :: old(mbd.cells)[k]
      ensures mbd.floor < memVer && Youngest(old(mbd.cells), memVer) ==> KillStep(old(mbd.St()), memVer, mbd.St())
    {
      ghost var s := mbd.St();
      ghost var cells := mbd.cells;
      while mapMemOps != {}
        invariant Valid()
        invariant forall k :: k in mbd.cells <==> k in cells && (k.1 == memVer ==> k.0 in mapMemOps)
        invariant forall k :: k in mbd.cells ==> mbd.cells[k] == cells[k]
        decreases mapMemOps
      {
        var c :| c in mapMemOps;
        var e := Detach(c);
      }
      DestroyIsKill(s, memVer, mbd.St());
    }

    method MergeOne(c: nat, ghost s: State)
      requires Valid() && c in mapMemOps && Merging(s, memVer, mapMemOps, mbd.St())
      modifies this, mbd`memOps, mbd`cells, mbd`memory
      ensures Valid() && Merging(s, memVer, mapMemOps, mbd.St()) && mapMemOps == old(mapMemOps) - {c}
    {
      ghost var t := mbd.St();
      var e := Detach(c);
      if e.wr != {} {
        var d, copied := ChunkCopy(mbd.memory[c], e.data, e.wr);
        mbd.memory := mbd.memory[c := d];
      }
      MergedOne(s, memVer, old(mapMemOps), t, c, mbd.St());
    }

    // Writes this version's bytes to memory; it must be the oldest one left.
    method MergeOps()
      requires Valid() && forall k :: k in mbd.cells ==> memVer <= k.1
      modifies this, mbd
      ensures Valid() && mapMemOps == {}
      ensures MergeStep(old(mbd.St()), memVer, mbd.St())
    {
      ghost var s := mbd.St();
      MergeLoop(s);
      MergeFinished(s, memVer, mbd.St());
      mbd.RaiseFloor(memVer);
    }

    method MergeLoop(ghost s: State)
      requires Valid() && s == mbd.St()
      modifies this, mbd`memOps, mbd`cells, mbd`memory
      ensures Valid() && mapMemOps == {} && Merging(s, memVer, {}, mbd.St())
    {
      while mapMemOps != {}
        invariant Valid() && Merging(s, memVer, mapMemOps, mbd.St())
        decreases mapMemOps
      {
        var c :| c in mapMemOps;
        MergeOne(c, s);
      }
    }

    method StoreAndForward(mit: nat, cIndex: nat, writeData: Chunk, accMask: Mask) returns (report: Option<Version>)
      requires mbd.Valid() && At(mbd.memOps, mit, (cIndex, memVer))
      modifies mbd`memOps, mbd`cells
      ensures mbd.Valid() && Store(old(mbd.St()), cIndex, memVer, accMask, writeData, report, mbd.St())
    {
      ghost var stop;
      var ops;
      ops, report, stop := Forward(mbd.memOps, mit, writeData, accMask);
      ghost var cells := ForwardIsStore(mbd.St(), mbd.memOps, mit, stop, cIndex, memVer, accMask, writeData, report, ops);
      mbd.Replace(ops, cells);
    }
  }

  // No version in the set is younger.
  ghost predicate Youngest(cells: map<Key, Cell>, v: Version) {
    forall k :: k in cells ==> k.1 <= v
  }

  // Destroying the youngest version is killing from it on.
  lemma DestroyIsKill(s: State, v: Version, t: State)
    requires t.mem == s.mem && t.floor == s.floor
    requires forall k :: k in t.cells <==> k in s.cells && k.1 != v
    requires forall k :: k in t.cells ==> t.cells[k] == s.cells[k]
    ensures t.cells == map k | k in s.cells && k.1 != v :: s.cells[k]
    ensures s.floor < v && Youngest(s.cells, v) ==> KillStep(s, v, t)
  {
  }

  // Part-way through the merge of version v from state s: the entries of the chunks `left` are as
  // before, the others are in memory.
  ghost predicate Merging(s: State, v: Version, left: set<nat>, t: State) {
    && t.floor == s.floor && t.mem.Keys == s.mem.Keys
    && (forall k :: k in t.cells <==> k in s.cells && (k.1 == v ==> k.0 in left))
    && (forall k :: k in t.cells ==> t.cells[k] == s.cells[k])
    && (forall c :: c in s.mem ==>
          t.mem[c] == if (c, v) in s.cells && c !in left then MergedChunk(s, c, v) else s.mem[c])
  }

  lemma MergeFinished(s: State, v: Version, t: State)
    requires Merging(s, v, {}, t) && s.floor <= v && forall k :: k in s.cells ==> v <= k.1
    ensures MergeStep(s, v, t.(floor := v)) && forall k :: k in t.cells ==> v <= k.1
  {
  }

  lemma MergedOne(s: State, v: Version, left: set<nat>, t: State, c: nat, t': State)
    requires Merging(s, v, left, t) && c in left && (c, v) in t.cells && c in s.mem
    requires t'.floor == t.floor && t'.cells == t.cells - {(c, v)}
    requires var e := t.cells[(c, v)];
             t'.mem == if e.wr != {} then t.mem[c := Overlay(t.mem[c], e.data, e.wr)] else t.mem
    ensures Merging(s, v, left - {c}, t')
  {
    assert t.mem[c] == s.mem[c];
    assert t'.mem[c] == MergedChunk(s, c, v);
  }

  lemma ForwardIsStore(s: State, es: seq<Entry>, mit: nat, stop: nat, c: nat, v: Version, acc: Mask, d: Chunk,
                       r: Option<Version>, ops: seq<Entry>) returns (cells: map<Key, Cell>)
    requires Ordered(es) && Represents(es, s.cells) && At(es, mit, (c, v))
    requires mit < stop < |es| == |ops| && Stops(es, mit, stop, acc, r) && Propagated(es, mit, stop, acc, d, ops)
    requires var e := es[mit].cell; ops[mit] == es[mit].(cell := Cell(Overlay(e.data, d, acc), e.xrd, e.wr + acc))
    ensures Ordered(ops) && Represents(ops, cells) && forall k :: k in cells <==> k in s.cells
    ensures Store(s, c, v, acc, d, r, s.(cells := cells))
  {
    assert KeyOf(es[mit]) == (c, v);
    cells := PropagationIsStore(es, s.cells, mit, stop, c, v, acc, d, r, ops);
    assert forall k :: k in cells.Keys <==> k in s.cells.Keys;
  }

  /** The store proper. The writer's own entry takes the bytes; then they are pushed forward along
      the younger entries of the chunk, until these have written every byte themselves or one of
      them has read too early. */
  method Forward(es: seq<Entry>, mit0: nat, writeData: Chunk, accMask0: Mask)
    returns (ops: seq<Entry>, report: Option<Version>, ghost stop: nat)
    requires 0 < mit0 < |es| - 1 && es[|es| - 1].chunk != es[mit0].chunk
    ensures mit0 < stop < |es| == |ops|
    ensures Stops(es, mit0, stop, accMask0, report) && Propagated(es, mit0, stop, accMask0, writeData, ops)
    ensures var e := es[mit0].cell;
      ops[mit0] == es[mit0].(cell := Cell(Overlay(e.data, writeData, accMask0), e.xrd, e.wr + accMask0))
  {
    var e := es[mit0].cell;
    var accMask: Mask := accMask0;
    var copy, copied := ChunkCopy(e.data, writeData, accMask);
    ops := es[mit0 := es[mit0].(cell := Cell(copy, e.xrd, e.wr + accMask))];
    ghost var own := ops[mit0];
    var mit := mit0 + 1;
    report := None;
    while ops[mit].chunk == es[mit0].chunk
      invariant mit0 < mit < |ops| == |es| && report == None && ops[mit0] == own
      invariant Propagated(es, mit0, mit, accMask0, writeData, ops)
      invariant Travelling(es, mit0, mit, accMask0, accMask)
      decreases |es| - mit
    {
      ExposedMeaning(es, mit0, mit, accMask0, accMask);
      if accMask * ops[mit].cell.xrd != {} {
        report := Some(ops[mit].ver);
        break;
      }
      ghost var rest, was := accMask, ops;
      accMask := accMask - ops[mit].cell.wr;
      var succEntry := TakeBytes(ops[mit], writeData, accMask);
      ops := ops[mit := succEntry];
      PropagateOne(es, mit0, mit, accMask0, rest, writeData, was, ops);
      mit := mit + 1;
      if accMask == {} {
        break;
      }
    }
    stop := mit;
  }

  // A younger entry takes the bytes that still travel.
  method TakeBytes(e: Entry, writeData: Chunk, accMask: Mask) returns (r: Entry)
    ensures r == e.(cell := e.cell.(data := Overlay(e.cell.data, writeData, accMask)))
  {
    var copy, copied := e.cell.data, false;
    if accMask != {} {
      copy, copied := ChunkCopy(copy, writeData, accMask);
    }
    assert copy == Overlay(e.cell.data, writeData, accMask);
    r := e.(cell := e.cell.(data := copy));
  }

  lemma Overwrite<K, V>(m: map<K, V>, k: K, a: V, b: V)
    ensures m[k := a][k := b] == m[k := b]
  {
  }

  // What a version inherits does not depend on its own cell.
  lemma InheritsFromOthers(s: State, t: State, c: nat, v: Version, d: Chunk)
    requires c in s.mem && (c, v) in t.cells && t == s.(cells := s.cells[(c, v) := t.cells[(c, v)]])
    requires Inherits(t, c, v, d)
    ensures Inherits(s, c, v, d)
  {
    forall u
      ensures NextOlder(s.cells, c, v, u) ==> NextOlder(t.cells, c, v, u)
    {
    }
    assert Oldest(s.cells, c, v) ==> Oldest(t.cells, c, v);
  }
}
