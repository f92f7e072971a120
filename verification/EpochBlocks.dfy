/**
 The versions of one block as the program keeps them: two lists that are spliced in place and the
 writer places of the accessors, moved by loops over the blocks in between.
 */
module EpochBlocks {
  import opened Chunks
  import opened EpochLists
  import opened EpochBuffers
  import opened EpochReads

  class BlockVersions {
    var accessors: seq<Block>
    var writers: seq<Block>
    var writersPos: map<Block, Place>
    // The blocks that have been written, and the clocks of the epochs.
    var written: set<Block>
    var clock: map<Block, int>

    ghost predicate InLinks()
      reads this
    {
      Linked(accessors, writers, writersPos, written)
    }

    ghost predicate Check()
      reads this
    {
      InLinks() && Sorted(accessors, clock)
    }

    constructor ()
      ensures Check() && accessors == [] && written == {}
    {
      accessors, writers, writersPos, written, clock := [], [], map[], {}, map[];
    }

    // Where a block belongs: its own place, or else in front of the first block not newer than it.
    method FindBlockPosition(block: Block) returns (p: nat)
      requires Check()
      ensures if block in accessors then p == Index(accessors, block)
              else p == Rank(accessors, clock, Clock(clock, block))
    {
      if block in accessors {
        return Index(accessors, block);
      }
      var c := Clock(clock, block);
      ghost var r := Rank(accessors, clock, c);
      WrittenMembers(accessors, written);
      p := 0;
      var k := 0;
      while k < |writers| && Clock(clock, writers[k]) > c
        invariant p <= r
      {
        assert writers[k] in writers;
        p := Index(accessors, writers[k]);
        RankSplits(accessors, clock, c, p);
        k := k + 1;
      }
      while p < |accessors| && Clock(clock, accessors[p]) > c
        invariant p <= r
      {
        RankSplits(accessors, clock, c, p);
        p := p + 1;
      }
      if p < |accessors| {
        RankSplits(accessors, clock, c, p);
      }
    }

    // Gives the accessors from lo to hi a new place.
    method Repoint(lo: nat, hi: nat, to: Place)
      requires lo <= hi <= |accessors|
      modifies this`writersPos
      ensures forall b :: b in accessors[lo..hi] ==> b in writersPos && writersPos[b] == to
      ensures forall b :: b !in accessors[lo..hi] && b in old(writersPos) ==> b in writersPos && writersPos[b] == old(writersPos)[b]
    {
      for k := lo to hi
        invariant forall b :: b in accessors[lo..k] ==> b in writersPos && writersPos[b] == to
        invariant forall b :: b !in accessors[lo..k] && b in old(writersPos) ==> b in writersPos && writersPos[b] == old(writersPos)[b]
      {
        assert accessors[lo..k + 1] == accessors[lo..k] + [accessors[k]];
        writersPos := writersPos[accessors[k] := to];
      }
    }

    // Behind the last writer in front of writer place m.
    method BehindWriter(m: nat, ghost i: nat) returns (lo: nat)
      requires Distinct(accessors) && i <= |accessors| && m <= |writers|
      requires writers[..m] == Written(accessors[..i], written)
      ensures lo <= i && Behind(accessors[..i], written, lo)
    {
      ghost var a := accessors[..i];
      WrittenMembers(a, written);
      assert accessors == a + accessors[i..];
      if m == 0 {
        lo := 0;
      } else {
        assert writers[m - 1] == writers[..m][m - 1] && writers[m - 1] in writers[..m];
        IndexIn(a, accessors[i..], writers[m - 1]);
        lo := Index(accessors, writers[m - 1]) + 1;
      }
    }

    // The block becomes an accessor at p.
    method AddAccessor(block: Block, p: nat)
      requires InLinks() && p <= |accessors| && block !in accessors
      modifies this`accessors, this`writersPos
      ensures InLinks() && accessors == old(accessors)[..p] + ([block] + old(accessors)[p..])
    {
      ghost var all, pos := accessors, writersPos;
      ghost var a, rest := all[..p], all[p..];
      assert all == a + rest;
      PointsAppend(a, rest, written, pos, End);
      var place := if p == |accessors| then End else writersPos[accessors[p]];
      writersPos := writersPos[block := place];
      accessors := accessors[..p] + ([block] + accessors[p..]);
      AddedReader(a, block, rest, written, writers, pos, writersPos);
    }

    // The accessor at i becomes a writer.
    method BecomeWriter(block: Block, i: nat)
      requires InLinks() && i < |accessors| && accessors[i] == block && block !in written
      modifies this`writers, this`writersPos, this`written
      ensures InLinks() && written == old(written) + {block}
    {
      ghost var a, rest, w, pos := accessors[..i], accessors[i + 1..], written, writersPos;
      Parts(accessors, i);
      Apart(a, block, rest);
      Around(a, block, rest, w, pos);
      PlaceOfFirst(a, rest, w);
      var m := PlaceIndex(writers, writersPos[block]);
      assert writers[..m] == Written(a, w) && writers[m..] == Written(rest, w);
      var lo := BehindWriter(m, i);
      writers := writers[..m] + ([block] + writers[m..]);
      writersPos := writersPos[block := At(block)];
      Repoint(lo, i, At(block));
      written := written + {block};
      assert accessors[lo..i] == a[lo..];
      PlaceBehind(rest, a, w);
      RetargetBehind(a, w, pos, First(rest, w, End), At(block), lo, writersPos);
      Promoted(a, block, rest, w, Written(a, w) + Written(rest, w), pos, writersPos);
    }

    // An access by the block's epoch. The lists' whole contents follow: `writers` and `writersPos`
    // are determined by the accessors and by which of them are written.
    method Access(isWrite: bool, block: Block, pos: nat) returns (p: nat)
      requires Check()
      requires if block in accessors then pos == Index(accessors, block) else pos == Rank(accessors, clock, Clock(clock, block))
      modifies this`accessors, this`writers, this`writersPos, this`written
      ensures Check() && p < |accessors| && accessors[p] == block
      ensures accessors == if block in old(accessors) then old(accessors)
                           else old(accessors)[..pos] + ([block] + old(accessors)[pos..])
      ensures written == old(written) + if isWrite then {block} else {}
    {
      p := pos;
      if block !in accessors {
        InsertedByRank(accessors, clock, block);
        AddAccessor(block, p);
      }
      if isWrite && block !in written {
        BecomeWriter(block, p);
      }
    }

    // The writer at i is taken off the list of writers.
    method Unwrite(block: Block, i: nat)
      requires InLinks() && i < |accessors| && accessors[i] == block && block in written
      modifies this`writers, this`writersPos, this`written
      ensures InLinks() && written == old(written) - {block}
    {
      ghost var a, rest, w, pos, wr := accessors[..i], accessors[i + 1..], written, writersPos, writers;
      Parts(accessors, i);
      WriterAt(a, block, rest, w);
      var m := Index(writers, block);
      var lo := BehindWriter(m, i);
      var pred := PlaceAt(writers, m + 1);
      Repoint(lo, i, pred);
      writers := writers[..m] + writers[m + 1..];
      writersPos := writersPos[block := pred];
      written := written - {block};
      DemotedAt(accessors, i, w, wr, pos, lo, writersPos);
    }

    method DropAccessor(i: nat)
      requires Check() && i < |accessors| && accessors[i] !in written
      modifies this`accessors
      ensures Check() && accessors == old(accessors)[..i] + old(accessors)[i + 1..]
    {
      ghost var a, rest := accessors[..i], accessors[i + 1..];
      Parts(accessors, i);
      DroppedReader(a, accessors[i], rest, written, writers, writersPos);
      SortedWithout(a, accessors[i], rest, clock);
      accessors := accessors[..i] + accessors[i + 1..];
    }

    method Remove(block: Block)
      requires Check()
      modifies this`accessors, this`writers, this`writersPos, this`written
      ensures Check() && written == old(written) - {block}
      ensures accessors == Without(old(accessors), block)
    {
      if block in accessors {
        var i := Index(accessors, block);
        if block in written {
          Unwrite(block, i);
        }
        DropAccessor(i);
      }
    }

    // The loop over the readers that a written block passes: they are left to the next older writer,
    // up to the block's new place or to the first block that points elsewhere.
    method TurnReaders(block: Block, i: nat, pred: Place) returns (n: nat)
      requires Distinct(accessors) && i < |accessors| && accessors[i] == block
      requires forall b :: b in accessors[..i] ==> b in writersPos
      modifies this`writersPos
      ensures n <= i
      ensures n > 0 ==> Clock(clock, accessors[n - 1]) > Clock(clock, block) || old(writersPos)[accessors[n - 1]] != At(block)
      ensures forall j :: n <= j < i ==> Clock(clock, accessors[j]) <= Clock(clock, block)
      ensures forall b :: b in accessors[n..i] ==> old(writersPos)[b] == At(block)
      ensures writersPos == Repointed(old(writersPos), accessors[n..i], pred)
    {
      n := i;
      while n > 0
        invariant n <= i
        invariant forall j :: n <= j < i ==> Clock(clock, accessors[j]) <= Clock(clock, block)
        invariant forall b :: b in accessors[n..i] ==> old(writersPos)[b] == At(block)
        invariant writersPos == Repointed(old(writersPos), accessors[n..i], pred)
      {
        var b := accessors[n - 1];
        assert accessors[..i][n - 1] == b && b !in accessors[n..i];
        if Clock(clock, b) > Clock(clock, block) || writersPos[b] != At(block) {
          break;
        }
        assert accessors[n - 1..i] == [b] + accessors[n..i];
        n := n - 1;
        writersPos := writersPos[b := pred];
      }
    }

    // Over the writers, as long as they are not newer than c; n is the accessor reached.
    method JumpWriters(c: int, w: nat, i: nat, at: nat) returns (m: nat, n: nat)
      requires Distinct(accessors) && at <= i <= |accessors| && w <= |writers|
      requires writers[..w] == Written(accessors[..i], written) && Sorted(accessors[..i], clock)
      requires Rank(accessors[..i], clock, c) <= at
      ensures m <= w && m == Rank(writers[..w], clock, c)
      ensures Rank(accessors[..i], clock, c) <= n <= i
    {
      ghost var a := accessors[..i];
      assert accessors == a + accessors[i..];
      WrittenMembers(a, written);
      WrittenSorted(a, written, clock);
      ghost var r := Rank(writers[..w], clock, c);
      m, n := w, at;
      while m > 0
        invariant r <= m <= w
        invariant Rank(a, clock, c) <= n <= i
      {
        RankSplits(writers[..w], clock, c, m - 1);
        if Clock(clock, writers[m - 1]) > c {
          break;
        }
        m := m - 1;
        assert writers[..w][m] in writers[..w] && writers[..w][m] == writers[m];
        IndexIn(a, accessors[i..], writers[m]);
        n := Index(accessors, writers[m]);
        RankSplits(a, clock, c, n);
      }
    }

    // On from there over the accessors.
    method WalkAccessors(c: int, ghost i: nat, at: nat) returns (n: nat)
      requires at <= i <= |accessors| && Sorted(accessors[..i], clock) && Rank(accessors[..i], clock, c) <= at
      ensures n == Rank(accessors[..i], clock, c)
    {
      n := at;
      while n > 0
        invariant Rank(accessors[..i], clock, c) <= n <= at
      {
        RankSplits(accessors[..i], clock, c, n - 1);
        if Clock(clock, accessors[n - 1]) > c {
          break;
        }
        n := n - 1;
      }
    }

    // The accessors in front of place n that point to `from` are given the place `to`.
    method ServeReaders(n: nat, from: Place, to: Place)
      requires n <= |accessors| && Points(accessors[..n], written, writersPos, from) && Outside(from, accessors[..n])
      requires forall b :: b in accessors[..n] ==> b in writersPos
      requires Distinct(accessors)
      modifies this`writersPos
      ensures Retargeted(accessors[..n], old(writersPos), from, to, writersPos)
      ensures forall b :: b in old(writersPos) && b !in accessors[..n] ==> b in writersPos && writersPos[b] == old(writersPos)[b]
    {
      var k := n;
      while k > 0
        invariant 0 <= k <= n
        invariant forall b :: b in accessors[k..n] ==> b in old(writersPos) && old(writersPos)[b] == from
        invariant writersPos == Repointed(old(writersPos), accessors[k..n], to)
      {
        var b := accessors[k - 1];
        assert accessors[..n][k - 1] == b && b !in accessors[k..n];
        if writersPos[b] != from {
          break;
        }
        assert accessors[k - 1..n] == [b] + accessors[k..n];
        k := k - 1;
        writersPos := writersPos[b := to];
      }
      assert accessors[..n][k..] == accessors[k..n];
      assert k > 0 ==> accessors[..n][k - 1] == accessors[k - 1] && accessors[k - 1] !in accessors[k..n];
      RetargetSuffix(accessors[..n], written, old(writersPos), from, to, k);
      assert forall b :: b in accessors[k..n] ==> b in accessors[..n];
    }

    method LeaveReaders(block: Block, i: nat, k: nat) returns (n: nat)
      requires InLinks() && Ahead(accessors, clock, i) && accessors[i] == block && block in written
      requires k == |Written(accessors[..i], written)|
      modifies this`writersPos
      ensures k < |writers| && Target(accessors, clock, i) <= n <= i
      ensures var p := Target(accessors, clock, i);
        && Retargeted(accessors[p..i], old(writersPos), At(block), First(accessors[i + 1..], written, End), writersPos)
        && Unchanged(accessors[..p], old(writersPos), writersPos) && Unchanged(accessors[i..], old(writersPos), writersPos)
    {
      ghost var pos, p := writersPos, Target(accessors, clock, i);
      PassedPoints(accessors, written, pos, p, i);
      WriterNumber(accessors, written, i);
      n := TurnReaders(block, i, PlaceAt(writers, k + 1));
      TurnStops(accessors, clock, i, n);
      ReadersTurned(accessors, written, pos, p, n, i, PlaceAt(writers, k + 1));
    }

    // A written block at i goes to p, among the writers from k to m.
    method AdvanceWriter(block: Block, p: nat, m: nat, i: nat, k: nat, ghost pos: map<Block, Place>)
      requires Linked(accessors, writers, pos, written) && p <= i < |accessors| && accessors[i] == block && block in written
      requires m == |Written(accessors[..p], written)| && k == |Written(accessors[..i], written)| && m <= k < |writers|
      requires Retargeted(accessors[p..i], pos, At(block), First(accessors[i + 1..], written, End), writersPos)
      requires Unchanged(accessors[..p], pos, writersPos) && Unchanged(accessors[i..], pos, writersPos)
      modifies this`accessors, this`writers, this`writersPos
      ensures InLinks() && accessors == Forward(old(accessors), p, i)
    {
      ghost var all, mid := accessors, writersPos;
      ForwardWriters(all, written, p, i);
      FirstPlace(all, written, p);
      FrontPoints(all, written, pos, p, mid);
      var succ := PlaceAt(writers, m);
      accessors := accessors[..p] + ([block] + (accessors[p..i] + accessors[i + 1..]));
      writers := writers[..m] + ([block] + (writers[m..k] + writers[k + 1..]));
      ForwardDistinct(all, p, i);
      assert accessors == Forward(all, p, i) && writers == Written(accessors, written);
      ServeReaders(p, succ, At(block));
      WriterForwarded(all, written, pos, p, i, mid, writersPos);
    }

    // An accessor that has not been written goes from i to p.
    method AdvanceReader(block: Block, p: nat, m: nat, i: nat)
      requires InLinks() && p <= i < |accessors| && accessors[i] == block && block !in written
      requires m == |Written(accessors[..p], written)| <= |writers|
      modifies this`accessors, this`writersPos
      ensures InLinks() && accessors == Forward(old(accessors), p, i)
    {
      ghost var all, pos := accessors, writersPos;
      ForwardWriters(all, written, p, i);
      FirstPlace(all, written, p);
      accessors := accessors[..p] + ([block] + (accessors[p..i] + accessors[i + 1..]));
      writersPos := writersPos[block := PlaceAt(writers, m)];
      ReaderForwarded(all, written, pos, p, i, writersPos);
    }

    // The block's epoch has a later clock: the block moves to its new place, in front of the first
    // block that is not newer.
    method Advance(block: Block)
      requires InLinks()
      requires if block in accessors then Ahead(accessors, clock, Index(accessors, block)) else Sorted(accessors, clock)
      modifies this`accessors, this`writers, this`writersPos
      ensures Check()
      ensures block !in old(accessors) ==> accessors == old(accessors)
      ensures block in old(accessors) ==>
                var i := Index(old(accessors), block);
                accessors == Forward(old(accessors), Target(old(accessors), clock, i), i)
    {
      if block in accessors {
        var i := Index(accessors, block);
        ghost var pos := writersPos;
        SortedFront(accessors, clock, i);
        ForwardSorts(accessors, clock, i);
        TargetOfWriters(accessors, written, clock, i);
        WriterPlace(accessors, written, writersPos, i);
        var k := PlaceIndex(writers, writersPos[block]);
        var n := i;
        if block in written {
          n := LeaveReaders(block, i, k);
        }
        var m;
        m, n := JumpWriters(Clock(clock, block), k, i, n);
        n := WalkAccessors(Clock(clock, block), i, n);
        if block in written {
          AdvanceWriter(block, n, m, i, k, pos);
        } else {
          AdvanceReader(block, n, m, i);
        }
      }
    }

    // The clock of a block's epoch grows.
    method AdvanceClock(block: Block, c: int)
      requires Check() && Clock(clock, block) <= c
      modifies this
      ensures Check() && written == old(written) && clock == old(clock)[block := c]
      ensures block !in old(accessors) ==> accessors == old(accessors)
      ensures block in old(accessors) ==>
                var i := Index(old(accessors), block);
                accessors == Forward(old(accessors), Target(old(accessors), clock, i), i)
    {
      if block in accessors {
        ClockHasGrown(accessors, clock, Index(accessors, block), c);
      }
      clock := clock[block := c];
      Advance(block);
    }

    // The writers that a read at `pos` conflicts with. The older ones are all writers behind the
    // reader, the younger ones all writers in front of it, nearest first.
    method FindReadConflicts(currBlock: Block, pos: nat, buffers: map<Block, Buffer>, merged: set<Block>,
                             beforeMask: Mask, afterMask: Mask)
      returns (memReadMask: Mask, writesBefore: seq<Conflict>, writesAfter: seq<Conflict>)
      requires Check()
      requires if currBlock in accessors then pos == Index(accessors, currBlock) else pos <= |accessors|
      ensures var older := accessors[if currBlock in accessors then pos + 1 else pos..];
        && writesBefore == Conflicts(Written(older, written), buffers, beforeMask)
        && memReadMask == FromMemory(Written(older, written), buffers, merged, beforeMask)
        && SharedOut(writesBefore, beforeMask, older, true, written, buffers) && FarthestFirst(writesBefore, older, true)
        && forall k :: k in memReadMask <==> k in beforeMask && var p := Holder(writesBefore, k); p == End || p.block in merged
      ensures SharedOut(writesAfter, afterMask, accessors[..pos], false, written, buffers)
      ensures FarthestFirst(writesAfter, accessors[..pos], false)
      ensures writesAfter == Conflicts(Reversed(Written(accessors[..pos], written)), buffers, afterMask)
    {
      SplitWriters(accessors, written, writersPos, pos);
      var place := if pos == |accessors| then End else writersPos[accessors[pos]];
      var wrPos := PlaceIndex(writers, place);
      writesAfter := SearchAfter(writers[..wrPos], buffers, afterMask);
      if wrPos < |writers| && writers[wrPos] == currBlock {
        wrPos := wrPos + 1;
      }
      BehindReader(accessors, written, pos, currBlock);
      memReadMask, writesBefore := SearchBefore(writers[wrPos..], buffers, merged, beforeMask);
      OlderShared(accessors[if currBlock in accessors then pos + 1 else pos..], written, buffers, merged, beforeMask);
      YoungerShared(accessors[..pos], written, buffers, afterMask);
      OlderOrdered(accessors[if currBlock in accessors then pos + 1 else pos..], written, buffers, beforeMask);
      YoungerOrdered(accessors[..pos], written, buffers, afterMask);
    }

    // Merges the block into memory, and before it all older ones that have not been merged: oldest first.
    // `may` are the blocks whose epochs may merge; an older one whose epoch may not is as new as the block
    // and goes in front of it.
    method MergeBlock(block: Block, may: set<Block>, buffers: map<Block, Buffer>, merged: set<Block>, memory: Chunk, ghost n: nat)
      returns (nowMerged: set<Block>, nowMemory: Chunk, ghost done: seq<Block>)
      requires Check() && block in accessors && block in may && MergedFrom(accessors, merged, n)
      requires OthersAsNew(accessors, clock, may, Index(accessors, block), n)
      modifies this`accessors, this`writers, this`writersPos
      ensures Check() && block in nowMerged && nowMerged == merged + (set b | b in done)
      ensures done == if block in merged then [] else Written(old(accessors)[Index(old(accessors), block)..n], may)
      ensures nowMemory == Replayed(memory, done, buffers)
      ensures |done| <= n && MergedFrom(accessors, nowMerged, n - |done|) && accessors[n - |done|..] == done + old(accessors)[n..]
    {
      nowMerged, nowMemory, done := merged, memory, [];
      assert merged + (set b | b in done) == merged;
      var i: nat := Index(accessors, block);
      if block !in merged {
        var e: nat := i;
        while e < |accessors| && accessors[e] !in merged
          invariant i <= e <= n
        {
          e := e + 1;
        }
        MergingStarts(accessors, may, i, n, merged);
        nowMerged, nowMemory, done := MergeBefore(block, i, e, may, buffers, merged, memory);
      }
    }

    // Merges backwards from e, until the block at i has been merged.
    method MergeBefore(block: Block, i0: nat, e0: nat, may: set<Block>, buffers: map<Block, Buffer>, merged: set<Block>, memory: Chunk)
      returns (nowMerged: set<Block>, nowMemory: Chunk, ghost done: seq<Block>)
      requires Check() && i0 < |accessors| && i0 <= e0 <= |accessors| && accessors[i0] == block && block in may && block !in merged
      requires MergingAt(accessors, may, i0, e0, merged, [], Written(accessors[i0..e0], may), accessors[e0..])
      requires OthersAsNew(accessors, clock, may, i0, e0)
      modifies this`accessors, this`writers, this`writersPos
      ensures Check() && block in nowMerged && nowMerged == merged + (set b | b in done)
      ensures done == Written(old(accessors)[i0..e0], may) && nowMemory == Replayed(memory, done, buffers)
      ensures |done| <= e0 && MergedFrom(accessors, nowMerged, e0 - |done|) && accessors[e0 - |done|..] == done + old(accessors)[e0..]
    {
      nowMerged, nowMemory, done := merged, memory, [];
      assert merged + (set b | b in done) == merged;
      var i: nat, e: nat := i0, e0;
      ghost var all, settled := Written(accessors[i0..e0], may), accessors[e0..];
      while i < e
        invariant Check() && i <= e <= |accessors| && i < |accessors| && accessors[i] == block && e == e0 - |done|
        invariant MergingAt(accessors, may, i, e, nowMerged, done, all, settled) && OthersAsNew(accessors, clock, may, i, e)
        invariant nowMerged == merged + (set b | b in done) && nowMemory == Replayed(memory, done, buffers)
        decreases e - i
      {
        var b := accessors[e - 1];
        if b !in may {
          MoveAhead(b, i, e, may, nowMerged, done, all, settled);
          i := i + 1;
        } else {
          MergeOne(accessors, may, i, e, nowMerged, done, all, settled);
          MoreMerged(merged, done, b);
          nowMemory := MergeInto(nowMemory, b, buffers);
          e, nowMerged, done := e - 1, nowMerged + {b}, [b] + done;
        }
      }
      MergingEnds(accessors, may, i, nowMerged, done, all, settled);
    }

    method MergeInto(memory: Chunk, b: Block, buffers: map<Block, Buffer>) returns (r: Chunk)
      ensures r == if b in buffers then Merged(memory, buffers[b]) else memory
    {
      r := memory;
      if b in buffers {
        r := MaskedChunkCopy(buffers[b].data, memory, buffers[b].wr);
      }
    }

    // The block in front of e, which may not merge, goes in front of the one at i.
    method MoveAhead(b: Block, ghost i: nat, ghost e: nat, ghost may: set<Block>, ghost merged: set<Block>, ghost done: seq<Block>,
                     ghost all: seq<Block>, ghost settled: seq<Block>)
      requires Check() && i < e - 1 < |accessors| && accessors[e - 1] == b && b !in may
      requires MergingAt(accessors, may, i, e, merged, done, all, settled) && OthersAsNew(accessors, clock, may, i, e)
      modifies this`accessors, this`writers, this`writersPos
      ensures Check() && |accessors| == |old(accessors)| && accessors[i + 1] == old(accessors)[i]
      ensures MergingAt(accessors, may, i + 1, e, merged, done, all, settled) && OthersAsNew(accessors, clock, may, i + 1, e)
    {
      ghost var p := Target(accessors, clock, e - 1);
      SortedIsAhead(accessors, clock, e - 1);
      TargetOfEqual(accessors, clock, i, e - 1);
      SkipOne(accessors, may, i, e, merged, done, all, settled, p);
      SkipKeepsAsNew(accessors, clock, may, i, e, p);
      assert Index(accessors, b) == e - 1;
      Advance(b);
    }
  }
}
