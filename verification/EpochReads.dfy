/**
 Where an epoch's exposed read takes its bytes from: each byte from the nearest older writer, or
 from memory when that writer has been merged already or there is none.
 */
module EpochReads {
  import opened Chunks
  import opened EpochLists
  import opened EpochBuffers

  // Some bytes that a block has written.
  datatype Conflict = Conflict(block: Block, mask: Mask)

  function WrMask(buffers: map<Block, Buffer>, b: Block): Mask {
    if b in buffers then buffers[b].wr else {}
  }

  // The first of the writers, nearest first, that wrote byte k.
  function Nearest(ws: seq<Block>, buffers: map<Block, Buffer>, k: nat): Place {
    if ws == [] then End
    else if k in WrMask(buffers, ws[0]) then At(ws[0])
    else Nearest(ws[1..], buffers, k)
  }

  // How a search over the writers, nearest first, shares out the bytes of the mask. What is found
  // is put in front of the list.
  function Conflicts(ws: seq<Block>, buffers: map<Block, Buffer>, mask: Mask): seq<Conflict> {
    if ws == [] then []
    else
      var conf: Mask := WrMask(buffers, ws[0]) * mask;
      var rest: Mask := mask - conf;
      Conflicts(ws[1..], buffers, rest) + if conf != {} then [Conflict(ws[0], conf)] else []
  }

  // The bytes of the mask that no unmerged writer has.
  function FromMemory(ws: seq<Block>, buffers: map<Block, Buffer>, merged: set<Block>, mask: Mask): Mask {
    set k | k in mask && (Nearest(ws, buffers, k) == End || Nearest(ws, buffers, k).block in merged)
  }

  lemma {:induction false} NearestIsWriter(ws: seq<Block>, buffers: map<Block, Buffer>, k: nat)
    ensures var p := Nearest(ws, buffers, k); p.At? ==> p.block in ws && k in WrMask(buffers, p.block)
  {
    if ws != [] {
      NearestIsWriter(ws[1..], buffers, k);
    }
  }

  lemma {:induction false} NothingLeft(ws: seq<Block>, buffers: map<Block, Buffer>)
    ensures Conflicts(ws, buffers, {}) == []
  {
    if ws != [] {
      var none: Mask := {};
      assert WrMask(buffers, ws[0]) * none == none && none - none == none;
      NothingLeft(ws[1..], buffers);
    }
  }

  // The block to which the list gives byte k.
  function Holder(cs: seq<Conflict>, k: nat): Place {
    if cs == [] then End else if k in cs[0].mask then At(cs[0].block) else Holder(cs[1..], k)
  }

  ghost predicate OnlyOnce(cs: seq<Conflict>, k: nat) {
    cs != [] ==> OnlyOnce(cs[1..], k) && (k in cs[0].mask ==> Holder(cs[1..], k) == End)
  }

  lemma {:induction false} HolderOfBoth(a: seq<Conflict>, c: Conflict, k: nat)
    ensures Holder(a + [c], k) == if Holder(a, k).At? then Holder(a, k) else if k in c.mask then At(c.block) else End
    ensures OnlyOnce(a + [c], k) <==> OnlyOnce(a, k) && !(k in c.mask && Holder(a, k).At?)
  {
    if a == [] {
      assert a + [c] == [c] && [c][1..] == [];
    } else {
      assert (a + [c])[1..] == a[1..] + [c];
      HolderOfBoth(a[1..], c, k);
    }
  }

  /** The masks of the conflicts are disjoint, and each byte of the mask goes to its nearest writer. */
  lemma {:induction false} ConflictsAreNearest(ws: seq<Block>, buffers: map<Block, Buffer>, mask: Mask, k: nat)
    ensures var cs := Conflicts(ws, buffers, mask);
      OnlyOnce(cs, k) && Holder(cs, k) == if k in mask then Nearest(ws, buffers, k) else End
  {
    if ws != [] {
      var conf: Mask := WrMask(buffers, ws[0]) * mask;
      var rest: Mask := mask - conf;
      ConflictsAreNearest(ws[1..], buffers, rest, k);
      var cs := Conflicts(ws[1..], buffers, rest);
      if conf == {} {
        assert rest == mask;
        assert cs + [] == cs;
      } else {
        HolderOfBoth(cs, Conflict(ws[0], conf), k);
      }
    }
  }

  // ---------- copying in ----------

  // The loop over the conflicts: what is not merged is copied from the writers' buffers.
  function CopiedIn(dst: Chunk, cs: seq<Conflict>, buffers: map<Block, Buffer>, merged: set<Block>): Chunk
    decreases |cs|
  {
    if cs == [] then dst
    else
      var next := if cs[0].block !in merged && cs[0].block in buffers
                  then Overlay(dst, buffers[cs[0].block].data, cs[0].mask) else dst;
      CopiedIn(next, cs[1..], buffers, merged)
  }

  // The whole copy-in of a read: the writers' bytes, and then those from memory.
  function Assembled(dst: Chunk, ws: seq<Block>, buffers: map<Block, Buffer>, merged: set<Block>, mask: Mask, memory: Chunk): Chunk {
    Overlay(CopiedIn(dst, Conflicts(ws, buffers, mask), buffers, merged), memory, FromMemory(ws, buffers, merged, mask))
  }

  // Memory after the writers, listed newest first, have been merged oldest first.
  function Replayed(memory: Chunk, ws: seq<Block>, buffers: map<Block, Buffer>): Chunk {
    if ws == [] then memory
    else
      var older := Replayed(memory, ws[1..], buffers);
      if ws[0] in buffers then Merged(older, buffers[ws[0]]) else older
  }

  lemma {:induction false} ReplayedByte(memory: Chunk, ws: seq<Block>, buffers: map<Block, Buffer>, k: nat)
    requires k < CHUNK_SIZE
    ensures Replayed(memory, ws, buffers)[k] ==
            var p := Nearest(ws, buffers, k);
            if p.At? && p.block in buffers then buffers[p.block].data[k] else memory[k]
  {
    NearestIsWriter(ws, buffers, k);
    if ws != [] {
      ReplayedByte(memory, ws[1..], buffers, k);
    }
  }

  lemma {:induction false} CopiedByte(dst: Chunk, cs: seq<Conflict>, buffers: map<Block, Buffer>, merged: set<Block>, k: nat)
    requires k < CHUNK_SIZE && OnlyOnce(cs, k)
    ensures CopiedIn(dst, cs, buffers, merged)[k] ==
            var p := Holder(cs, k);
            if p.At? && p.block !in merged && p.block in buffers then buffers[p.block].data[k] else dst[k]
    decreases |cs|
  {
    if cs != [] {
      var next := if cs[0].block !in merged && cs[0].block in buffers
                  then Overlay(dst, buffers[cs[0].block].data, cs[0].mask) else dst;
      CopiedByte(next, cs[1..], buffers, merged, k);
    }
  }

  lemma {:induction false} NearestOfBoth(a: seq<Block>, b: seq<Block>, buffers: map<Block, Buffer>, k: nat)
    ensures Nearest(a + b, buffers, k) == if Nearest(a, buffers, k).At? then Nearest(a, buffers, k) else Nearest(b, buffers, k)
  {
    if a == [] {
      assert a + b == b;
    } else {
      assert (a + b)[1..] == a[1..] + b;
      NearestOfBoth(a[1..], b, buffers, k);
    }
  }

  /** When the merged writers are the oldest ones, and were merged oldest first, a read gets for each
      byte of its mask the latest value that the older writers gave it; other bytes stay. */
  lemma ReadAssembly(dst: Chunk, buffered: seq<Block>, settled: seq<Block>, buffers: map<Block, Buffer>, merged: set<Block>, mask: Mask, memory: Chunk, k: nat)
    requires k < CHUNK_SIZE
    requires forall b :: b in buffered ==> b !in merged
    requires forall b :: b in settled ==> b in merged
    ensures Assembled(dst, buffered + settled, buffers, merged, mask, Replayed(memory, settled, buffers))[k]
            == if k in mask then Replayed(memory, buffered + settled, buffers)[k] else dst[k]
  {
    var ws := buffered + settled;
    var cs := Conflicts(ws, buffers, mask);
    ConflictsAreNearest(ws, buffers, mask, k);
    CopiedByte(dst, cs, buffers, merged, k);
    NearestOfBoth(buffered, settled, buffers, k);
    NearestIsWriter(buffered, buffers, k);
    NearestIsWriter(settled, buffers, k);
    ReplayedByte(memory, ws, buffers, k);
    ReplayedByte(memory, settled, buffers, k);
  }

  // ---------- the merged blocks are the oldest ----------

  // The blocks from n on have been merged, and no others.
  ghost predicate MergedFrom(s: seq<Block>, merged: set<Block>, n: nat) {
    n <= |s| && (forall j :: 0 <= j < n ==> s[j] !in merged) && (forall j :: n <= j < |s| ==> s[j] in merged)
  }

  lemma {:induction false} ReplayedOn(memory: Chunk, a: seq<Block>, b: seq<Block>, buffers: map<Block, Buffer>)
    ensures Replayed(Replayed(memory, b, buffers), a, buffers) == Replayed(memory, a + b, buffers)
  {
    if a == [] {
      assert a + b == b;
    } else {
      assert (a + b)[1..] == a[1..] + b;
      ReplayedOn(memory, a[1..], b, buffers);
    }
  }

  // Blocks that have not been written have nothing to merge.
  ghost predicate OnlyWritersHaveBytes(s: seq<Block>, w: set<Block>, buffers: map<Block, Buffer>) {
    forall b :: b in s && b !in w ==> WrMask(buffers, b) == {}
  }

  lemma {:induction false} ReplayedWriters(memory: Chunk, s: seq<Block>, w: set<Block>, buffers: map<Block, Buffer>)
    requires OnlyWritersHaveBytes(s, w, buffers)
    ensures Replayed(memory, s, buffers) == Replayed(memory, Written(s, w), buffers)
  {
    if s != [] {
      ReplayedWriters(memory, s[1..], w, buffers);
    }
  }

  /** As long as the merged blocks are the oldest ones, and memory is what merging them oldest first has
      left, a read by an unmerged epoch gets the latest of the values of all older ones. */
  lemma ReadOfVersions(dst: Chunk, s: seq<Block>, w: set<Block>, pos: nat, n: nat, buffers: map<Block, Buffer>, merged: set<Block>,
                       mask: Mask, origin: Chunk, k: nat)
    requires pos <= n && MergedFrom(s, merged, n) && OnlyWritersHaveBytes(s, w, buffers) && k < CHUNK_SIZE
    ensures Assembled(dst, Written(s[pos..], w), buffers, merged, mask, Replayed(origin, s[n..], buffers))[k]
            == if k in mask then Replayed(origin, s[pos..], buffers)[k] else dst[k]
  {
    assert s[pos..] == s[pos..n] + s[n..];
    WrittenAppend(s[pos..n], s[n..], w);
    WrittenMembers(s[pos..n], w);
    WrittenMembers(s[n..], w);
    ReplayedWriters(origin, s[n..], w, buffers);
    ReplayedWriters(origin, s[pos..], w, buffers);
    ReadAssembly(dst, Written(s[pos..n], w), Written(s[n..], w), buffers, merged, mask, origin, k);
  }

  // ---------- merging ----------

  // Those behind the block at i, up to the merged ones, either may merge or are as new as the block.
  ghost predicate OthersAsNew(s: seq<Block>, clock: map<Block, int>, may: set<Block>, i: nat, e: nat)
    requires i < |s| && e <= |s|
  {
    forall j :: i < j < e && s[j] !in may ==> Clock(clock, s[j]) == Clock(clock, s[i])
  }

  // Where the merge of the block at i stands: from e on all have been merged, `done` of them now. `all`
  // are those that are to be merged, `settled` those that were before.
  ghost predicate MergingAt(s: seq<Block>, may: set<Block>, i: nat, e: nat, merged: set<Block>, done: seq<Block>,
                            all: seq<Block>, settled: seq<Block>) {
    && i <= e <= |s| && i < |s| && MergedFrom(s, merged, e) && s[e..] == done + settled
    && Written(s[i..e], may) + done == all
  }

  lemma MergingStarts(s: seq<Block>, may: set<Block>, i: nat, n: nat, merged: set<Block>)
    requires i <= n <= |s| && i < |s| && MergedFrom(s, merged, n)
    ensures MergingAt(s, may, i, n, merged, [], Written(s[i..n], may), s[n..])
  {
    assert Written(s[i..n], may) + [] == Written(s[i..n], may);
    assert [] + s[n..] == s[n..];
  }

  lemma MergingEnds(s: seq<Block>, may: set<Block>, i: nat, merged: set<Block>, done: seq<Block>, all: seq<Block>, settled: seq<Block>)
    requires MergingAt(s, may, i, i, merged, done, all, settled)
    ensures done == all && s[i] in merged && |s| - i == |done| + |settled|
  {
    assert s[i..i] == [] && [] + done == done;
  }

  lemma MergeOne(s: seq<Block>, may: set<Block>, i: nat, e: nat, merged: set<Block>, done: seq<Block>, all: seq<Block>, settled: seq<Block>)
    requires MergingAt(s, may, i, e, merged, done, all, settled) && Distinct(s) && i < e && s[e - 1] in may
    ensures MergingAt(s, may, i, e - 1, merged + {s[e - 1]}, [s[e - 1]] + done, all, settled)
  {
    var b := s[e - 1];
    assert s[e - 1..] == [b] + s[e..];
    assert s[i..e] == s[i..e - 1] + [b];
    WrittenAppend(s[i..e - 1], [b], may);
    assert Written([b], may) == [b];
    assert Written(s[i..e - 1], may) + [b] + done == Written(s[i..e - 1], may) + ([b] + done);
  }

  lemma MoreMerged(merged: set<Block>, done: seq<Block>, b: Block)
    ensures merged + (set x | x in done) + {b} == merged + (set x | x in [b] + done)
  {
  }

  lemma ForwardAt(s: seq<Block>, p: nat, m: nat, j: nat)
    requires p <= m < |s| && j < |s|
    ensures Forward(s, p, m)[j] == if j < p || j > m then s[j] else if j == p then s[m] else s[j - 1]
  {
    var a, x, b, c := s[..p], [s[m]], s[p..m], s[m + 1..];
    assert Forward(s, p, m) == a + (x + (b + c));
    if p < j <= m {
      assert b[j - p - 1] == s[j - 1];
    }
  }

  lemma ForwardSlices(s: seq<Block>, p: nat, i: nat, e: nat)
    requires p <= i < e - 1 < |s|
    ensures Forward(s, p, e - 1)[e..] == s[e..] && Forward(s, p, e - 1)[i + 1..e] == s[i..e - 1]
  {
    forall j | 0 <= j < |s|
      ensures Forward(s, p, e - 1)[j] == if j < p || j > e - 1 then s[j] else if j == p then s[e - 1] else s[j - 1]
    {
      ForwardAt(s, p, e - 1, j);
    }
  }

  // One that may not merge moves in front of the block.
  lemma SkipOne(s: seq<Block>, may: set<Block>, i: nat, e: nat, merged: set<Block>, done: seq<Block>, all: seq<Block>, settled: seq<Block>,
                p: nat)
    requires MergingAt(s, may, i, e, merged, done, all, settled) && p <= i < e - 1 && s[e - 1] !in may
    ensures MergingAt(Forward(s, p, e - 1), may, i + 1, e, merged, done, all, settled)
    ensures Forward(s, p, e - 1)[i + 1] == s[i]
  {
    var t := Forward(s, p, e - 1);
    ForwardSlices(s, p, i, e);
    assert s[i..e] == s[i..e - 1] + [s[e - 1]];
    WrittenAppend(s[i..e - 1], [s[e - 1]], may);
    assert Written([s[e - 1]], may) == [];
    assert Written(s[i..e - 1], may) + [] == Written(s[i..e - 1], may);
    forall j | 0 <= j < |s|
      ensures j < e ==> t[j] !in merged
      ensures j >= e ==> t[j] == s[j]
    {
      ForwardAt(s, p, e - 1, j);
    }
    ForwardAt(s, p, e - 1, i + 1);
  }

  lemma SkipKeepsAsNew(s: seq<Block>, clock: map<Block, int>, may: set<Block>, i: nat, e: nat, p: nat)
    requires i < |s| && e <= |s| && OthersAsNew(s, clock, may, i, e) && p <= i < e - 1
    ensures OthersAsNew(Forward(s, p, e - 1), clock, may, i + 1, e)
  {
    var t := Forward(s, p, e - 1);
    assert forall j :: i < j < e ==> t[j] == s[j - 1];
  }

  lemma SortedIsAhead(s: seq<Block>, clock: map<Block, int>, i: nat)
    requires Sorted(s, clock) && i < |s|
    ensures Ahead(s, clock, i)
  {
    var t := s[..i] + s[i + 1..];
    assert forall j :: 0 <= j < |t| ==> t[j] == s[if j < i then j else j + 1];
  }

  lemma TargetOfEqual(s: seq<Block>, clock: map<Block, int>, i: nat, j: nat)
    requires Sorted(s, clock) && i < j < |s| && Clock(clock, s[i]) == Clock(clock, s[j])
    ensures Target(s, clock, j) <= i
  {
    SortedIsAhead(s, clock, j);
    TargetSplits(s, clock, j, i);
  }

  // ---------- the two searches ----------

  function Reversed(s: seq<Block>): seq<Block> {
    if s == [] then [] else [s[|s| - 1]] + Reversed(s[..|s| - 1])
  }

  // One step of a search.
  lemma SearchStep(ws: seq<Block>, buffers: map<Block, Buffer>, merged: set<Block>, mask: Mask)
    requires ws != []
    ensures var conf: Mask, rest: Mask := WrMask(buffers, ws[0]) * mask, mask - WrMask(buffers, ws[0]) * mask;
      FromMemory(ws, buffers, merged, mask) == FromMemory(ws[1..], buffers, merged, rest) + if ws[0] in merged then conf else {}
  {
  }

  // What the search has collected so far, and what is still to come.
  ghost function Collected(ws: seq<Block>, buffers: map<Block, Buffer>, mask: Mask, found: seq<Conflict>): seq<Conflict> {
    Conflicts(ws, buffers, mask) + found
  }

  lemma CollectedStep(ws: seq<Block>, buffers: map<Block, Buffer>, mask: Mask, found: seq<Conflict>)
    requires ws != []
    ensures var conf: Mask, rest: Mask := WrMask(buffers, ws[0]) * mask, mask - WrMask(buffers, ws[0]) * mask;
      Collected(ws, buffers, mask, found)
      == Collected(ws[1..], buffers, rest, if conf != {} then [Conflict(ws[0], conf)] + found else found)
  {
  }

  lemma CollectedAll(ws: seq<Block>, buffers: map<Block, Buffer>, found: seq<Conflict>)
    ensures Collected(ws, buffers, {}, found) == found
    ensures forall mask: Mask :: Collected([], buffers, mask, found) == found
  {
    NothingLeft(ws, buffers);
  }

  lemma NothingFromMemory(ws: seq<Block>, buffers: map<Block, Buffer>, merged: set<Block>, mask: Mask)
    ensures FromMemory([], buffers, merged, mask) == mask
    ensures FromMemory(ws, buffers, merged, {}) == {}
  {
  }

  // ---------- what a search has found ----------

  predicate Wrote(b: Block, w: set<Block>, buffers: map<Block, Buffer>, k: nat) {
    b in w && b in buffers && k in buffers[b].wr
  }

  // p is the first block of s that wrote byte k.
  ghost predicate FoundFirst(p: Place, s: seq<Block>, w: set<Block>, buffers: map<Block, Buffer>, k: nat) {
    if p == End then forall j :: 0 <= j < |s| ==> !Wrote(s[j], w, buffers, k)
    else exists j :: 0 <= j < |s| && s[j] == p.block && Wrote(s[j], w, buffers, k)
                     && forall m :: 0 <= m < j ==> !Wrote(s[m], w, buffers, k)
  }

  // p is the last block of s that wrote byte k.
  ghost predicate FoundLast(p: Place, s: seq<Block>, w: set<Block>, buffers: map<Block, Buffer>, k: nat) {
    if p == End then forall j :: 0 <= j < |s| ==> !Wrote(s[j], w, buffers, k)
    else exists j :: 0 <= j < |s| && s[j] == p.block && Wrote(s[j], w, buffers, k)
                     && forall m :: j < m < |s| ==> !Wrote(s[m], w, buffers, k)
  }

  lemma {:induction false} NearestIsFirst(s: seq<Block>, w: set<Block>, buffers: map<Block, Buffer>, k: nat)
    ensures FoundFirst(Nearest(Written(s, w), buffers, k), s, w, buffers, k)
  {
    if s != [] && !Wrote(s[0], w, buffers, k) {
      NearestIsFirst(s[1..], w, buffers, k);
      var p := Nearest(Written(s, w), buffers, k);
      assert p == Nearest(Written(s[1..], w), buffers, k);
      if p.At? {
        var j :| 0 <= j < |s[1..]| && s[1..][j] == p.block && Wrote(s[1..][j], w, buffers, k)
                 && forall m :: 0 <= m < j ==> !Wrote(s[1..][m], w, buffers, k);
        assert s[j + 1] == p.block;
        assert forall m :: 0 < m < j + 1 ==> s[m] == s[1..][m - 1];
      } else {
        assert forall m :: 0 < m < |s| ==> s[m] == s[1..][m - 1];
      }
    }
  }

  lemma ReversedWritten(f: seq<Block>, x: Block, w: set<Block>)
    ensures Reversed(Written(f + [x], w)) == (if x in w then [x] else []) + Reversed(Written(f, w))
  {
    var ws := Written(f, w);
    WrittenAppend(f, [x], w);
    if x in w {
      assert Written([x], w) == [x];
      assert (ws + [x])[..|ws|] == ws;
    } else {
      assert Written([x], w) == [] && ws + [] == ws;
    }
  }

  lemma {:induction false} NearestIsLast(s: seq<Block>, w: set<Block>, buffers: map<Block, Buffer>, k: nat)
    ensures FoundLast(Nearest(Reversed(Written(s, w)), buffers, k), s, w, buffers, k)
  {
    if s != [] {
      var f, x := s[..|s| - 1], s[|s| - 1];
      assert s == f + [x];
      ReversedWritten(f, x, w);
      NearestIsLast(f, w, buffers, k);
      NearestIn(x, Reversed(Written(f, w)), w, buffers, k);
      OneMoreBlock(Nearest(Reversed(Written(f, w)), buffers, k), f, x, w, buffers, k);
    }
  }

  lemma NearestIn(x: Block, ws: seq<Block>, w: set<Block>, buffers: map<Block, Buffer>, k: nat)
    ensures Nearest((if x in w then [x] else []) + ws, buffers, k) == if Wrote(x, w, buffers, k) then At(x) else Nearest(ws, buffers, k)
  {
    if x in w {
      assert ([x] + ws)[1..] == ws;
    } else {
      assert [] + ws == ws;
    }
  }

  lemma OneMoreBlock(p: Place, f: seq<Block>, x: Block, w: set<Block>, buffers: map<Block, Buffer>, k: nat)
    requires FoundLast(p, f, w, buffers, k)
    ensures FoundLast(if Wrote(x, w, buffers, k) then At(x) else p, f + [x], w, buffers, k)
  {
    var s := f + [x];
    assert s[|f|] == x && forall j :: 0 <= j < |f| ==> s[j] == f[j];
    if !Wrote(x, w, buffers, k) && p != End {
      var j :| 0 <= j < |f| && f[j] == p.block && Wrote(f[j], w, buffers, k) && forall m :: j < m < |f| ==> !Wrote(f[m], w, buffers, k);
      assert s[j] == p.block;
    }
  }

  /** The conflicts with the older blocks share out the mask: each byte is held once, by the nearest of them
      that wrote it. */
  lemma OlderConflicts(s: seq<Block>, w: set<Block>, buffers: map<Block, Buffer>, mask: Mask, k: nat)
    ensures var cs := Conflicts(Written(s, w), buffers, mask);
      OnlyOnce(cs, k) && if k in mask then FoundFirst(Holder(cs, k), s, w, buffers, k) else Holder(cs, k) == End
  {
    ConflictsAreNearest(Written(s, w), buffers, mask, k);
    NearestIsFirst(s, w, buffers, k);
  }

  /** So do the conflicts with the younger blocks, which stand in front with the nearest one last. */
  lemma YoungerConflicts(s: seq<Block>, w: set<Block>, buffers: map<Block, Buffer>, mask: Mask, k: nat)
    ensures var cs := Conflicts(Reversed(Written(s, w)), buffers, mask);
      OnlyOnce(cs, k) && if k in mask then FoundLast(Holder(cs, k), s, w, buffers, k) else Holder(cs, k) == End
  {
    ConflictsAreNearest(Reversed(Written(s, w)), buffers, mask, k);
    NearestIsLast(s, w, buffers, k);
  }

  // Each byte of the mask is held once, by the first block of s that wrote it or by the last one.
  ghost predicate SharedOut(cs: seq<Conflict>, mask: Mask, s: seq<Block>, first: bool, w: set<Block>, buffers: map<Block, Buffer>) {
    forall k: nat :: k < CHUNK_SIZE ==>
      && OnlyOnce(cs, k)
      && if k !in mask then Holder(cs, k) == End
         else if first then FoundFirst(Holder(cs, k), s, w, buffers, k) else FoundLast(Holder(cs, k), s, w, buffers, k)
  }

  lemma OlderShared(s: seq<Block>, w: set<Block>, buffers: map<Block, Buffer>, merged: set<Block>, mask: Mask)
    ensures var cs := Conflicts(Written(s, w), buffers, mask);
      && SharedOut(cs, mask, s, true, w, buffers)
      && forall k :: k in FromMemory(Written(s, w), buffers, merged, mask)
                     <==> k in mask && var p := Holder(cs, k); p == End || p.block in merged
  {
    forall k: nat
      ensures var cs := Conflicts(Written(s, w), buffers, mask);
        OnlyOnce(cs, k) && Holder(cs, k) == if k in mask then Nearest(Written(s, w), buffers, k) else End
      ensures var cs := Conflicts(Written(s, w), buffers, mask);
        if k in mask then FoundFirst(Holder(cs, k), s, w, buffers, k) else Holder(cs, k) == End
    {
      ConflictsAreNearest(Written(s, w), buffers, mask, k);
      OlderConflicts(s, w, buffers, mask, k);
    }
  }

  lemma YoungerShared(s: seq<Block>, w: set<Block>, buffers: map<Block, Buffer>, mask: Mask)
    ensures SharedOut(Conflicts(Reversed(Written(s, w)), buffers, mask), mask, s, false, w, buffers)
  {
    forall k: nat
      ensures var cs := Conflicts(Reversed(Written(s, w)), buffers, mask);
        OnlyOnce(cs, k) && if k in mask then FoundLast(Holder(cs, k), s, w, buffers, k) else Holder(cs, k) == End
    {
      YoungerConflicts(s, w, buffers, mask, k);
    }
  }

  // y stands somewhere behind x.
  ghost predicate StandsBehind(s: seq<Block>, x: Block, y: Block) {
    exists m, n :: 0 <= m < n < |s| && s[m] == x && s[n] == y
  }

  // No conflict is empty, and those with farther blocks come first.
  ghost predicate FarthestFirst(cs: seq<Conflict>, s: seq<Block>, first: bool) {
    && (forall i :: 0 <= i < |cs| ==> cs[i].mask != {})
    && forall i, j :: 0 <= i < j < |cs| ==>
         if first then StandsBehind(s, cs[j].block, cs[i].block) else StandsBehind(s, cs[i].block, cs[j].block)
  }

  lemma BehindAt(s: seq<Block>, m: nat, n: nat)
    requires m < n < |s|
    ensures StandsBehind(s, s[m], s[n])
  {
  }

  lemma BehindMore(s: seq<Block>, x: Block, y: Block)
    requires s != [] && StandsBehind(s[1..], x, y)
    ensures StandsBehind(s, x, y)
  {
    var m, n :| 0 <= m < n < |s[1..]| && s[1..][m] == x && s[1..][n] == y;
    BehindAt(s, m + 1, n + 1);
  }

  lemma {:induction false} ConflictWith(ws: seq<Block>, buffers: map<Block, Buffer>, mask: Mask, i: nat)
    requires i < |Conflicts(ws, buffers, mask)|
    ensures Conflicts(ws, buffers, mask)[i].mask != {} && Conflicts(ws, buffers, mask)[i].block in ws
  {
    var rest: Mask := mask - WrMask(buffers, ws[0]) * mask;
    if i < |Conflicts(ws[1..], buffers, rest)| {
      ConflictWith(ws[1..], buffers, rest, i);
    }
  }

  lemma {:induction false} ConflictsOrder(ws: seq<Block>, buffers: map<Block, Buffer>, mask: Mask, i: nat, j: nat)
    requires i < j < |Conflicts(ws, buffers, mask)|
    ensures var cs := Conflicts(ws, buffers, mask); StandsBehind(ws, cs[j].block, cs[i].block)
  {
    var rest: Mask := mask - WrMask(buffers, ws[0]) * mask;
    var cs := Conflicts(ws[1..], buffers, rest);
    if j < |cs| {
      ConflictsOrder(ws[1..], buffers, rest, i, j);
      BehindMore(ws, cs[j].block, cs[i].block);
    } else {
      ConflictWith(ws[1..], buffers, rest, i);
      var n :| 0 <= n < |ws[1..]| && ws[1..][n] == cs[i].block;
      BehindAt(ws, 0, n + 1);
    }
  }

  lemma {:induction false} WrittenBehind(s: seq<Block>, w: set<Block>, x: Block, y: Block)
    requires StandsBehind(Written(s, w), x, y)
    ensures StandsBehind(s, x, y)
  {
    var ws := Written(s, w);
    var m, n :| 0 <= m < n < |ws| && ws[m] == x && ws[n] == y;
    if s[0] in w && m == 0 {
      assert ws[n] == Written(s[1..], w)[n - 1];
      WrittenFrom(s[1..], w);
      assert y in s[1..];
      var k :| 0 <= k < |s[1..]| && s[1..][k] == y;
      BehindAt(s, 0, k + 1);
    } else {
      var d := if s[0] in w then 1 else 0;
      assert ws[m] == Written(s[1..], w)[m - d] && ws[n] == Written(s[1..], w)[n - d];
      BehindAt(Written(s[1..], w), m - d, n - d);
      WrittenBehind(s[1..], w, x, y);
      BehindMore(s, x, y);
    }
  }

  lemma {:induction false} WrittenFrom(s: seq<Block>, w: set<Block>)
    ensures forall x :: x in Written(s, w) ==> x in s
  {
    if s != [] {
      WrittenFrom(s[1..], w);
    }
  }

  lemma {:induction false} ReversedAt(s: seq<Block>, k: nat)
    requires k < |s|
    ensures |Reversed(s)| == |s| && Reversed(s)[k] == s[|s| - 1 - k]
  {
    if |s| > 1 {
      ReversedAt(s[..|s| - 1], if k == 0 then 0 else k - 1);
    }
  }

  lemma ReversedBehind(s: seq<Block>, x: Block, y: Block)
    requires StandsBehind(Reversed(s), x, y)
    ensures StandsBehind(s, y, x)
  {
    if s != [] {
      ReversedAt(s, 0);
      var r := Reversed(s);
      var m, n :| 0 <= m < n < |r| && r[m] == x && r[n] == y;
      ReversedAt(s, m);
      ReversedAt(s, n);
      BehindAt(s, |s| - 1 - n, |s| - 1 - m);
    }
  }

  lemma OlderOrdered(s: seq<Block>, w: set<Block>, buffers: map<Block, Buffer>, mask: Mask)
    ensures FarthestFirst(Conflicts(Written(s, w), buffers, mask), s, true)
  {
    var cs := Conflicts(Written(s, w), buffers, mask);
    forall i | 0 <= i < |cs|
      ensures cs[i].mask != {}
    {
      ConflictWith(Written(s, w), buffers, mask, i);
    }
    forall i, j | 0 <= i < j < |cs|
      ensures StandsBehind(s, cs[j].block, cs[i].block)
    {
      ConflictsOrder(Written(s, w), buffers, mask, i, j);
      WrittenBehind(s, w, cs[j].block, cs[i].block);
    }
  }

  lemma YoungerOrdered(s: seq<Block>, w: set<Block>, buffers: map<Block, Buffer>, mask: Mask)
    ensures FarthestFirst(Conflicts(Reversed(Written(s, w)), buffers, mask), s, false)
  {
    var ws := Reversed(Written(s, w));
    var cs := Conflicts(ws, buffers, mask);
    forall i | 0 <= i < |cs|
      ensures cs[i].mask != {}
    {
      ConflictWith(ws, buffers, mask, i);
    }
    forall i, j | 0 <= i < j < |cs|
      ensures StandsBehind(s, cs[i].block, cs[j].block)
    {
      ConflictsOrder(ws, buffers, mask, i, j);
      ReversedBehind(Written(s, w), cs[j].block, cs[i].block);
      WrittenBehind(s, w, cs[i].block, cs[j].block);
    }
  }

  // The search over the older writers.
  method SearchBefore(ws: seq<Block>, buffers: map<Block, Buffer>, merged: set<Block>, beforeMask: Mask)
    returns (memReadMask: Mask, writesBefore: seq<Conflict>)
    ensures writesBefore == Conflicts(ws, buffers, beforeMask)
    ensures memReadMask == FromMemory(ws, buffers, merged, beforeMask)
  {
    var mask: Mask := beforeMask;
    var j := 0;
    memReadMask, writesBefore := beforeMask, [];
    assert ws[0..] == ws;
    while j < |ws| && mask != {}
      invariant j <= |ws| && mask <= memReadMask
      invariant Conflicts(ws, buffers, beforeMask) == Collected(ws[j..], buffers, mask, writesBefore)
      invariant FromMemory(ws, buffers, merged, beforeMask) == (memReadMask - mask) + FromMemory(ws[j..], buffers, merged, mask)
    {
      SearchStep(ws[j..], buffers, merged, mask);
      CollectedStep(ws[j..], buffers, mask, writesBefore);
      assert ws[j..][1..] == ws[j + 1..];
      var conf: Mask := WrMask(buffers, ws[j]) * mask;
      if conf != {} {
        writesBefore := [Conflict(ws[j], conf)] + writesBefore;
        if ws[j] !in merged {
          memReadMask := memReadMask - conf;
        }
      }
      mask := mask - conf;
      j := j + 1;
    }
    CollectedAll(ws[j..], buffers, writesBefore);
    NothingFromMemory(ws[j..], buffers, merged, mask);
  }

  // The search over the younger writers, which stand in the list from the newest on.
  method SearchAfter(ws: seq<Block>, buffers: map<Block, Buffer>, afterMask: Mask) returns (writesAfter: seq<Conflict>)
    ensures writesAfter == Conflicts(Reversed(ws), buffers, afterMask)
  {
    var mask: Mask := afterMask;
    var j := |ws|;
    writesAfter := [];
    assert ws[..j] == ws;
    while j > 0 && mask != {}
      invariant 0 <= j <= |ws|
      invariant Conflicts(Reversed(ws), buffers, afterMask) == Collected(Reversed(ws[..j]), buffers, mask, writesAfter)
    {
      CollectedStep(Reversed(ws[..j]), buffers, mask, writesAfter);
      j := j - 1;
      assert ws[..j + 1][..j] == ws[..j];
      var conf: Mask := WrMask(buffers, ws[j]) * mask;
      if conf != {} {
        writesAfter := [Conflict(ws[j], conf)] + writesAfter;
      }
      mask := mask - conf;
    }
    CollectedAll(Reversed(ws[..j]), buffers, writesAfter);
  }
}
