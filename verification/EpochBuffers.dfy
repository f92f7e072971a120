/**
 The buffered bytes of one version of a block, chunk by chunk: which bytes it read from before
 itself, which it wrote, and their values; appending a successor's buffer, and merging to memory.
 */
module EpochBuffers {
  import opened Chunks

  // One chunk of a block. A byte of `data` is valid if it is in either mask.
  datatype Buffer = Buffer(xp: Mask, wr: Mask, data: Chunk)

  // ---------- what the accesses of an epoch leave in its buffer ----------

  datatype Access = Read(at: nat) | Write(at: nat, value: Byte)

  ghost predicate InChunk(ops: seq<Access>) {
    forall j :: 0 <= j < |ops| ==> ops[j].at < CHUNK_SIZE
  }

  // The first access to a byte, if it is a read, copies the byte in from `before`.
  function Performed(b: Buffer, op: Access, before: Chunk): Buffer
    requires op.at < CHUNK_SIZE
  {
    match op
    case Read(k) =>
      if k in b.wr || k in b.xp then b else b.(xp := b.xp + {k}, data := b.data[k := before[k]])
    case Write(k, v) => b.(wr := b.wr + {k}, data := b.data[k := v])
  }

  function Run(ops: seq<Access>, blank: Chunk, before: Chunk): Buffer
    requires InChunk(ops)
  {
    if ops == [] then Buffer({}, {}, blank)
    else Performed(Run(ops[..|ops| - 1], blank, before), ops[|ops| - 1], before)
  }

  // ---------- appending and merging ----------

  function Appended(a: Buffer, succ: Buffer): Buffer {
    var addXp: Mask := succ.xp - a.wr - a.xp;
    Buffer(a.xp + addXp, a.wr + succ.wr, Overlay(a.data, succ.data, addXp + succ.wr))
  }

  function Merged(memory: Chunk, b: Buffer): Chunk {
    Overlay(memory, b.data, b.wr)
  }

  // Equal as far as the masks say that bytes are valid.
  ghost predicate Same(a: Buffer, b: Buffer) {
    && a.xp == b.xp && a.wr == b.wr
    && forall k :: k in a.xp || k in a.wr ==> a.data[k] == b.data[k]
  }

  // Bytes that were read but not written hold what was there before.
  ghost predicate Faithful(b: Buffer, before: Chunk) {
    forall k :: k in b.xp && k !in b.wr ==> b.data[k] == before[k]
  }

  lemma {:induction false} RunIsFaithful(ops: seq<Access>, blank: Chunk, before: Chunk)
    requires InChunk(ops)
    ensures Faithful(Run(ops, blank, before), before)
  {
    if ops != [] {
      RunIsFaithful(ops[..|ops| - 1], blank, before);
    }
  }

  /** Merging the appended buffer is merging the older one and then its successor. */
  lemma AppendThenMerge(memory: Chunk, a: Buffer, succ: Buffer)
    ensures Merged(memory, Appended(a, succ)) == Merged(Merged(memory, a), succ)
  {
    var r, t := Merged(memory, Appended(a, succ)), Merged(Merged(memory, a), succ);
    assert forall k: nat :: k < CHUNK_SIZE ==> r[k] == t[k];
  }

  /** The appended buffer is the one that an epoch making all the accesses in turn would have, when
      the successor started from what the older block left behind. In particular its exposed mask
      holds exactly the bytes read from before both blocks. */
  lemma {:induction false} AppendIsConcatenation(first: seq<Access>, second: seq<Access>, blank: Chunk, blank': Chunk, before: Chunk)
    requires InChunk(first) && InChunk(second)
    ensures InChunk(first + second)
    ensures var a := Run(first, blank, before);
            Same(Appended(a, Run(second, blank', Merged(before, a))), Run(first + second, blank, before))
  {
    var a := Run(first, blank, before);
    var view := Merged(before, a);
    if second == [] {
      assert first + second == first;
      assert Same(Appended(a, Buffer({}, {}, blank')), a);
    } else {
      var n := |second| - 1;
      var front, op := second[..n], second[n];
      AppendIsConcatenation(first, front, blank, blank', before);
      RunIsFaithful(first, blank, before);
      AppendedStep(a, Run(front, blank', view), Run(first + front, blank, before), op, before);
      assert first + second == (first + front) + [op];
      RunStep(first + front, op, blank, before);
      assert Run(second, blank', view) == Performed(Run(front, blank', view), op, view);
    }
  }

  lemma RunStep(ops: seq<Access>, op: Access, blank: Chunk, before: Chunk)
    requires InChunk(ops) && op.at < CHUNK_SIZE
    ensures InChunk(ops + [op])
    ensures Run(ops + [op], blank, before) == Performed(Run(ops, blank, before), op, before)
  {
    assert (ops + [op])[..|ops|] == ops;
  }

  lemma AppendedStep(a: Buffer, b: Buffer, both: Buffer, op: Access, before: Chunk)
    requires op.at < CHUNK_SIZE && Faithful(a, before) && Same(Appended(a, b), both)
    ensures Same(Appended(a, Performed(b, op, Merged(before, a))), Performed(both, op, before))
  {
    var l, r := Appended(a, Performed(b, op, Merged(before, a))), Performed(both, op, before);
    var was := Appended(a, b);
    match op
    case Read(k) =>
      assert l.xp == r.xp && l.wr == r.wr;
      assert forall i: nat :: i < CHUNK_SIZE && i != k ==> l.data[i] == was.data[i] && r.data[i] == both.data[i];
    case Write(k, v) =>
      assert l.xp == r.xp && l.wr == r.wr;
      assert forall i: nat :: i < CHUNK_SIZE && i != k ==> l.data[i] == was.data[i] && r.data[i] == both.data[i];
  }

  /** Appending in either grouping gives the same buffer. */
  lemma AppendIsAssociative(a: Buffer, b: Buffer, c: Buffer)
    ensures Same(Appended(Appended(a, b), c), Appended(a, Appended(b, c)))
  {
    var l, r := Appended(Appended(a, b), c), Appended(a, Appended(b, c));
    assert l.xp == r.xp && l.wr == r.wr;
  }

  // ---------- the operations on whole blocks ----------

  method MaskedChunkCopy(src: Chunk, dst: Chunk, cpMask: Mask) returns (r: Chunk)
    ensures r == Overlay(dst, src, cpMask)
  {
    var out: seq<Byte> := dst;
    for i := 0 to CHUNK_SIZE
      invariant |out| == CHUNK_SIZE
      invariant forall k :: 0 <= k < CHUNK_SIZE ==> out[k] == if k in cpMask && k < i then src[k] else dst[k]
    {
      if i in cpMask {
        out := out[i := src[i]];
      }
    }
    r := out;
  }

  // The successor reads bytes from before both.
  predicate Consumes(mine: Buffer, succ: Buffer) {
    succ.xp - mine.wr - mine.xp != {}
  }

  class BufferBlock {
    var xpMask: seq<Mask>
    var wrMask: seq<Mask>
    var wkData: seq<Chunk>
    var isConsumer: bool
    var isProducer: bool
    var isMerged: bool

    ghost predicate Valid()
      reads this
    {
      |xpMask| == |wrMask| == |wkData|
    }

    ghost function Chunks(): (r: seq<Buffer>)
      requires Valid()
      reads this
      ensures |r| == |wkData|
    {
      seq(|wkData|, i requires 0 <= i < |wkData| reads this requires Valid() => Buffer(xpMask[i], wrMask[i], wkData[i]))
    }

    // One turn of the loop over the chunks.
    method AppendChunk(i: nat, succ: Buffer)
      requires Valid() && i < |wkData|
      modifies this
      ensures Valid() && Chunks() == old(Chunks())[i := Appended(old(Chunks())[i], succ)]
      ensures isConsumer == (old(isConsumer) || succ.xp - old(wrMask)[i] - old(xpMask)[i] != {})
      ensures isProducer == (old(isProducer) || succ.wr != {})
      ensures isMerged == old(isMerged)
    {
      var addXp: Mask := succ.xp - wrMask[i] - xpMask[i];
      var copyMask: Mask := addXp + succ.wr;
      if addXp != {} {
        xpMask := xpMask[i := xpMask[i] + addXp];
        isConsumer := true;
      }
      if succ.wr != {} {
        wrMask := wrMask[i := wrMask[i] + succ.wr];
        isProducer := true;
      }
      if copyMask != {} {
        var c := MaskedChunkCopy(succ.data, wkData[i], copyMask);
        wkData := wkData[i := c];
      }
      assert xpMask[i] == old(xpMask)[i] + addXp && wrMask[i] == old(wrMask)[i] + succ.wr;
      assert wkData[i] == Overlay(old(wkData)[i], succ.data, copyMask);
    }

    // Takes over the successor's block.
    method Append(succBlock: BufferBlock)
      requires Valid() && succBlock.Valid() && |succBlock.wkData| == |wkData| && succBlock != this
      modifies this
      ensures Valid() && |wkData| == old(|wkData|) && isMerged == old(isMerged)
      ensures forall i :: 0 <= i < |wkData| ==> Chunks()[i] == Appended(old(Chunks())[i], old(succBlock.Chunks())[i])
      ensures isProducer <==> old(isProducer) || exists i :: 0 <= i < |wkData| && succBlock.wrMask[i] != {}
      ensures isConsumer <==> old(isConsumer) || exists i :: 0 <= i < |wkData| && Consumes(old(Chunks())[i], old(succBlock.Chunks())[i])
    {
      ghost var mine := Chunks();
      ghost var theirs := succBlock.Chunks();
      for i := 0 to |wkData|
        invariant Valid() && |wkData| == |mine| && isMerged == old(isMerged)
        invariant succBlock.Valid() && succBlock.Chunks() == theirs && succBlock.wrMask == old(succBlock.wrMask)
        invariant forall k :: 0 <= k < i ==> Chunks()[k] == Appended(mine[k], theirs[k])
        invariant forall k :: i <= k < |mine| ==> Chunks()[k] == mine[k]
        invariant isConsumer <==> old(isConsumer) || exists k :: 0 <= k < i && Consumes(mine[k], theirs[k])
        invariant isProducer <==> old(isProducer) || exists k :: 0 <= k < i && succBlock.wrMask[k] != {}
      {
        AppendChunk(i, Buffer(succBlock.xpMask[i], succBlock.wrMask[i], succBlock.wkData[i]));
      }
    }

    // Invalidates what was written.
    method Clean()
      requires Valid()
      modifies this`xpMask, this`wrMask
      ensures Valid() && wkData == old(wkData)
      ensures forall i :: 0 <= i < |wkData| ==> xpMask[i] == old(xpMask)[i] - old(wrMask)[i] && wrMask[i] == {}
    {
      for i := 0 to |wkData|
        invariant Valid()
        invariant forall k :: 0 <= k < i ==> xpMask[k] == old(xpMask)[k] - old(wrMask)[k] && wrMask[k] == {}
        invariant forall k :: i <= k < |wkData| ==> xpMask[k] == old(xpMask)[k] && wrMask[k] == old(wrMask)[k]
      {
        xpMask := xpMask[i := xpMask[i] - wrMask[i]];
        wrMask := wrMask[i := {}];
      }
    }

    // The new contents of memory at the block's address.
    method Merge(memory: seq<Chunk>) returns (r: seq<Chunk>)
      requires Valid() && |memory| == |wkData|
      modifies this`isMerged
      ensures isMerged && |r| == |memory|
      ensures forall i :: 0 <= i < |r| ==> r[i] == Merged(memory[i], old(Chunks())[i])
    {
      r := memory;
      for i := 0 to |memory|
        invariant |r| == |memory|
        invariant forall k :: 0 <= k < i ==> r[k] == Merged(memory[k], Chunks()[k])
        invariant forall k :: i <= k < |memory| ==> r[k] == memory[k]
      {
        if wrMask[i] != {} {
          var c := MaskedChunkCopy(wkData[i], r[i], wrMask[i]);
          r := r[i := c];
        }
      }
      isMerged := true;
    }
  }
}
