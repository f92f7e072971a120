/**
 Memory chunks of eight bytes and the byte masks of accesses to them. A mask is modelled as the
 set of byte offsets whose bit is set (offset 0 is the most significant mask bit, the lowest
 address), so the source's `&`, `|` and `& ~` are `*`, `+` and `-`, and a left shift renumbers
 the offsets.
 */
module Chunks {

  type Byte = b: int | 0 <= b < 256

  const CHUNK_SIZE: nat := 8

  type Chunk = s: seq<Byte> | |s| == CHUNK_SIZE witness [0, 0, 0, 0, 0, 0, 0, 0]

  type Mask = m: set<nat> | forall i :: i in m ==> i < CHUNK_SIZE

  const FULL_MASK: Mask := {0, 1, 2, 3, 4, 5, 6, 7}

  // The chunk that takes the bytes of src at the masked offsets and those of dst elsewhere.
  function Overlay(dst: Chunk, src: Chunk, mask: Mask): (r: Chunk)
    ensures forall i: nat | i < CHUNK_SIZE :: r[i] == if i in mask then src[i] else dst[i]
  {
    seq(CHUNK_SIZE, i requires 0 <= i < CHUNK_SIZE => if i in mask then src[i] else dst[i])
  }

  // The four mask bits (0xF0) that a shift has brought to the top when it stands at offset `at`.
  function WordAt(at: nat): (r: set<nat>)
    ensures forall i :: i in r <==> at <= i < at + 4
  {
    {at, at + 1, at + 2, at + 3}
  }

  // The mask shifted left until offset `at` is on top. Offsets stay absolute, so a shift by k is
  // the loss of the k leading offsets.
  function From(mask: Mask, at: nat): (r: Mask)
    ensures forall i :: i in r <==> i in mask && at <= i
  {
    set i | i in mask && at <= i
  }

  /** The branch of the copy loop taken at offset `at`: how many bytes it advances over (four
      where the leading mask bits agree, otherwise one) and whether it stores them. */
  method Branch(rbitmask: Mask, at: nat) returns (step: nat, store: bool)
    requires rbitmask != {} && rbitmask == From(rbitmask, at)
    ensures 0 < step && at + step <= CHUNK_SIZE
    ensures forall i :: at <= i < at + step ==> (i in rbitmask <==> store)
    ensures step == 4 <==> WordAt(at) <= rbitmask || WordAt(at) !! rbitmask
  {
    ghost var k :| k in rbitmask;
    assert at <= k < CHUNK_SIZE;
    if WordAt(at) <= rbitmask {
      assert at + 3 in rbitmask;
      step, store := 4, true;
    } else if WordAt(at) !! rbitmask {
      assert k !in WordAt(at);
      step, store := 4, false;
    } else {
      step, store := 1, at in rbitmask;
    }
  }

  // A store of `step` bytes at offset `at`.
  function StoreBytes(dst: Chunk, src: Chunk, at: nat, step: nat): (r: Chunk)
    requires at + step <= CHUNK_SIZE
    ensures forall i: nat | i < CHUNK_SIZE :: r[i] == if at <= i < at + step then src[i] else dst[i]
    ensures r == dst <==> dst[at..at + step] == src[at..at + step]
  {
    dst[..at] + src[at..at + step] + dst[at + step..]
  }

  /** Copies the masked bytes of src over dst and reports whether any byte of dst changed. */
  method ChunkCopy(dst: Chunk, src: Chunk, mask: Mask) returns (r: Chunk, copied: bool)
    ensures r == Overlay(dst, src, mask)
    ensures copied <==> r != dst
  {
    var rbitmask := mask;
    var at := 0;
    r, copied := dst, false;
    while rbitmask != {}
      invariant at <= CHUNK_SIZE
      invariant rbitmask == From(mask, at)
      invariant r == Overlay(dst, src, mask - From(mask, at))
      invariant copied <==> r != dst
      decreases CHUNK_SIZE - at
    {
      var step, store := Branch(rbitmask, at);
      Advance(dst, src, mask, at, step, store);
      if store {
        copied := copied || r[at..at + step] != src[at..at + step];
        r := StoreBytes(r, src, at, step);
      }
      at := at + step;
      rbitmask := From(rbitmask, at);
    }
    assert mask - From(mask, at) == mask;
  }

  lemma Advance(dst: Chunk, src: Chunk, mask: Mask, at: nat, step: nat, store: bool)
    requires at + step <= CHUNK_SIZE
    requires forall i :: at <= i < at + step ==> (i in mask <==> store)
    ensures From(From(mask, at), at + step) == From(mask, at + step)
    ensures var r := Overlay(dst, src, mask - From(mask, at));
            var q := if store then StoreBytes(r, src, at, step) else r;
            q == Overlay(dst, src, mask - From(mask, at + step))
            && (q != dst <==> r != dst || q != r)
  {
    var r := Overlay(dst, src, mask - From(mask, at));
    var q := if store then StoreBytes(r, src, at, step) else r;
    forall i: nat | i < CHUNK_SIZE
      ensures q[i] == Overlay(dst, src, mask - From(mask, at + step))[i]
      ensures r[i] != dst[i] ==> q[i] == r[i]
    {
    }
    if r != dst {
      var i: nat :| i < CHUNK_SIZE && r[i] != dst[i];
      assert q[i] != dst[i];
    }
  }
}
