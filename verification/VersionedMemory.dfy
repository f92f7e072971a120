/**
 The speculative versioned memory as a state machine. A cell holds the copy that one version keeps
 of one chunk; cells are keyed by (chunk, version). The transitions say, without reference to any
 list or loop, what a read, a write, a kill and a merge do to the cells and to memory.
 Main result: whatever the interleaving, the surviving operations behave as if they had been
 executed one version after another on flat memory.
 */
module VersionedMemory {
  import opened Options
  import opened Chunks

  type Version = int
  type Key = (nat, Version)
  type Memory = map<nat, Chunk>

  datatype Cell = Cell(data: Chunk, xrd: Mask, wr: Mask)

  // `floor` is the oldest version that has not been merged for good.
  datatype State = State(mem: Memory, cells: map<Key, Cell>, floor: Version)

  // ---------- transitions ----------

  // u is the version of the next older cell of chunk c.
  ghost predicate NextOlder(cells: map<Key, Cell>, c: nat, v: Version, u: Version) {
    && u < v && (c, u) in cells
    && forall w :: w < v && (c, w) in cells ==> w <= u
  }

  ghost predicate Oldest(cells: map<Key, Cell>, c: nat, v: Version) {
    forall w :: w < v ==> (c, w) !in cells
  }

  // d is what version v sees of chunk c before touching it.
  ghost predicate Inherits(s: State, c: nat, v: Version, d: Chunk)
    requires c in s.mem
  {
    && (forall u :: NextOlder(s.cells, c, v, u) ==> d == s.cells[(c, u)].data)
    && (Oldest(s.cells, c, v) ==> d == s.mem[c])
  }

  // Version v has a cell for chunk c; on the first touch it is made from what v inherits.
  ghost predicate Touch(s: State, c: nat, v: Version, t: State)
    requires c in s.mem
  {
    if (c, v) in s.cells then t == s
    else
      && (c, v) in t.cells && t == s.(cells := s.cells[(c, v) := t.cells[(c, v)]])
      && t.cells[(c, v)].xrd == {} && t.cells[(c, v)].wr == {}
      && Inherits(s, c, v, t.cells[(c, v)].data)
  }

  ghost predicate Accessible(s: State, c: nat, v: Version) {
    c in s.mem && s.floor <= v
  }

  // The value read is the cell's; the bytes the version has not written itself become exposed reads.
  ghost predicate Load(t: State, c: nat, v: Version, acc: Mask, d: Chunk, s': State) {
    && (c, v) in t.cells
    && var e := t.cells[(c, v)];
       d == e.data && s' == t.(cells := t.cells[(c, v) := e.(xrd := e.xrd + (acc - e.wr))])
  }

  ghost predicate ReadStep(s: State, c: nat, v: Version, acc: Mask, d: Chunk, s': State) {
    Accessible(s, c, v) && exists t :: Touch(s, c, v, t) && Load(t, c, v, acc, d, s')
  }

  // Some version in (v, u] has written byte i of chunk c.
  ghost predicate Shadowed(cells: map<Key, Cell>, c: nat, v: Version, u: Version, i: nat) {
    exists w :: v < w <= u && (c, w) in cells && i in cells[(c, w)].wr
  }

  // Version u > v has an exposed read of a byte of acc that reaches it from v.
  ghost predicate Violated(cells: map<Key, Cell>, c: nat, v: Version, acc: Mask, u: Version) {
    && v < u && (c, u) in cells
    && exists i :: i in acc && i in cells[(c, u)].xrd && !Shadowed(cells, c, v, u - 1, i)
  }

  // The report of a write: the oldest violated version, if there is one.
  ghost predicate Reports(cells: map<Key, Cell>, c: nat, v: Version, acc: Mask, r: Option<Version>) {
    match r
    case None => forall u :: !Violated(cells, c, v, acc, u)
    case Some(w) => Violated(cells, c, v, acc, w) && forall u :: u < w ==> !Violated(cells, c, v, acc, u)
  }

  // The write has reached the cell of version u: the bytes no version in (v, u] has written.
  ghost predicate Forwarded(cells: map<Key, Cell>, c: nat, v: Version, acc: Mask, d: Chunk, u: Version, e: Cell)
    requires (c, u) in cells
  {
    var old_e := cells[(c, u)];
    && e.xrd == old_e.xrd && e.wr == old_e.wr
    && forall i: nat :: i < CHUNK_SIZE ==>
         e.data[i] == if i in acc && !Shadowed(cells, c, v, u, i) then d[i] else old_e.data[i]
  }

  // Other chunks and older versions are untouched; younger cells of the chunk have been updated, up
  // to the reported version.
  ghost predicate OtherCells(cells: map<Key, Cell>, c: nat, v: Version, acc: Mask, d: Chunk, r: Option<Version>,
                             cells': map<Key, Cell>)
    requires cells.Keys <= cells'.Keys
  {
    forall k :: k in cells && k != (c, v) ==>
      if k.0 != c || k.1 < v then cells'[k] == cells[k]
      else r.None? || k.1 < r.value ==> Forwarded(cells, c, v, acc, d, k.1, cells'[k])
  }

  // Every cell as after a write of d to the bytes acc of chunk c by v, up to the reported version.
  ghost predicate Store(t: State, c: nat, v: Version, acc: Mask, d: Chunk, r: Option<Version>, s': State) {
    && s'.mem == t.mem && s'.floor == t.floor
    && (c, v) in t.cells && s'.cells.Keys == t.cells.Keys
    && s'.cells[(c, v)] == Cell(Overlay(t.cells[(c, v)].data, d, acc), t.cells[(c, v)].xrd, t.cells[(c, v)].wr + acc)
    && Reports(t.cells, c, v, acc, r)
    && OtherCells(t.cells, c, v, acc, d, r, s'.cells)
  }

  ghost predicate WriteStep(s: State, c: nat, v: Version, acc: Mask, d: Chunk, r: Option<Version>, s': State) {
    Accessible(s, c, v) && exists t :: Touch(s, c, v, t) && Store(t, c, v, acc, d, r, s')
  }

  // Version w and everything younger is destroyed.
  ghost predicate KillStep(s: State, w: Version, s': State) {
    && s.floor < w
    && s' == s.(cells := map k | k in s.cells && k.1 < w :: s.cells[k])
  }

  ghost function MergedChunk(s: State, c: nat, v: Version): Chunk
    requires c in s.mem && (c, v) in s.cells
  {
    Overlay(s.mem[c], s.cells[(c, v)].data, s.cells[(c, v)].wr)
  }

  // The oldest version writes its bytes back to memory and forgets its cells.
  ghost predicate MergeStep(s: State, v: Version, s': State) {
    && s.floor <= v && (forall k :: k in s.cells ==> v <= k.1)
    && s'.floor == v
    && s'.cells == (map k | k in s.cells && k.1 != v :: s.cells[k])
    && s'.mem.Keys == s.mem.Keys
    && forall c :: c in s.mem ==>
         s'.mem[c] == if (c, v) in s.cells then MergedChunk(s, c, v) else s.mem[c]
  }

  datatype Event =
    | Read(chunk: nat, ver: Version, acc: Mask, value: Chunk)
    | Write(chunk: nat, ver: Version, acc: Mask, value: Chunk, report: Option<Version>)
    | Kill(from: Version)
    | Merge(ver: Version)

  // A write's reported violator and everything younger are killed at once.
  ghost predicate Next(s: State, ev: Event, s': State) {
    match ev
    case Read(c, v, acc, d) => ReadStep(s, c, v, acc, d, s')
    case Write(c, v, acc, d, r) =>
      if r.None? then WriteStep(s, c, v, acc, d, r, s')
      else exists t :: WriteStep(s, c, v, acc, d, r, t) && KillStep(t, r.value, s')
    case Kill(w) => KillStep(s, w, s')
    case Merge(v) => MergeStep(s, v, s')
  }

  ghost predicate IsRun(m0: Memory, states: seq<State>, events: seq<Event>) {
    && |states| == |events| + 1
    && states[0].mem == m0 && states[0].cells == map[]
    && forall k :: 0 <= k < |events| ==> Next(states[k], events[k], states[k + 1])
  }

  // ---------- the reference: one version after another on flat memory ----------

  // A surviving access; a read carries the value it was given.
  datatype Op = Op(write: bool, chunk: nat, ver: Version, acc: Mask, value: Chunk)

  // The survivors in the order in which they were issued.
  function Survivors(events: seq<Event>): seq<Op>
  {
    if events == [] then [] else After(Survivors(events[..|events| - 1]), events[|events| - 1])
  }

  // The surviving operations after one more event.
  function After(h: seq<Op>, ev: Event): seq<Op> {
    match ev
    case Read(c, v, acc, d) => h + [Op(false, c, v, acc, d)]
    case Write(c, v, acc, d, r) =>
      var h' := h + [Op(true, c, v, acc, d)];
      if r.None? then h' else Older(h', r.value)
    case Kill(w) => Older(h, w)
    case Merge(v) => h
  }

  function Older(h: seq<Op>, w: Version): (r: seq<Op>)
    ensures forall op :: op in r ==> op in h && op.ver < w
  {
    if h == [] then []
    else Older(h[..|h| - 1], w) + (if h[|h| - 1].ver < w then [h[|h| - 1]] else [])
  }

  ghost predicate Sorted(ops: seq<Op>) {
    forall j, k :: 0 <= j < k < |ops| ==> ops[j].ver <= ops[k].ver
  }

  function OfVersion(ops: seq<Op>, v: Version): seq<Op> {
    if ops == [] then []
    else OfVersion(ops[..|ops| - 1], v) + (if ops[|ops| - 1].ver == v then [ops[|ops| - 1]] else [])
  }

  // The reference order: the operations of h sorted by version, stably.
  function ByVersion(h: seq<Op>): seq<Op> {
    if h == [] then [] else Insert(ByVersion(h[..|h| - 1]), h[|h| - 1])
  }

  // ops is h sorted by version, each version's operations in program order.
  ghost predicate VersionOrder(h: seq<Op>, ops: seq<Op>) {
    Sorted(ops) && forall v :: OfVersion(ops, v) == OfVersion(h, v)
  }

  ghost predicate InMemory(m: Memory, ops: seq<Op>) {
    forall op :: op in ops ==> op.chunk in m
  }

  // Executes the operations on flat memory, ignoring the values of reads.
  function Execute(m: Memory, ops: seq<Op>): (r: Memory)
    requires InMemory(m, ops)
    ensures r.Keys == m.Keys
  {
    if ops == [] then m
    else
      var op := ops[|ops| - 1];
      var m' := Execute(m, ops[..|ops| - 1]);
      if op.write then m'[op.chunk := Overlay(m'[op.chunk], op.value, op.acc)] else m'
  }

  // Every read in ops was given the bytes that sequential execution gives it.
  ghost predicate ReadsAgree(m: Memory, ops: seq<Op>)
    requires InMemory(m, ops)
  {
    forall k :: 0 <= k < |ops| && !ops[k].write ==>
      forall i :: i in ops[k].acc ==> ops[k].value[i] == Execute(m, ops[..k])[ops[k].chunk][i]
  }

  // ---------- bytes ----------

  predicate Writes(op: Op, c: nat, i: nat) {
    op.write && op.chunk == c && i in op.acc
  }

  // The value of byte i of chunk c after the operations.
  function ByteAfter(m: Memory, ops: seq<Op>, c: nat, i: nat): Byte
    requires c in m && i < CHUNK_SIZE
  {
    if ops == [] then m[c][i]
    else if Writes(ops[|ops| - 1], c, i) then ops[|ops| - 1].value[i]
    else ByteAfter(m, ops[..|ops| - 1], c, i)
  }

  lemma {:induction false} ExecuteIsBytewise(m: Memory, ops: seq<Op>, c: nat, i: nat)
    requires InMemory(m, ops) && c in m && i < CHUNK_SIZE
    ensures Execute(m, ops)[c][i] == ByteAfter(m, ops, c, i)
  {
    if ops != [] {
      ExecuteIsBytewise(m, ops[..|ops| - 1], c, i);
    }
  }

  ghost predicate WrittenIn(ops: seq<Op>, lo: nat, hi: nat, c: nat, i: nat)
    requires hi <= |ops|
  {
    exists k :: lo <= k < hi && Writes(ops[k], c, i)
  }

  // Operations that do not write the byte do not change it.
  lemma {:induction false} ByteUntouched(m: Memory, ops: seq<Op>, lo: nat, hi: nat, c: nat, i: nat)
    requires c in m && i < CHUNK_SIZE && lo <= hi <= |ops|
    requires !WrittenIn(ops, lo, hi, c, i)
    ensures ByteAfter(m, ops[..hi], c, i) == ByteAfter(m, ops[..lo], c, i)
  {
    if lo < hi {
      assert ops[..hi][..hi - 1] == ops[..hi - 1];
      ByteUntouched(m, ops, lo, hi - 1, c, i);
    }
  }

  // ---------- the sequential history and insertion ----------

  // The number of leading operations of versions up to v.
  function Upto(ops: seq<Op>, v: Version): (p: nat)
    ensures p <= |ops|
    ensures Sorted(ops) ==> forall k :: 0 <= k < p ==> ops[k].ver <= v
    ensures forall k :: p <= k < |ops| ==> ops[k].ver > v
  {
    if ops == [] then 0
    else if ops[|ops| - 1].ver <= v then |ops|
    else Upto(ops[..|ops| - 1], v)
  }

  function Splice<T>(s: seq<T>, p: nat, x: T): seq<T>
    requires p <= |s|
  {
    s[..p] + [x] + s[p..]
  }

  // An operation goes behind those of its own and of older versions.
  function Insert(ops: seq<Op>, op: Op): (r: seq<Op>) {
    Splice(ops, Upto(ops, op.ver), op)
  }

  // Insertion of an operation at p, seen through the prefix that ends at q in the old history.
  lemma {:induction false} InsertByte(m: Memory, ops: seq<Op>, op: Op, p: nat, q: nat, c: nat, i: nat)
    requires c in m && i < CHUNK_SIZE && p <= q <= |ops|
    ensures var r := ops[..p] + [op] + ops[p..];
      ByteAfter(m, r[..q + 1], c, i)
        == if Writes(op, c, i) && !WrittenIn(ops, p, q, c, i) then op.value[i]
           else ByteAfter(m, ops[..q], c, i)
  {
    var r := ops[..p] + [op] + ops[p..];
    if p == q {
      assert r[..q + 1] == ops[..p] + [op];
      assert r[..q + 1][..q] == ops[..p];
    } else {
      InsertByte(m, ops, op, p, q - 1, c, i);
      assert r[..q + 1][..q] == r[..q];
      assert r[q] == ops[q - 1];
      assert ops[..q][..q - 1] == ops[..q - 1];
      assert WrittenIn(ops, p, q, c, i) <==> WrittenIn(ops, p, q - 1, c, i) || Writes(ops[q - 1], c, i);
    }
  }
}
