/**
 The invariant of the versioned memory and its consequence: every run is equivalent to executing
 the surviving operations one version after another.
 */
module SequentialEquivalence {
  import opened Options
  import opened Chunks
  import opened VersionedMemory

  // ---------- what the masks of a cell mean ----------

  datatype Footprint = Footprint(wr: Mask, xrd: Mask)

  // The bytes of chunk c that version v has written, and those it has read before writing them.
  function Foot(ops: seq<Op>, c: nat, v: Version): Footprint {
    if ops == [] then Footprint({}, {})
    else
      var f := Foot(ops[..|ops| - 1], c, v);
      var op := ops[|ops| - 1];
      if op.ver != v || op.chunk != c then f
      else if op.write then f.(wr := f.wr + op.acc)
      else f.(xrd := f.xrd + (op.acc - f.wr))
  }

  ghost predicate WroteBefore(ops: seq<Op>, j: nat, c: nat, v: Version, i: nat)
    requires j <= |ops|
  {
    exists k :: 0 <= k < j && ops[k].ver == v && Writes(ops[k], c, i)
  }

  ghost predicate ExposedRead(ops: seq<Op>, j: nat, c: nat, v: Version, i: nat)
    requires j < |ops|
  {
    && ops[j].ver == v && !ops[j].write && ops[j].chunk == c && i in ops[j].acc
    && !WroteBefore(ops, j, c, v, i)
  }

  lemma {:induction false} WriteMaskMeaning(ops: seq<Op>, c: nat, v: Version, i: nat)
    ensures i in Foot(ops, c, v).wr <==> WroteBefore(ops, |ops|, c, v, i)
  {
    if ops != [] {
      var n := |ops| - 1;
      WriteMaskMeaning(ops[..n], c, v, i);
      assert WroteBefore(ops, |ops|, c, v, i)
        <==> WroteBefore(ops[..n], n, c, v, i) || (ops[n].ver == v && Writes(ops[n], c, i));
    }
  }

  lemma {:induction false} ReadMaskMeaning(ops: seq<Op>, c: nat, v: Version, i: nat)
    ensures i in Foot(ops, c, v).xrd <==> exists j :: 0 <= j < |ops| && ExposedRead(ops, j, c, v, i)
  {
    if ops != [] {
      var n := |ops| - 1;
      var front := ops[..n];
      ReadMaskMeaning(front, c, v, i);
      WriteMaskMeaning(front, c, v, i);
      ExposedReadInPrefix(ops, c, v, i);
      assert i in Foot(ops, c, v).xrd <==> i in Foot(front, c, v).xrd || ExposedRead(ops, n, c, v, i);
    }
  }

  lemma ExposedReadInPrefix(ops: seq<Op>, c: nat, v: Version, i: nat)
    requires ops != []
    ensures var n := |ops| - 1;
      && (WroteBefore(ops[..n], n, c, v, i) <==> WroteBefore(ops, n, c, v, i))
      && forall j :: 0 <= j < n ==> (ExposedRead(ops[..n], j, c, v, i) <==> ExposedRead(ops, j, c, v, i))
  {
    var n := |ops| - 1;
    forall j | 0 <= j <= n
      ensures WroteBefore(ops[..n], j, c, v, i) <==> WroteBefore(ops, j, c, v, i)
    {
    }
  }

  // Operations of other versions leave no trace in the footprint of v.
  lemma {:induction false} FootSkip(a: seq<Op>, b: seq<Op>, c: nat, v: Version)
    requires forall op :: op in b ==> op.ver != v
    ensures Foot(a + b, c, v) == Foot(a, c, v)
  {
    if b == [] {
      assert a + b == a;
    } else {
      assert (a + b)[..|a + b| - 1] == a + b[..|b| - 1];
      FootSkip(a, b[..|b| - 1], c, v);
    }
  }

  lemma {:induction false} FootDrop(a: seq<Op>, b: seq<Op>, c: nat, v: Version)
    requires forall op :: op in a ==> op.ver != v
    ensures Foot(a + b, c, v) == Foot(b, c, v)
  {
    if b == [] {
      assert a + b == [] + a;
      FootSkip([], a, c, v);
    } else {
      assert (a + b)[..|a + b| - 1] == a + b[..|b| - 1];
      FootDrop(a, b[..|b| - 1], c, v);
    }
  }

  lemma FootInsert(ops: seq<Op>, op: Op, c: nat, v: Version)
    requires Sorted(ops)
    ensures var f := Foot(ops, c, v);
      Foot(Insert(ops, op), c, v)
        == if op.ver != v || op.chunk != c then f
           else if op.write then f.(wr := f.wr + op.acc)
           else f.(xrd := f.xrd + (op.acc - f.wr))
  {
    var p := Upto(ops, op.ver);
    var a, b := ops[..p], ops[p..];
    assert ops == a + b;
    if op.ver == v {
      FootSkip(a + [op], b, c, v);
      FootSkip(a, b, c, v);
      assert (a + [op])[..p] == a;
    } else {
      FootWithout(a, op, b, c, v);
    }
  }

  lemma {:induction false} FootWithout(a: seq<Op>, op: Op, b: seq<Op>, c: nat, v: Version)
    requires op.ver != v
    ensures Foot(a + [op] + b, c, v) == Foot(a + b, c, v)
  {
    if b == [] {
      assert a + [op] + b == a + [op] && a + b == a;
      FootSkip(a, [op], c, v);
    } else {
      assert (a + [op] + b)[..|a + b|] == a + [op] + b[..|b| - 1];
      assert (a + b)[..|a + b| - 1] == a + b[..|b| - 1];
      FootWithout(a, op, b[..|b| - 1], c, v);
    }
  }

  // ---------- the invariant ----------

  // The operations of versions up to v.
  function Seen(live: seq<Op>, v: Version): seq<Op> {
    live[..Upto(live, v)]
  }

  // The cell shows what sequential execution up to and including version v leaves in chunk c.
  ghost predicate CellAgrees(live: seq<Op>, m: Memory, c: nat, v: Version, e: Cell)
    requires c in m
  {
    && e.wr == Foot(live, c, v).wr && e.xrd == Foot(live, c, v).xrd
    && forall i: nat :: i < CHUNK_SIZE ==> e.data[i] == ByteAfter(m, Seen(live, v), c, i)
  }

  // Read k of the history was given the bytes that sequential execution gives it.
  ghost predicate ReadAgrees(m: Memory, ops: seq<Op>, k: nat)
    requires k < |ops| && ops[k].chunk in m
  {
    !ops[k].write ==> forall i :: i in ops[k].acc ==> ops[k].value[i] == ByteAfter(m, ops[..k], ops[k].chunk, i)
  }

  ghost predicate Shape(live: seq<Op>, s: State) {
    && Sorted(live) && InMemory(s.mem, live)
    && (forall op :: op in live ==> s.floor <= op.ver && (op.chunk, op.ver) in s.cells)
    && (forall k :: k in s.cells ==> k.0 in s.mem && s.floor <= k.1)
  }

  ghost predicate Agrees(live: seq<Op>, s: State) {
    && Shape(live, s)
    && (forall c, v :: (c, v) in s.cells ==> CellAgrees(live, s.mem, c, v, s.cells[(c, v)]))
    && (forall k :: 0 <= k < |live| ==> ReadAgrees(s.mem, live, k))
  }

  // ---------- looking at the next older cell ----------

  lemma {:induction false} SomeOlder(cells: map<Key, Cell>, c: nat, v: Version, u: Version, rest: set<Key>)
    requires u < v && (c, u) in cells
    requires forall k :: k in cells && k.0 == c && u < k.1 < v ==> k in rest
    ensures exists w :: NextOlder(cells, c, v, w)
    decreases rest
  {
    if w :| u < w < v && (c, w) in cells {
      SomeOlder(cells, c, v, w, rest - {(c, w)});
    } else {
      assert NextOlder(cells, c, v, u);
    }
  }

  lemma OlderOrOldest(cells: map<Key, Cell>, c: nat, v: Version)
    ensures Oldest(cells, c, v) || exists u :: NextOlder(cells, c, v, u)
  {
    if u :| u < v && (c, u) in cells {
      SomeOlder(cells, c, v, u, cells.Keys);
    }
  }

  lemma TouchKeepsAgreement(live: seq<Op>, s: State, c: nat, v: Version, t: State)
    requires Agrees(live, s) && Accessible(s, c, v) && Touch(s, c, v, t)
    ensures Agrees(live, t)
  {
    if (c, v) !in s.cells {
      NewCellAgrees(live, s, c, v, t.cells[(c, v)]);
      forall c', u | (c', u) in t.cells
        ensures CellAgrees(live, t.mem, c', u, t.cells[(c', u)])
      {
        assert (c', u) in s.cells ==> CellAgrees(live, s.mem, c', u, s.cells[(c', u)]);
      }
    }
  }

  lemma NewCellAgrees(live: seq<Op>, s: State, c: nat, v: Version, e: Cell)
    requires Agrees(live, s) && Accessible(s, c, v) && (c, v) !in s.cells
    requires e.xrd == {} && e.wr == {} && Inherits(s, c, v, e.data)
    ensures CellAgrees(live, s.mem, c, v, e)
  {
    forall i: nat
      ensures i !in Foot(live, c, v).wr && i !in Foot(live, c, v).xrd
    {
      WriteMaskMeaning(live, c, v, i);
      ReadMaskMeaning(live, c, v, i);
    }
    var p, q := Upto(live, v), 0;
    OlderOrOldest(s.cells, c, v);
    if u :| NextOlder(s.cells, c, v, u) {
      q := Upto(live, u);
      UptoMonotone(live, u, v);
    }
    forall i: nat | i < CHUNK_SIZE
      ensures e.data[i] == ByteAfter(s.mem, live[..p], c, i)
    {
      assert !WrittenIn(live, q, p, c, i);
      ByteUntouched(s.mem, live, q, p, c, i);
    }
  }

  lemma UptoMonotone(ops: seq<Op>, u: Version, v: Version)
    requires Sorted(ops) && u <= v
    ensures Upto(ops, u) <= Upto(ops, v)
  {
  }

  lemma UptoInsert(ops: seq<Op>, op: Op, u: Version)
    requires Sorted(ops)
    ensures Upto(Insert(ops, op), u) == Upto(ops, u) + if op.ver <= u then 1 else 0
  {
    var p, q := Upto(ops, op.ver), Upto(ops, u);
    var r := Insert(ops, op);
    InsertAt(ops, op);
    InsertSorted(ops, op);
    if op.ver <= u {
      UptoMonotone(ops, op.ver, u);
      UptoUnique(r, u, q + 1);
    } else {
      UptoMonotone(ops, u, op.ver);
      UptoUnique(r, u, q);
    }
  }

  lemma InsertSorted(ops: seq<Op>, op: Op)
    requires Sorted(ops)
    ensures Sorted(Insert(ops, op))
  {
    InsertAt(ops, op);
  }

  lemma InsertAt(ops: seq<Op>, op: Op)
    ensures var p, r := Upto(ops, op.ver), Insert(ops, op);
      forall k :: 0 <= k < |r| ==> r[k] == if k < p then ops[k] else if k == p then op else ops[k - 1]
  {
  }

  lemma {:induction false} UptoUnique(ops: seq<Op>, v: Version, p: nat)
    requires Sorted(ops) && p <= |ops|
    requires p == 0 || ops[p - 1].ver <= v
    requires p == |ops| || v < ops[p].ver
    ensures Upto(ops, v) == p
  {
    if ops != [] && v < ops[|ops| - 1].ver {
      UptoUnique(ops[..|ops| - 1], v, p);
    }
  }

  lemma InsertMembers(ops: seq<Op>, op: Op)
    ensures forall o :: o in Insert(ops, op) <==> o in ops || o == op
  {
    var p := Upto(ops, op.ver);
    assert ops == ops[..p] + ops[p..];
  }

  // ---------- reads ----------

  // The byte that version u sees after an insertion.
  lemma InsertView(m: Memory, live: seq<Op>, op: Op, c: nat, u: Version, i: nat)
    requires Sorted(live) && c in m && i < CHUNK_SIZE
    ensures op.ver <= u ==> Upto(live, op.ver) <= Upto(live, u)
    ensures var r := Insert(live, op);
      ByteAfter(m, r[..Upto(r, u)], c, i)
        == if op.ver <= u && Writes(op, c, i) && !WrittenIn(live, Upto(live, op.ver), Upto(live, u), c, i)
           then op.value[i] else ByteAfter(m, live[..Upto(live, u)], c, i)
  {
    if op.ver <= u {
      ViewOfInserted(m, live, op, c, u, i);
    } else {
      UptoInsert(live, op, u);
      UptoMonotone(live, u, op.ver);
      PrefixBeforeInsert(live, op, Upto(live, u));
    }
  }

  lemma ViewOfInserted(m: Memory, live: seq<Op>, op: Op, c: nat, u: Version, i: nat)
    requires Sorted(live) && c in m && i < CHUNK_SIZE && op.ver <= u
    ensures Upto(live, op.ver) <= Upto(live, u)
    ensures var r := Insert(live, op);
      ByteAfter(m, r[..Upto(r, u)], c, i)
        == if Writes(op, c, i) && !WrittenIn(live, Upto(live, op.ver), Upto(live, u), c, i)
           then op.value[i] else ByteAfter(m, live[..Upto(live, u)], c, i)
  {
    UptoInsert(live, op, u);
    UptoMonotone(live, op.ver, u);
    InsertByte(m, live, op, Upto(live, op.ver), Upto(live, u), c, i);
  }

  lemma PrefixBeforeInsert(live: seq<Op>, op: Op, q: nat)
    requires q <= Upto(live, op.ver)
    ensures Insert(live, op)[..q] == live[..q]
  {
  }

  lemma ReadKeepsCell(live: seq<Op>, m: Memory, op: Op, e: Cell, c: nat, v: Version)
    requires Sorted(live) && !op.write && c in m
    requires CellAgrees(live, m, c, v, e)
    ensures CellAgrees(Insert(live, op), m, c, v,
                       if (c, v) == (op.chunk, op.ver) then e.(xrd := e.xrd + (op.acc - e.wr)) else e)
  {
    FootInsert(live, op, c, v);
    forall i: nat | i < CHUNK_SIZE
      ensures ByteAfter(m, Insert(live, op)[..Upto(Insert(live, op), v)], c, i) == e.data[i]
    {
      InsertView(m, live, op, c, v, i);
    }
  }

  // Read k of byte i of acc in chunk c is reached by what stands at p: nothing in between writes it.
  ghost predicate Unprotected(live: seq<Op>, p: nat, k: nat, c: nat, acc: Mask, i: nat)
  {
    && p <= k < |live| && !live[k].write && live[k].chunk == c && i in live[k].acc && i in acc
    && !WrittenIn(live, p, k, c, i)
  }

  // An insertion that leaves the bytes read by younger versions alone keeps the reads agreeing.
  lemma InsertKeepsReads(m: Memory, live: seq<Op>, op: Op)
    requires InMemory(m, live) && op.chunk in m
    requires forall k :: 0 <= k < |live| ==> ReadAgrees(m, live, k)
    requires !op.write ==> forall i :: i in op.acc ==>
               op.value[i] == ByteAfter(m, live[..Upto(live, op.ver)], op.chunk, i)
    requires op.write ==> AllProtected(live, Upto(live, op.ver), op.chunk, op.acc)
    ensures InMemory(m, Insert(live, op))
    ensures forall k :: 0 <= k < |Insert(live, op)| ==> ReadAgrees(m, Insert(live, op), k)
  {
    InsertMembers(live, op);
    InsertAt(live, op);
    var p, r := Upto(live, op.ver), Insert(live, op);
    forall k | 0 <= k < |r|
      ensures ReadAgrees(m, r, k)
    {
      if k < p {
        EarlierReadAgrees(m, live, op, k);
      } else if k == p {
        assert r[..k] == live[..k];
      } else {
        LaterReadAgrees(m, live, op, k - 1);
      }
    }
  }

  lemma EarlierReadAgrees(m: Memory, live: seq<Op>, op: Op, k: nat)
    requires op.chunk in m && k < Upto(live, op.ver) && live[k].chunk in m && ReadAgrees(m, live, k)
    ensures Insert(live, op)[k] == live[k] && ReadAgrees(m, Insert(live, op), k)
  {
    assert Insert(live, op)[..k] == live[..k];
  }

  lemma LaterReadAgrees(m: Memory, live: seq<Op>, op: Op, k: nat)
    requires op.chunk in m && Upto(live, op.ver) <= k < |live|
    requires live[k].chunk in m && ReadAgrees(m, live, k)
    requires op.write ==> forall i :: !Unprotected(live, Upto(live, op.ver), k, op.chunk, op.acc, i)
    ensures Insert(live, op)[k + 1] == live[k]
    ensures ReadAgrees(m, Insert(live, op), k + 1)
  {
    var p, r, o := Upto(live, op.ver), Insert(live, op), live[k];
    InsertAt(live, op);
    if !o.write {
      forall i | i in o.acc
        ensures o.value[i] == ByteAfter(m, r[..k + 1], o.chunk, i)
      {
        InsertByte(m, live, op, p, k, o.chunk, i);
        assert !Unprotected(live, p, k, op.chunk, op.acc, i) || !op.write;
      }
    }
  }

  lemma ReadKeepsAgreement(live: seq<Op>, s: State, c: nat, v: Version, acc: Mask, d: Chunk, s': State)
    requires Agrees(live, s) && ReadStep(s, c, v, acc, d, s')
    ensures Agrees(Insert(live, Op(false, c, v, acc, d)), s')
  {
    var op := Op(false, c, v, acc, d);
    var t :| Touch(s, c, v, t) && Load(t, c, v, acc, d, s');
    TouchKeepsAgreement(live, s, c, v, t);
    assert CellAgrees(live, t.mem, c, v, t.cells[(c, v)]);
    InsertSorted(live, op);
    InsertMembers(live, op);
    InsertKeepsReads(t.mem, live, op);
    forall c', v' | (c', v') in s'.cells
      ensures CellAgrees(Insert(live, op), t.mem, c', v', s'.cells[(c', v')])
    {
      ReadKeepsCell(live, t.mem, op, t.cells[(c', v')], c', v');
    }
  }

  // ---------- writes ----------

  // A byte is shadowed between two versions exactly when the history writes it between them.
  lemma ShadowMeaning(live: seq<Op>, s: State, c: nat, v: Version, u: Version, i: nat)
    requires Agrees(live, s) && c in s.mem && v <= u
    ensures Upto(live, v) <= Upto(live, u)
    ensures Shadowed(s.cells, c, v, u, i) <==> WrittenIn(live, Upto(live, v), Upto(live, u), c, i)
  {
    UptoMonotone(live, v, u);
    if Shadowed(s.cells, c, v, u, i) {
      var w :| v < w <= u && (c, w) in s.cells && i in s.cells[(c, w)].wr;
      assert CellAgrees(live, s.mem, c, w, s.cells[(c, w)]);
      WriteMaskMeaning(live, c, w, i);
      var k :| 0 <= k < |live| && live[k].ver == w && Writes(live[k], c, i);
      assert Upto(live, v) <= k < Upto(live, u);
    }
    if k :| Upto(live, v) <= k < Upto(live, u) && Writes(live[k], c, i) {
      var w := live[k].ver;
      assert live[k] in live && CellAgrees(live, s.mem, c, w, s.cells[(c, w)]);
      assert WroteBefore(live, |live|, c, w, i);
      WriteMaskMeaning(live, c, w, i);
    }
  }

  // Every younger read of a byte of acc has a write of that byte between p and itself.
  ghost predicate AllProtected(live: seq<Op>, p: nat, c: nat, acc: Mask) {
    forall k: nat, i: nat :: !Unprotected(live, p, k, c, acc, i)
  }

  // The report is exact: it is silent if and only if every younger read of a byte being written
  // has a write of that byte between the writer and itself.
  lemma ReportIsExact(live: seq<Op>, s: State, c: nat, v: Version, acc: Mask)
    requires Agrees(live, s) && Accessible(s, c, v)
    ensures Reports(s.cells, c, v, acc, None) <==> AllProtected(live, Upto(live, v), c, acc)
  {
    if AllProtected(live, Upto(live, v), c, acc) {
      forall u
        ensures !Violated(s.cells, c, v, acc, u)
      {
        if Violated(s.cells, c, v, acc, u) {
          var k, i := ViolationHasRead(live, s, c, v, acc, u);
        }
      }
    } else {
      var k: nat, i: nat :| Unprotected(live, Upto(live, v), k, c, acc, i);
      UnprotectedReadIsViolation(live, s, c, v, acc, k, i);
    }
  }

  lemma UnprotectedReadIsViolation(live: seq<Op>, s: State, c: nat, v: Version, acc: Mask, k: nat, i: nat)
    requires Agrees(live, s) && Accessible(s, c, v)
    requires Unprotected(live, Upto(live, v), k, c, acc, i)
    ensures Violated(s.cells, c, v, acc, live[k].ver)
  {
    var u := live[k].ver;
    assert live[k] in live && CellAgrees(live, s.mem, c, u, s.cells[(c, u)]);
    assert ExposedRead(live, k, c, u, i);
    ReadMaskMeaning(live, c, u, i);
    ShadowMeaning(live, s, c, v, u - 1, i);
    assert Upto(live, u - 1) <= k;
  }

  lemma ViolationHasRead(live: seq<Op>, s: State, c: nat, v: Version, acc: Mask, u: Version)
    returns (k: nat, i: nat)
    requires Agrees(live, s) && Accessible(s, c, v) && Violated(s.cells, c, v, acc, u)
    ensures Unprotected(live, Upto(live, v), k, c, acc, i) && live[k].ver == u
  {
    i :| i in acc && i in s.cells[(c, u)].xrd && !Shadowed(s.cells, c, v, u - 1, i);
    assert CellAgrees(live, s.mem, c, u, s.cells[(c, u)]);
    ReadMaskMeaning(live, c, u, i);
    k :| 0 <= k < |live| && ExposedRead(live, k, c, u, i);
    ShadowMeaning(live, s, c, v, u - 1, i);
    ExposedIsUnprotected(live, v, u, k, c, i);
  }

  lemma ExposedIsUnprotected(live: seq<Op>, v: Version, u: Version, k: nat, c: nat, i: nat)
    requires Sorted(live) && v < u && k < |live| && ExposedRead(live, k, c, u, i)
    requires Upto(live, v) <= Upto(live, u - 1)
    requires !WrittenIn(live, Upto(live, v), Upto(live, u - 1), c, i)
    ensures Upto(live, v) <= k
    ensures !WrittenIn(live, Upto(live, v), k, c, i)
  {
    forall l | Upto(live, v) <= l < k
      ensures !Writes(live[l], c, i)
    {
      if live[l].ver < u {
        assert l < Upto(live, u - 1);
      } else {
        assert live[l].ver == u;
      }
    }
  }

  lemma WriteKeepsCell(live: seq<Op>, t: State, op: Op, s': State, c: nat, u: Version)
    requires Agrees(live, t) && op.write && op.chunk in t.mem
    requires Store(t, op.chunk, op.ver, op.acc, op.value, None, s')
    requires (c, u) in t.cells
    ensures CellAgrees(Insert(live, op), t.mem, c, u, s'.cells[(c, u)])
  {
    var e, e' := t.cells[(c, u)], s'.cells[(c, u)];
    assert CellAgrees(live, t.mem, c, u, e);
    FootInsert(live, op, c, u);
    forall i: nat | i < CHUNK_SIZE
      ensures e'.data[i] == ByteAfter(t.mem, Seen(Insert(live, op), u), c, i)
    {
      InsertView(t.mem, live, op, c, u, i);
      if c == op.chunk && op.ver <= u {
        ShadowMeaning(live, t, c, op.ver, u, i);
      }
    }
  }

  lemma WriteKeepsAgreement(live: seq<Op>, s: State, c: nat, v: Version, acc: Mask, d: Chunk, s': State)
    requires Agrees(live, s) && WriteStep(s, c, v, acc, d, None, s')
    ensures Agrees(Insert(live, Op(true, c, v, acc, d)), s')
  {
    var op := Op(true, c, v, acc, d);
    var t :| Touch(s, c, v, t) && Store(t, c, v, acc, d, None, s');
    TouchKeepsAgreement(live, s, c, v, t);
    InsertSorted(live, op);
    InsertMembers(live, op);
    ReportIsExact(live, t, c, v, acc);
    InsertKeepsReads(t.mem, live, op);
    forall c', u | (c', u) in s'.cells
      ensures CellAgrees(Insert(live, op), t.mem, c', u, s'.cells[(c', u)])
    {
      WriteKeepsCell(live, t, op, s', c', u);
    }
  }

  // ---------- kills ----------

  lemma SeenAfterKill(live: seq<Op>, w: Version, v: Version)
    requires Sorted(live) && v < w
    ensures Seen(Seen(live, w - 1), v) == Seen(live, v)
  {
    UptoMonotone(live, v, w - 1);
    UptoUnique(Seen(live, w - 1), v, Upto(live, v));
  }

  lemma FootAfterKill(live: seq<Op>, w: Version, c: nat, v: Version)
    requires Sorted(live) && v < w
    ensures Foot(Seen(live, w - 1), c, v) == Foot(live, c, v)
  {
    var n := Upto(live, w - 1);
    assert live == live[..n] + live[n..];
    FootSkip(live[..n], live[n..], c, v);
  }

  lemma KillKeepsAgreement(live: seq<Op>, s: State, w: Version, s': State)
    requires Agrees(live, s) && KillStep(s, w, s')
    ensures Agrees(live[..Upto(live, w - 1)], s')
  {
    var n := Upto(live, w - 1);
    var kept := live[..n];
    forall op | op in kept
      ensures op in live && op.ver < w
    {
      var k :| 0 <= k < n && kept[k] == op;
      assert live[k] == op;
    }
    forall c, v | (c, v) in s'.cells
      ensures CellAgrees(kept, s.mem, c, v, s'.cells[(c, v)])
    {
      assert CellAgrees(live, s.mem, c, v, s.cells[(c, v)]);
      SeenAfterKill(live, w, v);
      FootAfterKill(live, w, c, v);
    }
    forall k | 0 <= k < |kept|
      ensures ReadAgrees(s.mem, kept, k)
    {
      assert ReadAgrees(s.mem, live, k);
      assert kept[..k] == live[..k];
    }
  }

  function Killed(s: State, w: Version): State {
    s.(cells := map k | k in s.cells && k.1 < w :: s.cells[k])
  }

  // A write with a report followed by the kill is the kill followed by a write without a report.
  lemma ReportedWrite(s: State, c: nat, v: Version, acc: Mask, d: Chunk, w: Version, t: State)
    requires WriteStep(s, c, v, acc, d, Some(w), t)
    ensures s.floor < w && WriteStep(Killed(s, w), c, v, acc, d, None, Killed(t, w))
  {
    var u :| Touch(s, c, v, u) && Store(u, c, v, acc, d, Some(w), t);
    KilledTouch(s, c, v, u, w);
    KilledStore(u, c, v, acc, d, w, t);
  }

  lemma KilledStore(u: State, c: nat, v: Version, acc: Mask, d: Chunk, w: Version, t: State)
    requires Store(u, c, v, acc, d, Some(w), t)
    ensures v < w && Store(Killed(u, w), c, v, acc, d, None, Killed(t, w))
  {
    KilledReports(u.cells, Killed(u, w).cells, c, v, acc, w);
    KilledOthers(u.cells, Killed(u, w).cells, c, v, acc, d, w, t.cells, Killed(t, w).cells);
  }

  ghost predicate Restricted(cells: map<Key, Cell>, kept: map<Key, Cell>, w: Version) {
    && (forall x :: x in kept <==> x in cells && x.1 < w)
    && (forall x :: x in kept ==> kept[x] == cells[x])
  }

  lemma KilledShadow(cells: map<Key, Cell>, kept: map<Key, Cell>, c: nat, v: Version, u: Version, i: nat, w: Version)
    requires Restricted(cells, kept, w) && u < w
    ensures Shadowed(kept, c, v, u, i) <==> Shadowed(cells, c, v, u, i)
  {
  }

  lemma KilledForward(cells: map<Key, Cell>, kept: map<Key, Cell>, c: nat, v: Version, acc: Mask, d: Chunk,
                      u: Version, e: Cell, w: Version)
    requires Restricted(cells, kept, w) && u < w && (c, u) in cells && Forwarded(cells, c, v, acc, d, u, e)
    ensures Forwarded(kept, c, v, acc, d, u, e)
  {
    forall i: nat
      ensures Shadowed(kept, c, v, u, i) <==> Shadowed(cells, c, v, u, i)
    {
      KilledShadow(cells, kept, c, v, u, i, w);
    }
  }

  lemma KilledOthers(cells: map<Key, Cell>, kept: map<Key, Cell>, c: nat, v: Version, acc: Mask, d: Chunk, w: Version,
                     after: map<Key, Cell>, final: map<Key, Cell>)
    requires Restricted(cells, kept, w) && Restricted(after, final, w) && v < w
    requires cells.Keys <= after.Keys && OtherCells(cells, c, v, acc, d, Some(w), after)
    ensures kept.Keys <= final.Keys && OtherCells(kept, c, v, acc, d, None, final)
  {
    forall k | k in kept && k.0 == c && v < k.1
      ensures Forwarded(kept, c, v, acc, d, k.1, final[k])
    {
      KilledForward(cells, kept, c, v, acc, d, k.1, after[k], w);
    }
  }

  lemma KilledTouch(s: State, c: nat, v: Version, t: State, w: Version)
    requires c in s.mem && Touch(s, c, v, t) && v < w
    ensures Touch(Killed(s, w), c, v, Killed(t, w))
  {
    var k := Killed(s, w);
    forall u
      ensures NextOlder(k.cells, c, v, u) ==> NextOlder(s.cells, c, v, u)
    {
    }
    assert Oldest(k.cells, c, v) ==> Oldest(s.cells, c, v);
    if (c, v) !in s.cells {
      assert Killed(t, w).cells == k.cells[(c, v) := t.cells[(c, v)]];
    }
  }

  lemma KilledViolation(cells: map<Key, Cell>, kept: map<Key, Cell>, c: nat, v: Version, acc: Mask, u: Version, w: Version)
    requires Restricted(cells, kept, w) && Violated(kept, c, v, acc, u)
    ensures u < w && Violated(cells, c, v, acc, u)
  {
    var i :| i in acc && i in kept[(c, u)].xrd && !Shadowed(kept, c, v, u - 1, i);
    KilledShadow(cells, kept, c, v, u - 1, i, w);
  }

  lemma KilledReports(cells: map<Key, Cell>, kept: map<Key, Cell>, c: nat, v: Version, acc: Mask, w: Version)
    requires Restricted(cells, kept, w) && Reports(cells, c, v, acc, Some(w))
    ensures Reports(kept, c, v, acc, None)
  {
    forall u
      ensures Violated(kept, c, v, acc, u) ==> u < w && Violated(cells, c, v, acc, u)
    {
      if Violated(kept, c, v, acc, u) {
        KilledViolation(cells, kept, c, v, acc, u, w);
      }
    }
  }

  // ---------- merges ----------

  lemma {:induction false} ByteCompose(m: Memory, a: seq<Op>, b: seq<Op>, c: nat, i: nat)
    requires InMemory(m, a) && c in m && i < CHUNK_SIZE
    ensures ByteAfter(m, a + b, c, i) == ByteAfter(Execute(m, a), b, c, i)
  {
    if b == [] {
      assert a + b == a;
      ExecuteIsBytewise(m, a, c, i);
    } else {
      assert (a + b)[..|a + b| - 1] == a + b[..|b| - 1];
      ByteCompose(m, a, b[..|b| - 1], c, i);
    }
  }

  lemma MergeIsExecution(live: seq<Op>, s: State, v: Version, s': State)
    requires Agrees(live, s) && MergeStep(s, v, s')
    ensures s'.mem == Execute(s.mem, live[..Upto(live, v)])
  {
    var a := live[..Upto(live, v)];
    forall c | c in s.mem
      ensures s'.mem[c] == Execute(s.mem, a)[c]
    {
      forall i: nat | i < CHUNK_SIZE
        ensures s'.mem[c][i] == Execute(s.mem, a)[c][i]
      {
        ExecuteIsBytewise(s.mem, a, c, i);
        MergedByte(live, s, v, c, i);
      }
    }
  }

  // The bytes the oldest version has written are those its operations leave; no other byte changes.
  lemma MergedByte(live: seq<Op>, s: State, v: Version, c: nat, i: nat)
    requires Agrees(live, s) && s.floor <= v && (forall k :: k in s.cells ==> v <= k.1)
    requires c in s.mem && i < CHUNK_SIZE
    ensures ByteAfter(s.mem, live[..Upto(live, v)], c, i)
      == if (c, v) in s.cells && i in s.cells[(c, v)].wr then s.cells[(c, v)].data[i] else s.mem[c][i]
  {
    var p := Upto(live, v);
    if (c, v) in s.cells {
      assert CellAgrees(live, s.mem, c, v, s.cells[(c, v)]);
      WriteMaskMeaning(live, c, v, i);
    }
    if !((c, v) in s.cells && i in s.cells[(c, v)].wr) {
      forall k | 0 <= k < p
        ensures !Writes(live[k], c, i)
      {
        assert live[k] in live && live[k].ver == v;
      }
      ByteUntouched(s.mem, live, 0, p, c, i);
    }
  }

  lemma SeenAfterMerge(live: seq<Op>, v: Version, u: Version)
    requires Sorted(live) && v <= u
    ensures Seen(live, u) == Seen(live, v) + Seen(live[Upto(live, v)..], u)
  {
    UptoMonotone(live, v, u);
    UptoOfRest(live, v, u);
    TakeInParts(live, Upto(live, v), Upto(live, u));
  }

  lemma UptoOfRest(live: seq<Op>, v: Version, u: Version)
    requires Sorted(live) && v <= u
    ensures Upto(live[Upto(live, v)..], u) == Upto(live, u) - Upto(live, v)
  {
    UptoMonotone(live, v, u);
    UptoUnique(live[Upto(live, v)..], u, Upto(live, u) - Upto(live, v));
  }

  lemma TakeInParts<T>(s: seq<T>, p: nat, q: nat)
    requires p <= q <= |s|
    ensures s[..q] == s[..p] + s[p..][..q - p]
  {
  }

  lemma FootAfterMerge(live: seq<Op>, v: Version, c: nat, u: Version)
    requires Sorted(live) && v < u
    ensures Foot(live[Upto(live, v)..], c, u) == Foot(live, c, u)
  {
    var p := Upto(live, v);
    assert live == live[..p] + live[p..];
    FootDrop(live[..p], live[p..], c, u);
  }

  lemma SurvivingCell(live: seq<Op>, m: Memory, v: Version, c: nat, u: Version, e: Cell)
    requires Sorted(live) && InMemory(m, Seen(live, v)) && c in m && v < u && CellAgrees(live, m, c, u, e)
    ensures CellAgrees(live[Upto(live, v)..], Execute(m, Seen(live, v)), c, u, e)
  {
    SeenAfterMerge(live, v, u);
    FootAfterMerge(live, v, c, u);
    forall i: nat | i < CHUNK_SIZE
      ensures ByteAfter(m, Seen(live, u), c, i)
        == ByteAfter(Execute(m, Seen(live, v)), Seen(live[Upto(live, v)..], u), c, i)
    {
      ByteCompose(m, Seen(live, v), Seen(live[Upto(live, v)..], u), c, i);
    }
  }

  lemma SurvivingRead(live: seq<Op>, m: Memory, p: nat, k: nat)
    requires p <= k < |live| && InMemory(m, live) && InMemory(m, live[..p]) && ReadAgrees(m, live, k)
    ensures ReadAgrees(Execute(m, live[..p]), live[p..], k - p)
  {
    var a, b := live[..p], live[p..];
    assert live[..k] == a + b[..k - p];
    if !live[k].write {
      forall i | i in live[k].acc
        ensures ByteAfter(Execute(m, a), b[..k - p], live[k].chunk, i) == ByteAfter(m, live[..k], live[k].chunk, i)
      {
        ByteCompose(m, a, b[..k - p], live[k].chunk, i);
      }
    }
  }

  lemma SuffixMembers(live: seq<Op>, v: Version)
    requires Sorted(live)
    ensures Sorted(live[Upto(live, v)..])
    ensures forall op :: op in live[Upto(live, v)..] ==> op in live && v < op.ver
  {
    var p := Upto(live, v);
    assert forall k :: 0 <= k < |live[p..]| ==> live[p..][k] == live[p + k];
  }

  lemma MergeKeepsAgreement(live: seq<Op>, s: State, v: Version, s': State)
    requires Agrees(live, s) && MergeStep(s, v, s')
    ensures Agrees(live[Upto(live, v)..], s')
  {
    MergeIsExecution(live, s, v, s');
    SuffixMembers(live, v);
    CellsAfterMerge(live, s, v, s');
    ReadsAfterMerge(live, s, v, s');
  }

  lemma CellsAfterMerge(live: seq<Op>, s: State, v: Version, s': State)
    requires Agrees(live, s) && MergeStep(s, v, s') && s'.mem == Execute(s.mem, Seen(live, v))
    ensures forall c, u :: (c, u) in s'.cells ==> c in s'.mem && CellAgrees(live[Upto(live, v)..], s'.mem, c, u, s'.cells[(c, u)])
  {
    forall c, u | (c, u) in s'.cells
      ensures c in s'.mem && CellAgrees(live[Upto(live, v)..], s'.mem, c, u, s'.cells[(c, u)])
    {
      SurvivingCell(live, s.mem, v, c, u, s.cells[(c, u)]);
    }
  }

  lemma ReadsAfterMerge(live: seq<Op>, s: State, v: Version, s': State)
    requires Agrees(live, s) && MergeStep(s, v, s') && s'.mem == Execute(s.mem, Seen(live, v))
    requires InMemory(s'.mem, live[Upto(live, v)..])
    ensures forall k :: 0 <= k < |live| - Upto(live, v) ==> ReadAgrees(s'.mem, live[Upto(live, v)..], k)
  {
    forall k | 0 <= k < |live| - Upto(live, v)
      ensures ReadAgrees(s'.mem, live[Upto(live, v)..], k)
    {
      SurvivingRead(live, s.mem, Upto(live, v), Upto(live, v) + k);
    }
  }
}
