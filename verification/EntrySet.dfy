/**
 The ordered set of entries that implements the versioned memory: one sequence for all chunks and
 versions, sorted by chunk and then version, with a junk entry at either end. Neighbours in the
 sequence stand for "the next older version" and "the younger versions" of a chunk.
 */
module EntrySet {
  import opened Options
  import opened Chunks
  import opened VersionedMemory

  const FIRST_CHUNK: nat := 0
  const LAST_CHUNK: nat := 0xFFFFFFFF

  datatype Entry = Entry(chunk: nat, ver: Version, cell: Cell)

  predicate Less(a: Entry, b: Entry) {
    a.chunk < b.chunk || (a.chunk == b.chunk && a.ver < b.ver)
  }

  ghost predicate Ordered(es: seq<Entry>) {
    && |es| >= 2 && es[0].chunk == FIRST_CHUNK && es[|es| - 1].chunk == LAST_CHUNK
    && (forall j :: 0 < j < |es| - 1 ==> FIRST_CHUNK < es[j].chunk < LAST_CHUNK)
    && forall j, k :: 0 <= j < k < |es| ==> Less(es[j], es[k])
  }

  // Entry j, which is not a junk entry, is the one for this key.
  ghost predicate At(es: seq<Entry>, j: nat, k: Key) {
    0 < j < |es| - 1 && es[j].chunk == k.0 && es[j].ver == k.1
  }

  ghost function KeyOf(e: Entry): Key {
    (e.chunk, e.ver)
  }

  // The set holds exactly these cells.
  ghost predicate Represents(es: seq<Entry>, cells: map<Key, Cell>) {
    && (forall j :: 0 < j < |es| - 1 ==> KeyOf(es[j]) in cells && cells[KeyOf(es[j])] == es[j].cell)
    && (forall k :: k in cells ==> exists j: nat :: At(es, j, k))
  }

  // ---------- insertion, update and removal are map operations ----------

  lemma InsertEntry(es: seq<Entry>, cells: map<Key, Cell>, p: nat, e: Entry)
    requires Ordered(es) && Represents(es, cells) && 0 < p < |es| && FIRST_CHUNK < e.chunk < LAST_CHUNK
    requires Less(es[p - 1], e) && Less(e, es[p])
    ensures Ordered(Splice(es, p, e))
    ensures KeyOf(e) !in cells
    ensures Represents(Splice(es, p, e), cells[KeyOf(e) := e.cell])
  {
    SpliceOrdered(es, p, e);
    NewKey(es, cells, p, e);
    SpliceRepresents(es, cells, p, e);
  }

  lemma NewKey(es: seq<Entry>, cells: map<Key, Cell>, p: nat, e: Entry)
    requires Represents(es, cells) && p <= |es|
    requires forall j :: 0 <= j < p ==> Less(es[j], e)
    requires forall j :: p <= j < |es| ==> Less(e, es[j])
    ensures KeyOf(e) !in cells
  {
    assert forall j: nat :: !At(es, j, KeyOf(e));
  }

  // A key that is not in the set lies strictly between its neighbours.
  lemma NotPresent(es: seq<Entry>, cells: map<Key, Cell>, p: nat, e: Entry)
    requires Ordered(es) && Represents(es, cells) && 0 < p < |es|
    requires FIRST_CHUNK < e.chunk < LAST_CHUNK && KeyOf(e) !in cells && !Less(es[p], e)
    ensures Less(e, es[p])
  {
    assert p < |es| - 1 ==> KeyOf(es[p]) in cells;
  }

  lemma SpliceAt<T>(s: seq<T>, p: nat, x: T)
    requires p <= |s|
    ensures |Splice(s, p, x)| == |s| + 1
    ensures forall j :: 0 <= j <= |s| ==> Splice(s, p, x)[j] == if j < p then s[j] else if j == p then x else s[j - 1]
  {
  }

  lemma SpliceRepresents(es: seq<Entry>, cells: map<Key, Cell>, p: nat, e: Entry)
    requires |es| >= 2 && Represents(es, cells) && 0 < p < |es| && KeyOf(e) !in cells
    ensures Represents(Splice(es, p, e), cells[KeyOf(e) := e.cell])
  {
    var r := Splice(es, p, e);
    SpliceAt(es, p, e);
    forall k | k in cells
      ensures exists j: nat :: At(r, j, k)
    {
      var j: nat :| At(es, j, k);
      assert At(r, if j < p then j else j + 1, k);
    }
    assert At(r, p, KeyOf(e));
  }

  lemma LiesBetween(es: seq<Entry>, p: nat, e: Entry)
    requires Ordered(es) && 0 < p < |es| && Less(es[p - 1], e) && Less(e, es[p])
    ensures forall j :: 0 <= j < p ==> Less(es[j], e)
    ensures forall j :: p <= j < |es| ==> Less(e, es[j])
  {
    forall j | 0 <= j < |es|
      ensures j < p ==> Less(es[j], e)
      ensures p <= j ==> Less(e, es[j])
    {
      assert j < p - 1 ==> Less(es[j], es[p - 1]);
      assert p < j ==> Less(es[p], es[j]);
    }
  }

  lemma SpliceOrdered(es: seq<Entry>, p: nat, e: Entry)
    requires Ordered(es) && 0 < p < |es| && FIRST_CHUNK < e.chunk < LAST_CHUNK
    requires Less(es[p - 1], e) && Less(e, es[p])
    ensures Ordered(Splice(es, p, e))
    ensures forall j :: 0 <= j < p ==> Less(es[j], e)
    ensures forall j :: p <= j < |es| ==> Less(e, es[j])
  {
    LiesBetween(es, p, e);
    var r := Splice(es, p, e);
    SpliceAt(es, p, e);
    forall j, k | 0 <= j < k < |r|
      ensures Less(r[j], r[k])
    {
      assert r[j] == if j < p then es[j] else if j == p then e else es[j - 1];
      assert r[k] == if k < p then es[k] else if k == p then e else es[k - 1];
    }
  }

  lemma UpdateEntry(es: seq<Entry>, cells: map<Key, Cell>, p: nat, e: Cell)
    requires Ordered(es) && Represents(es, cells) && 0 < p < |es| - 1
    ensures Ordered(es[p := es[p].(cell := e)])
    ensures Represents(es[p := es[p].(cell := e)], cells[KeyOf(es[p]) := e])
  {
    var r := es[p := es[p].(cell := e)];
    RekeyedOrder(es, r);
    forall j: nat | j < |es| && j != p
      ensures KeyOf(es[j]) != KeyOf(es[p])
    {
      if KeyOf(es[j]) == KeyOf(es[p]) {
        SameKeySameIndex(es, j, p);
      }
    }
    UpdateRepresents(es, cells, p, e);
  }

  lemma UpdateRepresents(es: seq<Entry>, cells: map<Key, Cell>, p: nat, e: Cell)
    requires Represents(es, cells) && 0 < p < |es| - 1
    requires forall j: nat :: j < |es| && j != p ==> KeyOf(es[j]) != KeyOf(es[p])
    ensures Represents(es[p := es[p].(cell := e)], cells[KeyOf(es[p]) := e])
  {
    var r := es[p := es[p].(cell := e)];
    forall k | k in cells
      ensures exists j: nat :: At(r, j, k)
    {
      var j: nat :| At(es, j, k);
      assert At(r, j, k);
    }
    assert At(r, p, KeyOf(es[p]));
  }

  lemma RemoveEntry(es: seq<Entry>, cells: map<Key, Cell>, p: nat)
    requires Ordered(es) && Represents(es, cells) && 0 < p < |es| - 1
    ensures Ordered(es[..p] + es[p + 1..])
    ensures Represents(es[..p] + es[p + 1..], cells - {KeyOf(es[p])})
  {
    RemovedOrder(es, p);
    forall j: nat | j < |es| && j != p
      ensures KeyOf(es[j]) != KeyOf(es[p])
    {
      if KeyOf(es[j]) == KeyOf(es[p]) {
        SameKeySameIndex(es, j, p);
      }
    }
    RemovedRepresents(es, cells, p);
  }

  lemma RemovedRepresents(es: seq<Entry>, cells: map<Key, Cell>, p: nat)
    requires Represents(es, cells) && 0 < p < |es| - 1
    requires forall j: nat :: j < |es| && j != p ==> KeyOf(es[j]) != KeyOf(es[p])
    ensures Represents(es[..p] + es[p + 1..], cells - {KeyOf(es[p])})
  {
    var r := es[..p] + es[p + 1..];
    forall k | k in cells && k != KeyOf(es[p])
      ensures exists j: nat :: At(r, j, k)
    {
      var j: nat :| At(es, j, k);
      assert At(r, if j < p then j else j - 1, k);
    }
  }

  lemma RemovedOrder(es: seq<Entry>, p: nat)
    requires Ordered(es) && 0 < p < |es| - 1
    ensures Ordered(es[..p] + es[p + 1..])
  {
    var r := es[..p] + es[p + 1..];
    forall j, k | 0 <= j < k < |r|
      ensures Less(r[j], r[k])
    {
      assert Less(es[if j < p then j else j + 1], es[if k < p then k else k + 1]);
    }
  }

  // ---------- neighbours ----------

  lemma OlderNeighbour(es: seq<Entry>, cells: map<Key, Cell>, p: nat, c: nat, v: Version)
    requires Ordered(es) && Represents(es, cells) && 0 < p < |es| && FIRST_CHUNK < c
    requires es[p - 1].chunk < c || (es[p - 1].chunk == c && es[p - 1].ver < v)
    requires c < es[p].chunk || (c == es[p].chunk && v <= es[p].ver)
    ensures es[p - 1].chunk == c ==> NextOlder(cells, c, v, es[p - 1].ver) && cells[(c, es[p - 1].ver)] == es[p - 1].cell
    ensures es[p - 1].chunk != c ==> Oldest(cells, c, v)
  {
    forall w | w < v && (c, w) in cells
      ensures es[p - 1].chunk == c && w <= es[p - 1].ver
    {
      var j: nat :| At(es, j, (c, w));
      assert p < j ==> Less(es[p], es[j]);
      assert j < p - 1 ==> Less(es[j], es[p - 1]);
    }
  }

  // ---------- forward propagation of a write along the set ----------

  // Byte i of a write at index `pos` arrives at index j: no entry in between has written it.
  ghost predicate Reaches(es: seq<Entry>, pos: nat, j: nat, acc: Mask, i: nat)
    requires pos < j <= |es|
  {
    i in acc && forall l :: pos < l < j ==> i !in es[l].cell.wr
  }

  // Entry j after the write: the bytes that neither an entry in between nor itself has written.
  ghost predicate Delivered(es: seq<Entry>, pos: nat, j: nat, acc: Mask, d: Chunk, e: Cell)
    requires pos < j < |es|
  {
    && e.wr == es[j].cell.wr && e.xrd == es[j].cell.xrd
    && forall i: nat :: i < CHUNK_SIZE ==>
         e.data[i] == if Reaches(es, pos, j + 1, acc, i) then d[i] else es[j].cell.data[i]
  }

  ghost predicate ExposedAt(es: seq<Entry>, pos: nat, j: nat, acc: Mask)
    requires pos < j < |es|
  {
    exists i :: i in es[j].cell.xrd && Reaches(es, pos, j, acc, i)
  }

  lemma BetweenIsSameChunk(es: seq<Entry>, pos: nat, j: nat, l: nat)
    requires Ordered(es) && pos < l < j < |es| && es[pos].chunk == es[j].chunk
    ensures es[l].chunk == es[j].chunk && es[pos].ver < es[l].ver < es[j].ver
  {
    assert Less(es[pos], es[l]) && Less(es[l], es[j]);
  }

  lemma ShadowIndex(es: seq<Entry>, cells: map<Key, Cell>, pos: nat, j: nat, c: nat, v: Version, u: Version, i: nat)
    requires Ordered(es) && Represents(es, cells) && At(es, pos, (c, v)) && pos < j < |es| - 1 && es[j].chunk == c
    requires u == es[j].ver || u == es[j].ver - 1
    ensures Shadowed(cells, c, v, u, i)
      <==> exists l :: pos < l <= j && i in es[l].cell.wr && es[l].ver <= u
  {
    if Shadowed(cells, c, v, u, i) {
      var w :| v < w <= u && (c, w) in cells && i in cells[(c, w)].wr;
      var l := KeyBetween(es, cells, pos, j, c, v, w);
    }
    if l :| pos < l <= j && i in es[l].cell.wr && es[l].ver <= u {
      IndexBetween(es, cells, pos, j, c, l);
    }
  }

  lemma KeyBetween(es: seq<Entry>, cells: map<Key, Cell>, pos: nat, j: nat, c: nat, v: Version, w: Version)
    returns (l: nat)
    requires Ordered(es) && Represents(es, cells) && At(es, pos, (c, v)) && pos < j < |es| - 1 && es[j].chunk == c
    requires v < w <= es[j].ver && (c, w) in cells
    ensures pos < l <= j && es[l].ver == w && es[l].cell == cells[(c, w)]
  {
    l :| At(es, l, (c, w));
    assert KeyOf(es[l]) in cells;
  }

  lemma IndexBetween(es: seq<Entry>, cells: map<Key, Cell>, pos: nat, j: nat, c: nat, l: nat)
    requires Ordered(es) && Represents(es, cells) && 0 < pos < l <= j < |es| - 1 && es[pos].chunk == es[j].chunk == c
    ensures es[pos].ver < es[l].ver && (c, es[l].ver) in cells && cells[(c, es[l].ver)] == es[l].cell
  {
    assert Less(es[pos], es[l]);
    if l < j {
      BetweenIsSameChunk(es, pos, j, l);
    }
    assert KeyOf(es[l]) in cells;
  }

  lemma ViolationIndex(es: seq<Entry>, cells: map<Key, Cell>, pos: nat, j: nat, c: nat, v: Version, acc: Mask)
    requires Ordered(es) && Represents(es, cells) && At(es, pos, (c, v)) && pos < j < |es| - 1 && es[j].chunk == c
    ensures Violated(cells, c, v, acc, es[j].ver) <==> ExposedAt(es, pos, j, acc)
  {
    var u := es[j].ver;
    assert Less(es[pos], es[j]);
    assert KeyOf(es[j]) in cells;
    forall i
      ensures i in acc ==> (Reaches(es, pos, j, acc, i) <==> !Shadowed(cells, c, v, u - 1, i))
    {
      if i in acc {
        ReachIndex(es, cells, pos, j, c, v, acc, i);
      }
    }
  }

  lemma ReachIndex(es: seq<Entry>, cells: map<Key, Cell>, pos: nat, j: nat, c: nat, v: Version, acc: Mask, i: nat)
    requires Ordered(es) && Represents(es, cells) && At(es, pos, (c, v)) && pos < j < |es| - 1 && es[j].chunk == c
    requires i in acc
    ensures Reaches(es, pos, j, acc, i) <==> !Shadowed(cells, c, v, es[j].ver - 1, i)
    ensures Reaches(es, pos, j + 1, acc, i) <==> !Shadowed(cells, c, v, es[j].ver, i)
  {
    ShadowIndex(es, cells, pos, j, c, v, es[j].ver - 1, i);
    ShadowIndex(es, cells, pos, j, c, v, es[j].ver, i);
    forall l | pos < l < j
      ensures es[l].ver < es[j].ver
    {
      BetweenIsSameChunk(es, pos, j, l);
    }
  }

  // Where the propagation stopped: at an exposed read, at the end of the chunk, or because every
  // byte had been written on the way.
  ghost predicate Stops(es: seq<Entry>, pos: nat, stop: nat, acc: Mask, r: Option<Version>)
    requires pos < stop < |es|
  {
    match r
    case Some(u) => es[stop].chunk == es[pos].chunk && es[stop].ver == u && ExposedAt(es, pos, stop, acc)
    case None => es[stop].chunk != es[pos].chunk || forall i :: !Reaches(es, pos, stop, acc, i)
  }

  ghost predicate Propagated(es: seq<Entry>, pos: nat, stop: nat, acc: Mask, d: Chunk, es': seq<Entry>)
    requires pos < stop < |es| == |es'|
  {
    && (forall j :: 0 <= j < |es| && !(pos <= j < stop) ==> es'[j] == es[j])
    && (forall j :: pos < j < stop ==> es[j].chunk == es[pos].chunk && KeyOf(es'[j]) == KeyOf(es[j]))
    && (forall j :: pos < j < stop ==> !ExposedAt(es, pos, j, acc) && Delivered(es, pos, j, acc, d, es'[j].cell))
  }

  // The mask that is still travelling when the propagation reaches index j.
  ghost predicate Travelling(es: seq<Entry>, pos: nat, j: nat, acc: Mask, rest: Mask)
    requires pos < j <= |es|
  {
    forall i :: i in rest <==> Reaches(es, pos, j, acc, i)
  }

  lemma ExposedMeaning(es: seq<Entry>, pos: nat, j: nat, acc: Mask, rest: Mask)
    requires pos < j < |es| && Travelling(es, pos, j, acc, rest)
    ensures ExposedAt(es, pos, j, acc) <==> rest * es[j].cell.xrd != {}
  {
    if ExposedAt(es, pos, j, acc) {
      var i :| i in es[j].cell.xrd && Reaches(es, pos, j, acc, i);
      assert i in rest * es[j].cell.xrd;
    }
    if i :| i in rest * es[j].cell.xrd {
      assert Reaches(es, pos, j, acc, i);
    }
  }

  // One step of the propagation: entry j takes the bytes it has not written itself.
  lemma PropagateOne(es: seq<Entry>, pos: nat, j: nat, acc: Mask, rest: Mask, d: Chunk, es1: seq<Entry>, es2: seq<Entry>)
    requires pos < j < |es| - 1 && |es1| == |es2| == |es| && es[j].chunk == es[pos].chunk
    requires Propagated(es, pos, j, acc, d, es1) && Travelling(es, pos, j, acc, rest)
    requires rest * es[j].cell.xrd == {}
    requires es2 == es1[j := es[j].(cell := es[j].cell.(data := Overlay(es[j].cell.data, d, rest - es[j].cell.wr)))]
    ensures Travelling(es, pos, j + 1, acc, rest - es[j].cell.wr)
    ensures Propagated(es, pos, j + 1, acc, d, es2)
  {
    ExposedMeaning(es, pos, j, acc, rest);
    forall i
      ensures i in rest - es[j].cell.wr <==> Reaches(es, pos, j + 1, acc, i)
    {
      assert i in rest <==> Reaches(es, pos, j, acc, i);
    }
    assert Delivered(es, pos, j, acc, d, es2[j].cell);
  }

  lemma PropagationReports(es: seq<Entry>, cells: map<Key, Cell>, pos: nat, stop: nat, c: nat, v: Version, acc: Mask,
                           d: Chunk, r: Option<Version>, es': seq<Entry>)
    requires Ordered(es) && Represents(es, cells) && At(es, pos, (c, v)) && c < LAST_CHUNK
    requires pos < stop < |es| == |es'| && Stops(es, pos, stop, acc, r) && Propagated(es, pos, stop, acc, d, es')
    ensures Reports(cells, c, v, acc, r)
  {
    forall u | Violated(cells, c, v, acc, u)
      ensures r.Some? && r.value <= u
    {
      var j: nat :| At(es, j, (c, u));
      ViolationIndex(es, cells, pos, j, c, v, acc);
      assert stop <= j;
      if stop < j {
        LaterIsSilent(es, pos, stop, j, acc, r);
      }
    }
    if r.Some? {
      assert stop < |es| - 1;
      ViolationIndex(es, cells, pos, stop, c, v, acc);
    }
  }

  // From the point where a silent propagation stopped, nothing arrives.
  lemma LaterIsSilent(es: seq<Entry>, pos: nat, stop: nat, j: nat, acc: Mask, r: Option<Version>)
    requires Ordered(es) && pos < stop <= j < |es| && es[j].chunk == es[pos].chunk && Stops(es, pos, stop, acc, r)
    ensures r.None? ==> forall m, i :: j <= m <= j + 1 ==> !Reaches(es, pos, m, acc, i)
    ensures r.Some? ==> r.value <= es[j].ver
  {
    if stop < j {
      BetweenIsSameChunk(es, pos, j, stop);
    }
    if r.None? {
      forall m, i | j <= m <= j + 1
        ensures Reaches(es, pos, m, acc, i) ==> Reaches(es, pos, stop, acc, i)
      {
      }
    }
  }

  lemma PropagationForwards(es: seq<Entry>, cells: map<Key, Cell>, pos: nat, stop: nat, c: nat, v: Version, acc: Mask,
                            d: Chunk, r: Option<Version>, es': seq<Entry>, j: nat)
    requires Ordered(es) && Represents(es, cells) && At(es, pos, (c, v))
    requires pos < stop < |es| == |es'| && Stops(es, pos, stop, acc, r) && Propagated(es, pos, stop, acc, d, es')
    requires pos < j < |es| - 1 && es[j].chunk == c && (r.Some? ==> es[j].ver < r.value)
    ensures KeyOf(es[j]) in cells && Forwarded(cells, c, v, acc, d, es[j].ver, es'[j].cell)
  {
    if stop <= j {
      LaterIsSilent(es, pos, stop, j, acc, r);
    }
    assert Delivered(es, pos, j, acc, d, es'[j].cell);
    forall i: nat | i < CHUNK_SIZE
      ensures i in acc ==> (Reaches(es, pos, j + 1, acc, i) <==> !Shadowed(cells, c, v, es[j].ver, i))
    {
      if i in acc {
        ReachIndex(es, cells, pos, j, c, v, acc, i);
      }
    }
  }

  lemma PropagatedKeys(es: seq<Entry>, pos: nat, stop: nat, acc: Mask, d: Chunk, es': seq<Entry>)
    requires pos < stop < |es| == |es'| && Propagated(es, pos, stop, acc, d, es') && KeyOf(es'[pos]) == KeyOf(es[pos])
    ensures forall j :: 0 <= j < |es| ==> KeyOf(es'[j]) == KeyOf(es[j])
  {
  }

  ghost function IndexOf(es: seq<Entry>, cells: map<Key, Cell>, k: Key): (j: nat)
    requires Represents(es, cells) && k in cells
    ensures At(es, j, k)
  {
    var j: nat :| At(es, j, k);
    j
  }

  lemma SameKeySameIndex(es: seq<Entry>, j: nat, l: nat)
    requires Ordered(es) && j < |es| && l < |es| && KeyOf(es[j]) == KeyOf(es[l])
    ensures j == l
  {
  }

  lemma RekeyedOrder(es: seq<Entry>, es': seq<Entry>)
    requires Ordered(es) && |es'| == |es| && forall j :: 0 <= j < |es| ==> KeyOf(es'[j]) == KeyOf(es[j])
    ensures Ordered(es')
  {
    forall j, k | 0 <= j < k < |es|
      ensures Less(es'[j], es'[k])
    {
      assert Less(es[j], es[k]) && KeyOf(es'[j]) == KeyOf(es[j]) && KeyOf(es'[k]) == KeyOf(es[k]);
    }
  }

  // The cells of a set that has new contents under the old keys.
  lemma Rekeyed(es: seq<Entry>, cells: map<Key, Cell>, es': seq<Entry>) returns (cells': map<Key, Cell>)
    requires Ordered(es) && Represents(es, cells)
    requires |es'| == |es| && forall j :: 0 <= j < |es| ==> KeyOf(es'[j]) == KeyOf(es[j])
    ensures Ordered(es') && Represents(es', cells') && cells'.Keys == cells.Keys
  {
    cells' := map k | k in cells :: es'[IndexOf(es, cells, k)].cell;
    RekeyedOrder(es, es');
    RekeyedRepresents(es, cells, es', cells');
  }

  lemma RekeyedRepresents(es: seq<Entry>, cells: map<Key, Cell>, es': seq<Entry>, cells': map<Key, Cell>)
    requires Ordered(es) && Represents(es, cells)
    requires |es'| == |es| && forall j :: 0 <= j < |es| ==> KeyOf(es'[j]) == KeyOf(es[j])
    requires cells'.Keys == cells.Keys && forall k :: k in cells ==> cells'[k] == es'[IndexOf(es, cells, k)].cell
    ensures Represents(es', cells')
  {
    forall j: nat | 0 < j < |es'| - 1
      ensures KeyOf(es'[j]) in cells' && cells'[KeyOf(es'[j])] == es'[j].cell
    {
      assert KeyOf(es[j]) in cells;
      SameKeySameIndex(es, j, IndexOf(es, cells, KeyOf(es[j])));
    }
    assert forall k :: k in cells' ==> At(es', IndexOf(es, cells, k), k);
  }

  // What the propagation leaves of the entry at j.
  lemma PropagationAt(es: seq<Entry>, cells: map<Key, Cell>, pos: nat, stop: nat, c: nat, v: Version, acc: Mask,
                      d: Chunk, r: Option<Version>, es': seq<Entry>, j: nat)
    requires Ordered(es) && Represents(es, cells) && At(es, pos, (c, v))
    requires pos < stop < |es| == |es'| && Stops(es, pos, stop, acc, r) && Propagated(es, pos, stop, acc, d, es')
    requires 0 < j < |es| - 1 && KeyOf(es[j]) != (c, v)
    ensures KeyOf(es[j]) in cells
    ensures if es[j].chunk != c || es[j].ver < v then es'[j].cell == es[j].cell
            else r.None? || es[j].ver < r.value ==> Forwarded(cells, c, v, acc, d, es[j].ver, es'[j].cell)
  {
    OtherKey(es, pos, j);
    CellAt(es, cells, j);
    if es[j].chunk != c || es[j].ver < v {
      UntouchedEntry(es, pos, stop, acc, d, es', j);
    } else if r.None? || es[j].ver < r.value {
      PropagationForwards(es, cells, pos, stop, c, v, acc, d, r, es', j);
    }
  }

  lemma PropagationOthers(es: seq<Entry>, cells: map<Key, Cell>, pos: nat, stop: nat, c: nat, v: Version, acc: Mask,
                           d: Chunk, r: Option<Version>, es': seq<Entry>, cells': map<Key, Cell>)
    requires Ordered(es) && Represents(es, cells) && At(es, pos, (c, v))
    requires pos < stop < |es| == |es'| && Stops(es, pos, stop, acc, r) && Propagated(es, pos, stop, acc, d, es')
    requires (forall j :: 0 <= j < |es| ==> KeyOf(es'[j]) == KeyOf(es[j])) && Represents(es', cells') && cells'.Keys == cells.Keys
    ensures OtherCells(cells, c, v, acc, d, r, cells')
  {
    forall k | k in cells && k != (c, v)
      ensures if k.0 != c || k.1 < v then cells'[k] == cells[k]
              else r.None? || k.1 < r.value ==> Forwarded(cells, c, v, acc, d, k.1, cells'[k])
    {
      var j: nat :| At(es, j, k);
      PropagationAt(es, cells, pos, stop, c, v, acc, d, r, es', j);
      CellAt(es, cells, j);
      CellAt(es', cells', j);
    }
  }

  lemma CellAt(es: seq<Entry>, cells: map<Key, Cell>, j: nat)
    requires Represents(es, cells) && 0 < j < |es| - 1
    ensures KeyOf(es[j]) in cells && cells[KeyOf(es[j])] == es[j].cell
  {
  }

  // Entries of other chunks and of older versions are as they were.
  lemma UntouchedEntry(es: seq<Entry>, pos: nat, stop: nat, acc: Mask, d: Chunk, es': seq<Entry>, j: nat)
    requires Ordered(es) && pos < stop < |es| == |es'| && Propagated(es, pos, stop, acc, d, es') && j < |es| && j != pos
    requires es[j].chunk != es[pos].chunk || es[j].ver < es[pos].ver
    ensures es'[j] == es[j]
  {
    OtherKey(es, pos, j);
  }

  lemma OtherKey(es: seq<Entry>, pos: nat, j: nat)
    requires Ordered(es) && pos < |es| && j < |es|
    ensures (j < pos ==> Less(es[j], es[pos])) && (pos < j ==> Less(es[pos], es[j]))
  {
  }

  // The propagation along the set, together with the store into the writer's own entry, is a store.
  lemma PropagationIsStore(es: seq<Entry>, cells: map<Key, Cell>, pos: nat, stop: nat, c: nat, v: Version, acc: Mask,
                           d: Chunk, r: Option<Version>, es': seq<Entry>) returns (cells': map<Key, Cell>)
    requires Ordered(es) && Represents(es, cells) && At(es, pos, (c, v)) && c < LAST_CHUNK
    requires pos < stop < |es| == |es'| && Stops(es, pos, stop, acc, r) && Propagated(es, pos, stop, acc, d, es')
    requires KeyOf(es'[pos]) == KeyOf(es[pos])
    ensures Ordered(es') && Represents(es', cells')
    ensures cells'.Keys == cells.Keys && cells'[(c, v)] == es'[pos].cell
    ensures Reports(cells, c, v, acc, r) && OtherCells(cells, c, v, acc, d, r, cells')
  {
    PropagatedKeys(es, pos, stop, acc, d, es');
    cells' := Rekeyed(es, cells, es');
    CellAt(es', cells', pos);
    PropagationReports(es, cells, pos, stop, c, v, acc, d, r, es');
    PropagationOthers(es, cells, pos, stop, c, v, acc, d, r, es', cells');
  }
}
