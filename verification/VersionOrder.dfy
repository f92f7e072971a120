/**
 The order of task versions. Versions stand in a list and each owns an interval of numbers
 [base, maxi); comparing two versions means comparing bases. The list is cut up as versions spawn
 successors, stretched when an interval is exhausted and closed up when versions go away. This
 module gives these operations on lists of nodes and proves that the list order and the base
 order never part. An operation at a version is a function of the list from that version on.
 */
module VersionOrder {

  const RECLAIM: nat := 268435456

  // A version `id` with its interval.
  datatype Node<T> = Node(id: T, base: int, maxi: int) {
    function Length(): int { maxi - base }
  }

  ghost predicate Sound<T>(v: Node<T>) {
    0 < v.Length() <= RECLAIM
  }

  // Intervals are nonempty, not longer than RECLAIM, and each ends before the next begins.
  ghost predicate Chain<T>(vs: seq<Node<T>>) {
    vs != [] ==>
      && Sound(vs[0])
      && (|vs| > 1 ==> vs[0].maxi <= vs[1].base)
      && Chain(vs[1..])
  }

  function Ids<T>(vs: seq<Node<T>>): (r: seq<T>)
    ensures |r| == |vs|
  {
    if vs == [] then [] else [vs[0].id] + Ids(vs[1..])
  }

  lemma {:induction false} ChainAppend<T>(a: seq<Node<T>>, b: seq<Node<T>>)
    ensures Chain(a + b) <==> Chain(a) && Chain(b) && (a != [] && b != [] ==> a[|a| - 1].maxi <= b[0].base)
    ensures Ids(a + b) == Ids(a) + Ids(b)
  {
    if a == [] {
      assert a + b == b;
    } else {
      assert (a + b)[1..] == a[1..] + b;
      ChainAppend(a[1..], b);
    }
  }

  lemma ConsChain<T>(v: Node<T>, rest: seq<Node<T>>)
    requires Sound(v) && Chain(rest) && (rest != [] ==> v.maxi <= rest[0].base)
    ensures Chain([v] + rest) && Ids([v] + rest) == [v.id] + Ids(rest)
  {
    assert ([v] + rest)[1..] == rest;
  }

  // In a chain the bases increase strictly along the list.
  lemma {:induction false} ListOrderIsBaseOrder<T>(vs: seq<Node<T>>, j: nat, k: nat)
    requires Chain(vs) && j < k < |vs|
    ensures vs[j].maxi <= vs[k].base && vs[j].base < vs[k].base
  {
    if j > 0 {
      ListOrderIsBaseOrder(vs[1..], j - 1, k - 1);
    } else if k > 1 {
      ListOrderIsBaseOrder(vs[1..], 0, k - 1);
    }
  }

  lemma {:induction false} SoundAt<T>(vs: seq<Node<T>>, j: nat)
    requires Chain(vs) && j < |vs|
    ensures Sound(vs[j])
  {
    if j > 0 {
      SoundAt(vs[1..], j - 1);
    }
  }

  // ---------- stretching: claim ----------

  // A version when the one before it has grown by skip numbers, and by how much it grows itself: it
  // moves up and gives away up to half of its interval; the last version moves and is refilled.
  function Pushed<T>(n: Node<T>, last: bool, skip: int): (Node<T>, int) {
    var available := n.Length() / 2;
    if last then (n.(base := n.base + skip, maxi := n.base + skip + RECLAIM), skip)
    else if available > skip then (n.(base := n.base + skip), 0)
    else (n.(base := n.base + skip, maxi := n.maxi + (skip - available)), skip - available)
  }

  function Claimed<T>(rest: seq<Node<T>>, skip: int): (r: seq<Node<T>>)
    ensures |r| == |rest|
  {
    if rest == [] || skip <= 0 then rest
    else
      var (n, more) := Pushed(rest[0], |rest| == 1, skip);
      [n] + Claimed(rest[1..], more)
  }

  // The first version of the list claims a full interval.
  function Claim<T>(vs: seq<Node<T>>): (r: seq<Node<T>>)
    requires vs != []
    ensures |r| == |vs|
  {
    [vs[0].(maxi := vs[0].base + RECLAIM)] + Claimed(vs[1..], RECLAIM - vs[0].Length())
  }

  lemma {:induction false} ClaimedKeepsChain<T>(rest: seq<Node<T>>, skip: int)
    requires Chain(rest) && 0 <= skip
    ensures Chain(Claimed(rest, skip)) && Ids(Claimed(rest, skip)) == Ids(rest)
    ensures rest != [] ==> Claimed(rest, skip)[0].base == rest[0].base + skip
  {
    if rest != [] && 0 < skip {
      ClaimedKeepsChain(rest[1..], Pushed(rest[0], |rest| == 1, skip).1);
    }
  }

  // Nobody moves down, and every interval keeps at least half of its length.
  lemma {:induction false} ClaimedIsFair<T>(rest: seq<Node<T>>, skip: int, j: nat)
    requires Chain(rest) && 0 <= skip && j < |rest|
    ensures Claimed(rest, skip)[j].base >= rest[j].base
    ensures Claimed(rest, skip)[j].Length() >= rest[j].Length() - rest[j].Length() / 2
  {
    SoundAt(rest, j);
    if 0 < skip && j > 0 {
      ClaimedIsFair(rest[1..], Pushed(rest[0], |rest| == 1, skip).1, j - 1);
    }
  }

  lemma ClaimKeepsChain<T>(vs: seq<Node<T>>)
    requires Chain(vs) && vs != []
    ensures Chain(Claim(vs)) && Ids(Claim(vs)) == Ids(vs)
    ensures Claim(vs)[0] == vs[0].(maxi := vs[0].base + RECLAIM)
  {
    var head, rest := vs[0].(maxi := vs[0].base + RECLAIM), Claimed(vs[1..], RECLAIM - vs[0].Length());
    ClaimedKeepsChain(vs[1..], RECLAIM - vs[0].Length());
    assert rest != [] ==> head.maxi <= rest[0].base;
    ConsChain(head, rest);
    assert Claim(vs) == [head] + rest;
  }

  // ---------- closing up: release ----------

  // The versions behind one that has shrunk by overflow numbers move down; each may grow to RECLAIM.
  function Pulled<T>(n: Node<T>, overflow: int): (Node<T>, int) {
    var space := RECLAIM - n.Length();
    var left := if space < overflow then overflow - space else 0;
    (n.(base := n.base - overflow, maxi := n.maxi - left), left)
  }

  function Released<T>(rest: seq<Node<T>>, overflow: int): (r: seq<Node<T>>)
    ensures |r| == |rest|
  {
    if rest == [] || overflow <= 0 then rest
    else
      var (n, left) := Pulled(rest[0], overflow);
      [n] + Released(rest[1..], left)
  }

  lemma {:induction false} ReleasedKeepsChain<T>(rest: seq<Node<T>>, overflow: int)
    requires Chain(rest) && 0 <= overflow
    ensures Chain(Released(rest, overflow)) && Ids(Released(rest, overflow)) == Ids(rest)
    ensures rest != [] ==> Released(rest, overflow)[0].base == rest[0].base - overflow
  {
    if rest != [] && 0 < overflow {
      ReleasedKeepsChain(rest[1..], Pulled(rest[0], overflow).1);
    }
  }

  // Nobody moves up, and no interval shrinks or exceeds RECLAIM.
  lemma {:induction false} ReleasedIsFair<T>(rest: seq<Node<T>>, overflow: int, j: nat)
    requires Chain(rest) && 0 <= overflow && j < |rest|
    ensures Released(rest, overflow)[j].base <= rest[j].base
    ensures rest[j].Length() <= Released(rest, overflow)[j].Length() <= RECLAIM
  {
    SoundAt(rest, j);
    if 0 < overflow && j > 0 {
      ReleasedIsFair(rest[1..], Pulled(rest[0], overflow).1, j - 1);
    }
  }

  // ---------- a version goes away ----------

  // The first version of the list takes over the numbers up to the next one, and gives back what
  // exceeds RECLAIM.
  function Readjust<T>(vs: seq<Node<T>>): (r: seq<Node<T>>)
    requires vs != []
    ensures |r| == |vs|
  {
    var v := vs[0];
    var overflow := if |vs| == 1 then 0 else vs[1].base - v.base - RECLAIM;
    var maxi := if |vs| == 1 || overflow > 0 then v.base + RECLAIM else vs[1].base;
    [v.(maxi := maxi)] + Released(vs[1..], overflow)
  }

  lemma ReadjustKeepsChain<T>(vs: seq<Node<T>>)
    requires Chain(vs) && vs != []
    ensures Chain(Readjust(vs)) && Ids(Readjust(vs)) == Ids(vs) && Readjust(vs)[0].base == vs[0].base
    ensures |vs| > 1 ==> Readjust(vs)[0].maxi == Readjust(vs)[1].base
  {
    if |vs| > 1 {
      var overflow := vs[1].base - vs[0].base - RECLAIM;
      if overflow > 0 {
        ReleasedKeepsChain(vs[1..], overflow);
      }
    }
  }

  // ---------- a new version ----------

  // The share of the parent's interval that stays with the parent, one of those the code can pick.
  ghost predicate Share(length: int, prange: int) {
    if length <= 4 then prange == length / 2
    else if length <= 64 then prange == length / 4
    else prange == length / 4 || prange == length / 16 || prange == length / 32 || prange == length / 64
  }

  // The parent is made ready: the newest version gets a full interval, an exhausted one claims.
  function Prepared<T>(vs: seq<Node<T>>): (r: seq<Node<T>>)
    requires vs != []
    ensures |r| == |vs|
  {
    var v := vs[0];
    if |vs| == 1 then [v.(maxi := v.base + RECLAIM)]
    else if v.Length() < 2 then Claim(vs)
    else vs
  }

  // The successor stands right behind its parent and takes the rest of its interval.
  function Spawned<T>(vs: seq<Node<T>>, id: T, prange: int): seq<Node<T>>
    requires vs != []
  {
    var v := vs[0];
    if |vs| == 1 then [v, Node(id, v.maxi, v.maxi + RECLAIM)]
    else [v.(maxi := v.base + prange)] + ([Node(id, v.base + prange, v.maxi)] + vs[1..])
  }

  lemma PreparedKeepsChain<T>(vs: seq<Node<T>>)
    requires Chain(vs) && vs != []
    ensures Chain(Prepared(vs)) && Ids(Prepared(vs)) == Ids(vs)
    ensures Prepared(vs)[0].base == vs[0].base && Prepared(vs)[0].Length() >= 2
  {
    ClaimKeepsChain(vs);
  }

  lemma SpawnedKeepsChain<T>(vs: seq<Node<T>>, id: T, prange: int)
    requires Chain(vs) && |vs| > 1 && vs[0].Length() >= 2 && Share(vs[0].Length(), prange)
    ensures var r := Spawned(vs, id, prange);
      Chain(r) && Ids(r) == [vs[0].id] + ([id] + Ids(vs[1..])) && r[0].base == vs[0].base
  {
    var v, rest := vs[0], vs[1..];
    var parent, kid := v.(maxi := v.base + prange), Node(id, v.base + prange, v.maxi);
    ConsChain(kid, rest);
    ConsChain(parent, [kid] + rest);
  }

  // ---------- renumbering ----------

  function Shift1<T>(v: Node<T>, minBase: int): Node<T> {
    v.(base := v.base - minBase, maxi := v.maxi - minBase)
  }

  function Shifted<T>(vs: seq<Node<T>>, minBase: int): (r: seq<Node<T>>)
    ensures |r| == |vs|
  {
    if vs == [] then [] else [Shift1(vs[0], minBase)] + Shifted(vs[1..], minBase)
  }

  lemma ShiftedAt<T>(vs: seq<Node<T>>, minBase: int, j: nat)
    requires j < |vs|
    ensures Shifted(vs, minBase)[j] == Shift1(vs[j], minBase)
  {
    if j > 0 {
      ShiftedAt(vs[1..], minBase, j - 1);
    }
  }

  lemma {:induction false} ShiftedKeepsChain<T>(vs: seq<Node<T>>, minBase: int)
    requires Chain(vs)
    ensures Chain(Shifted(vs, minBase)) && Ids(Shifted(vs, minBase)) == Ids(vs)
  {
    if vs != [] {
      ShiftedKeepsChain(vs[1..], minBase);
      assert Shifted(vs, minBase)[1..] == Shifted(vs[1..], minBase);
    }
  }

  // ---------- whole lists and runs ----------

  datatype Step<T> =
    | Spawn(parent: nat, id: T, prange: int)
    | Collect(at: nat)
    | Dequeue(at: nat)
    | Shift(minBase: int)

  function Without<T>(s: seq<T>, k: nat): seq<T>
    requires k < |s|
  {
    s[..k] + s[k + 1..]
  }

  // The list after version k has gone: its numbers fall to the version before it.
  function Collected<T>(vs: seq<Node<T>>, k: nat): seq<Node<T>>
    requires k < |vs|
  {
    if k == 0 then vs[1..] else vs[..k - 1] + Readjust([vs[k - 1]] + vs[k + 1..])
  }

  ghost predicate Next<T>(vs: seq<Node<T>>, step: Step<T>, vs': seq<Node<T>>) {
    match step
    case Spawn(k, id, prange) =>
      && k < |vs| && id !in Ids(vs)
      && (k + 1 < |vs| ==> Share(Prepared(vs[k..])[0].Length(), prange))
      && vs' == vs[..k] + Spawned(Prepared(vs[k..]), id, prange)
    case Collect(k) => k < |vs| && vs' == Collected(vs, k)
    case Dequeue(k) => k < |vs| && vs' == vs[..k] + vs[k + 1..]
    case Shift(m) => vs' == Shifted(vs, m)
  }

  // The ids after the step: one inserted behind its parent, one removed, or the same.
  ghost predicate IdsAfter<T>(ids: seq<T>, step: Step<T>, ids': seq<T>) {
    match step
    case Spawn(k, id, prange) => k < |ids| && ids' == ids[..k + 1] + [id] + ids[k + 1..]
    case Collect(k) => k < |ids| && ids' == ids[..k] + ids[k + 1..]
    case Dequeue(k) => k < |ids| && ids' == ids[..k] + ids[k + 1..]
    case Shift(_) => ids' == ids
  }

  lemma SplitAt<T>(s: seq<T>, k: nat)
    requires k <= |s|
    ensures s == s[..k] + s[k..]
  {
  }

  // Replacing the list from version k on.
  lemma ReplaceTail<T>(front: seq<Node<T>>, tail: seq<Node<T>>, tail': seq<Node<T>>)
    requires Chain(front + tail) && tail != [] && tail' != [] && Chain(tail') && tail[0].base <= tail'[0].base
    ensures Chain(front + tail') && Ids(front + tail') == Ids(front) + Ids(tail')
  {
    ChainAppend(front, tail);
    ChainAppend(front, tail');
  }

  lemma IdAt<T>(vs: seq<Node<T>>, j: nat)
    requires j < |vs|
    ensures Ids(vs)[j] == vs[j].id
  {
    if j > 0 {
      IdAt(vs[1..], j - 1);
    }
  }

  lemma SpawnKeepsChain<T>(vs: seq<Node<T>>, k: nat, id: T, prange: int, vs': seq<Node<T>>)
    requires Chain(vs) && Next(vs, Spawn(k, id, prange), vs')
    ensures Chain(vs') && IdsAfter(Ids(vs), Spawn(k, id, prange), Ids(vs'))
  {
    var front, tail := vs[..k], vs[k..];
    SplitAt(vs, k);
    ChainAppend(front, tail);
    PreparedKeepsChain(tail);
    var p := Prepared(tail);
    if |tail| > 1 {
      SpawnedKeepsChain(p, id, prange);
    } else {
      NewestSpawn(p, id, prange);
    }
    ReplaceTail(front, tail, Spawned(p, id, prange));
    SpawnIds(Ids(front), Ids(p), id);
    assert Ids(p)[1..] == Ids(p[1..]);
  }

  lemma NewestSpawn<T>(p: seq<Node<T>>, id: T, prange: int)
    requires Chain(p) && |p| == 1
    ensures var r := Spawned(p, id, prange);
      Chain(r) && Ids(r) == [p[0].id] + ([id] + Ids(p[1..])) && r[0].base == p[0].base
  {
    var r := Spawned(p, id, prange);
    assert r[1..] == [Node(id, p[0].maxi, p[0].maxi + RECLAIM)];
    assert Chain(r[1..]);
  }

  lemma SpawnIds<T>(a: seq<T>, b: seq<T>, id: T)
    requires b != []
    ensures (a + b)[..|a| + 1] + [id] + (a + b)[|a| + 1..] == a + ([b[0]] + ([id] + b[1..]))
  {
  }

  lemma DequeueKeepsChain<T>(vs: seq<Node<T>>, k: nat)
    requires Chain(vs) && k < |vs|
    ensures Chain(vs[..k] + vs[k + 1..]) && Ids(vs[..k] + vs[k + 1..]) == Ids(vs)[..k] + Ids(vs)[k + 1..]
  {
    SplitAt(vs, k);
    ChainAppend(vs[..k], vs[k..]);
    assert vs[k..][1..] == vs[k + 1..];
    ChainAppend(vs[..k], vs[k + 1..]);
    if 0 < k < |vs| - 1 {
      ListOrderIsBaseOrder(vs, k - 1, k + 1);
    }
    DropId(Ids(vs[..k]), Ids(vs[k..]));
  }

  lemma CollectKeepsChain<T>(vs: seq<Node<T>>, k: nat)
    requires Chain(vs) && k < |vs|
    ensures Chain(Collected(vs, k)) && Ids(Collected(vs, k)) == Ids(vs)[..k] + Ids(vs)[k + 1..]
  {
    DequeueKeepsChain(vs, k);
    if k == 0 {
      assert vs[..0] + vs[1..] == vs[1..];
    } else {
      Regroup(vs, k);
      ReadjustInside(vs[..k - 1], [vs[k - 1]] + vs[k + 1..]);
    }
  }

  lemma Regroup<T>(s: seq<T>, k: nat)
    requires 0 < k < |s|
    ensures s[..k] + s[k + 1..] == s[..k - 1] + ([s[k - 1]] + s[k + 1..])
  {
  }

  lemma ReadjustInside<T>(front: seq<Node<T>>, tail: seq<Node<T>>)
    requires Chain(front + tail) && tail != []
    ensures Chain(front + Readjust(tail)) && Ids(front + Readjust(tail)) == Ids(front + tail)
  {
    ChainAppend(front, tail);
    ReadjustKeepsChain(tail);
    ReplaceTail(front, tail, Readjust(tail));
  }

  lemma DropId<T>(a: seq<T>, b: seq<T>)
    requires b != []
    ensures (a + b)[..|a|] + (a + b)[|a| + 1..] == a + b[1..]
  {
  }

  lemma StepKeepsChain<T>(vs: seq<Node<T>>, step: Step<T>, vs': seq<Node<T>>)
    requires Chain(vs) && Next(vs, step, vs')
    ensures Chain(vs') && IdsAfter(Ids(vs), step, Ids(vs'))
  {
    match step
    case Spawn(k, id, prange) => SpawnKeepsChain(vs, k, id, prange, vs');
    case Collect(k) => CollectKeepsChain(vs, k);
    case Dequeue(k) => DequeueKeepsChain(vs, k);
    case Shift(m) => ShiftedKeepsChain(vs, m);
  }

  // ---------- comparisons are stable ----------

  // The comparison of two versions: by base.
  ghost predicate LessThan<T>(vs: seq<Node<T>>, x: T, y: T) {
    exists j, k :: 0 <= j < |vs| && 0 <= k < |vs| && vs[j].id == x && vs[k].id == y && vs[j].base < vs[k].base
  }

  ghost predicate Precedes<T>(ids: seq<T>, x: T, y: T) {
    exists j, k :: 0 <= j < k < |ids| && ids[j] == x && ids[k] == y
  }

  lemma ComparisonIsListOrder<T>(vs: seq<Node<T>>, x: T, y: T)
    requires Chain(vs)
    ensures LessThan(vs, x, y) <==> Precedes(Ids(vs), x, y)
  {
    forall j | 0 <= j < |vs|
      ensures Ids(vs)[j] == vs[j].id
    {
      IdAt(vs, j);
    }
    if LessThan(vs, x, y) {
      var j, k :| 0 <= j < |vs| && 0 <= k < |vs| && vs[j].id == x && vs[k].id == y && vs[j].base < vs[k].base;
      if k < j {
        ListOrderIsBaseOrder(vs, k, j);
      }
      assert Ids(vs)[j] == x && Ids(vs)[k] == y;
    }
    if Precedes(Ids(vs), x, y) {
      var j, k :| 0 <= j < k < |vs| && Ids(vs)[j] == x && Ids(vs)[k] == y;
      ListOrderIsBaseOrder(vs, j, k);
      assert vs[j].id == x && vs[k].id == y;
    }
  }

  lemma InsertPrecedes<T>(a: seq<T>, z: T, b: seq<T>, x: T, y: T)
    requires z != x && z != y
    ensures Precedes(a + [z] + b, x, y) <==> Precedes(a + b, x, y)
  {
    var r, s := a + [z] + b, a + b;
    forall j | 0 <= j < |s|
      ensures s[j] == r[if j < |a| then j else j + 1]
    {
    }
    if Precedes(s, x, y) {
      var j, k :| 0 <= j < k < |s| && s[j] == x && s[k] == y;
      assert r[if j < |a| then j else j + 1] == x && r[if k < |a| then k else k + 1] == y;
    }
    if Precedes(r, x, y) {
      var j, k :| 0 <= j < k < |r| && r[j] == x && r[k] == y;
      assert s[if j < |a| then j else j - 1] == x && s[if k < |a| then k else k - 1] == y;
    }
  }

  ghost predicate NoDuplicates<T>(ids: seq<T>) {
    forall j, k :: 0 <= j < k < |ids| ==> ids[j] != ids[k]
  }

  lemma IdsStayDistinct<T>(ids: seq<T>, step: Step<T>, ids': seq<T>)
    requires IdsAfter(ids, step, ids') && NoDuplicates(ids)
    requires step.Spawn? ==> step.id !in ids
    ensures NoDuplicates(ids')
  {
  }

  lemma StepKeepsOrder<T>(vs: seq<Node<T>>, step: Step<T>, vs': seq<Node<T>>, x: T, y: T)
    requires Chain(vs) && Next(vs, step, vs')
    requires x in Ids(vs) && y in Ids(vs) && NoDuplicates(Ids(vs)) && x in Ids(vs') && y in Ids(vs')
    ensures LessThan(vs', x, y) <==> LessThan(vs, x, y)
  {
    StepKeepsChain(vs, step, vs');
    ComparisonIsListOrder(vs, x, y);
    ComparisonIsListOrder(vs', x, y);
    match step
    case Spawn(k, id, prange) =>
      SplitAt(Ids(vs), k + 1);
      InsertPrecedes(Ids(vs)[..k + 1], id, Ids(vs)[k + 1..], x, y);
    case Collect(k) => RemoveKeepsOrder(Ids(vs), k, x, y);
    case Dequeue(k) => RemoveKeepsOrder(Ids(vs), k, x, y);
    case Shift(_) =>
  }

  lemma RemoveKeepsOrder<T>(ids: seq<T>, k: nat, x: T, y: T)
    requires k < |ids| && NoDuplicates(ids)
    requires x in ids[..k] + ids[k + 1..] && y in ids[..k] + ids[k + 1..]
    ensures Precedes(ids[..k] + ids[k + 1..], x, y) <==> Precedes(ids, x, y)
  {
    var r := ids[..k] + ids[k + 1..];
    assert ids == ids[..k] + [ids[k]] + ids[k + 1..];
    assert forall j :: 0 <= j < |r| ==> r[j] == ids[if j < k then j else j + 1];
    InsertPrecedes(ids[..k], ids[k], ids[k + 1..], x, y);
  }

  ghost predicate IsRun<T>(states: seq<seq<Node<T>>>, steps: seq<Step<T>>) {
    && |states| == |steps| + 1
    && Chain(states[0]) && NoDuplicates(Ids(states[0]))
    && forall i :: 0 <= i < |steps| ==> Next(states[i], steps[i], states[i + 1])
  }

  // At every point of a run intervals are sound and list order is base order.
  lemma {:induction false} EveryRunKeepsChain<T>(states: seq<seq<Node<T>>>, steps: seq<Step<T>>)
    requires IsRun(states, steps)
    ensures Chain(states[|steps|]) && NoDuplicates(Ids(states[|steps|]))
  {
    var n := |steps|;
    if n > 0 {
      EveryRunKeepsChain(states[..n], steps[..n - 1]);
      StepKeepsChain(states[n - 1], steps[n - 1], states[n]);
      IdsStayDistinct(Ids(states[n - 1]), steps[n - 1], Ids(states[n]));
    }
  }

  /** The comparison of two versions that are there all along never changes, although their bases
      do: at any time it says which of them comes first in the list. */
  lemma {:induction false} ComparisonsAreStable<T>(states: seq<seq<Node<T>>>, steps: seq<Step<T>>, x: T, y: T)
    requires IsRun(states, steps)
    requires forall i :: 0 <= i < |states| ==> x in Ids(states[i]) && y in Ids(states[i])
    ensures LessThan(states[|steps|], x, y) <==> Precedes(Ids(states[|steps|]), x, y)
    ensures LessThan(states[|steps|], x, y) <==> LessThan(states[0], x, y)
  {
    var n := |steps|;
    EveryRunKeepsChain(states, steps);
    ComparisonIsListOrder(states[n], x, y);
    if n > 0 {
      EveryRunKeepsChain(states[..n], steps[..n - 1]);
      ComparisonsAreStable(states[..n], steps[..n - 1], x, y);
      StepKeepsOrder(states[n - 1], steps[n - 1], states[n], x, y);
    }
  }

  // ---------- no gaps ----------

  // Every interval ends where the next one begins.
  ghost predicate Tight<T>(vs: seq<Node<T>>) {
    vs != [] ==>
      && Sound(vs[0])
      && (|vs| > 1 ==> vs[0].maxi == vs[1].base)
      && Tight(vs[1..])
  }

  lemma {:induction false} TightIsChain<T>(vs: seq<Node<T>>)
    requires Tight(vs)
    ensures Chain(vs)
  {
    if vs != [] {
      TightIsChain(vs[1..]);
    }
  }

  lemma {:induction false} TightHasNoGap<T>(vs: seq<Node<T>>, j: nat, k: nat)
    requires Tight(vs) && k == j + 1 < |vs|
    ensures vs[j].maxi == vs[k].base
  {
    if j > 0 {
      TightHasNoGap(vs[1..], j - 1, k - 1);
    }
  }

  lemma {:induction false} TightAppend<T>(a: seq<Node<T>>, b: seq<Node<T>>)
    ensures Tight(a + b) <==> Tight(a) && Tight(b) && (a != [] && b != [] ==> a[|a| - 1].maxi == b[0].base)
  {
    if a == [] {
      assert a + b == b;
    } else {
      assert (a + b)[1..] == a[1..] + b;
      TightAppend(a[1..], b);
    }
  }

  lemma ConsTight<T>(v: Node<T>, rest: seq<Node<T>>)
    requires Sound(v) && Tight(rest) && (rest != [] ==> v.maxi == rest[0].base)
    ensures Tight([v] + rest)
  {
    assert ([v] + rest)[1..] == rest;
  }

  lemma {:induction false} ClaimedKeepsTight<T>(rest: seq<Node<T>>, skip: int)
    requires Tight(rest) && 0 <= skip
    ensures Tight(Claimed(rest, skip)) && (rest != [] ==> Claimed(rest, skip)[0].base == rest[0].base + skip)
  {
    if rest != [] && 0 < skip {
      var (n, more) := Pushed(rest[0], |rest| == 1, skip);
      ClaimedKeepsTight(rest[1..], more);
      ConsTight(n, Claimed(rest[1..], more));
    }
  }

  lemma {:induction false} ReleasedKeepsTight<T>(rest: seq<Node<T>>, overflow: int)
    requires Tight(rest) && 0 <= overflow
    ensures Tight(Released(rest, overflow)) && (rest != [] ==> Released(rest, overflow)[0].base == rest[0].base - overflow)
  {
    if rest != [] && 0 < overflow {
      var (n, left) := Pulled(rest[0], overflow);
      ReleasedKeepsTight(rest[1..], left);
      ConsTight(n, Released(rest[1..], left));
    }
  }

  lemma ClaimKeepsTight<T>(vs: seq<Node<T>>)
    requires Tight(vs) && vs != []
    ensures Tight(Claim(vs)) && Claim(vs)[0].base == vs[0].base
  {
    ClaimedKeepsTight(vs[1..], RECLAIM - vs[0].Length());
    ConsTight(vs[0].(maxi := vs[0].base + RECLAIM), Claimed(vs[1..], RECLAIM - vs[0].Length()));
  }

  // Readjusting closes the only gap, the one behind the first version.
  lemma ReadjustGivesTight<T>(vs: seq<Node<T>>)
    requires vs != [] && Sound(vs[0]) && Tight(vs[1..]) && (|vs| > 1 ==> vs[0].maxi <= vs[1].base)
    ensures Tight(Readjust(vs)) && Readjust(vs)[0].base == vs[0].base
  {
    if |vs| > 1 {
      var overflow := vs[1].base - vs[0].base - RECLAIM;
      ReleasedKeepsTight(vs[1..], if overflow > 0 then overflow else 0);
      assert overflow <= 0 ==> Released(vs[1..], overflow) == vs[1..];
      ConsTight(Readjust(vs)[0], Released(vs[1..], overflow));
    }
  }

  lemma SpawnedKeepsTight<T>(vs: seq<Node<T>>, id: T, prange: int)
    requires Tight(vs) && vs != [] && vs[0].Length() >= 2 && (|vs| > 1 ==> Share(vs[0].Length(), prange))
    ensures Tight(Spawned(vs, id, prange)) && Spawned(vs, id, prange)[0].base == vs[0].base
  {
    var v := vs[0];
    if |vs| == 1 {
      ConsTight(Node(id, v.maxi, v.maxi + RECLAIM), []);
      ConsTight(v, [Node(id, v.maxi, v.maxi + RECLAIM)]);
      assert [v] + [Node(id, v.maxi, v.maxi + RECLAIM)] == Spawned(vs, id, prange);
    } else {
      var kid := Node(id, v.base + prange, v.maxi);
      ConsTight(kid, vs[1..]);
      ConsTight(v.(maxi := v.base + prange), [kid] + vs[1..]);
    }
  }

  lemma PreparedKeepsTight<T>(vs: seq<Node<T>>)
    requires Tight(vs) && vs != []
    ensures Tight(Prepared(vs)) && Prepared(vs)[0].base == vs[0].base && Prepared(vs)[0].Length() >= 2
  {
    ClaimKeepsTight(vs);
    assert Claim(vs)[0].Length() == RECLAIM;
  }

  lemma SpawnKeepsTight<T>(vs: seq<Node<T>>, k: nat, id: T, prange: int, vs': seq<Node<T>>)
    requires Tight(vs) && Next(vs, Spawn(k, id, prange), vs')
    ensures Tight(vs')
  {
    SplitAt(vs, k);
    TightAppend(vs[..k], vs[k..]);
    PreparedKeepsTight(vs[k..]);
    SpawnedKeepsTight(Prepared(vs[k..]), id, prange);
    TightAppend(vs[..k], Spawned(Prepared(vs[k..]), id, prange));
  }

  lemma CollectKeepsTight<T>(vs: seq<Node<T>>, k: nat)
    requires Tight(vs) && k < |vs|
    ensures Tight(Collected(vs, k))
  {
    if k > 0 {
      var front, tail := vs[..k - 1], [vs[k - 1]] + vs[k + 1..];
      CutTight(vs, k);
      assert tail[1..] == vs[k + 1..];
      ReadjustGivesTight(tail);
      TightAppend(front, Readjust(tail));
    }
  }

  lemma CutTight<T>(vs: seq<Node<T>>, k: nat)
    requires Tight(vs) && 0 < k < |vs|
    ensures Tight(vs[..k - 1]) && Tight(vs[k + 1..]) && Sound(vs[k - 1])
    ensures k > 1 ==> vs[..k - 1][k - 2].maxi == vs[k - 1].base
    ensures k + 1 < |vs| ==> vs[k - 1].maxi <= vs[k + 1].base
  {
    SplitAt(vs, k - 1);
    TightAppend(vs[..k - 1], vs[k - 1..]);
    assert vs[k - 1..][1..] == vs[k..] && vs[k..][1..] == vs[k + 1..];
  }

  lemma {:induction false} ShiftedKeepsTight<T>(vs: seq<Node<T>>, minBase: int)
    requires Tight(vs)
    ensures Tight(Shifted(vs, minBase))
  {
    if vs != [] {
      ShiftedKeepsTight(vs[1..], minBase);
      assert Shifted(vs, minBase)[1..] == Shifted(vs[1..], minBase);
    }
  }

  lemma StepKeepsTight<T>(vs: seq<Node<T>>, step: Step<T>, vs': seq<Node<T>>)
    requires Tight(vs) && Next(vs, step, vs') && !step.Dequeue?
    ensures Tight(vs')
  {
    match step
    case Spawn(k, id, prange) => SpawnKeepsTight(vs, k, id, prange, vs');
    case Collect(k) => CollectKeepsTight(vs, k);
    case Shift(m) => ShiftedKeepsTight(vs, m);
  }

  /** Until a version is dequeued that is still in use, every interval ends where the next one begins. */
  lemma {:induction false} EveryRunKeepsTight<T>(states: seq<seq<Node<T>>>, steps: seq<Step<T>>)
    requires IsRun(states, steps) && Tight(states[0]) && forall i :: 0 <= i < |steps| ==> !steps[i].Dequeue?
    ensures var vs := states[|steps|];
      Tight(vs) && forall j, k :: 0 <= j && k == j + 1 < |vs| ==> vs[j].maxi == vs[k].base
  {
    var n := |steps|;
    if n > 0 {
      EveryRunKeepsTight(states[..n], steps[..n - 1]);
      StepKeepsTight(states[n - 1], steps[n - 1], states[n]);
    }
    var vs := states[n];
    forall j, k | 0 <= j && k == j + 1 < |vs|
      ensures vs[j].maxi == vs[k].base
    {
      TightHasNoGap(vs, j, k);
    }
  }
}
