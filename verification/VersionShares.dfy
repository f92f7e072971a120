/**
 Which numbers each version has after a step of the version order, counted from what it had before.
 */
module VersionShares {
  import opened VersionOrder

  function Positive(x: int): nat {
    if x > 0 then x else 0
  }

  // What the first n versions give up when others claim: half of what each has.
  function Halves<T>(vs: seq<Node<T>>, n: nat): int
    requires n <= |vs|
  {
    if n == 0 then 0 else (vs[0].maxi - vs[0].base) / 2 + Halves(vs[1..], n - 1)
  }

  // What the first n versions lack of a full interval.
  function Spaces<T>(vs: seq<Node<T>>, n: nat): int
    requires n <= |vs|
  {
    if n == 0 then 0 else RECLAIM - (vs[0].maxi - vs[0].base) + Spaces(vs[1..], n - 1)
  }

  lemma {:induction false} HalvesGrow<T>(vs: seq<Node<T>>, n: nat)
    requires Chain(vs) && n <= |vs|
    ensures Halves(vs, n) >= 0
  {
    if n > 0 {
      HalvesGrow(vs[1..], n - 1);
    }
  }

  lemma {:induction false} SpacesGrow<T>(vs: seq<Node<T>>, n: nat)
    requires Chain(vs) && n <= |vs|
    ensures Spaces(vs, n) >= 0
  {
    if n > 0 {
      SpacesGrow(vs[1..], n - 1);
    }
  }

  // The version at j has made room for a claim of skip numbers in front of vs: it moves up by what the ones
  // before it could not give, and its end by what they and half of its own interval could not; the last one
  // is refilled when it is reached.
  ghost predicate MadeRoom<T>(vs: seq<Node<T>>, skip: int, j: nat, r: Node<T>)
    requires j < |vs|
  {
    && r.id == vs[j].id && r.base == vs[j].base + Positive(skip - Halves(vs, j))
    && if j < |vs| - 1 then r.maxi == vs[j].maxi + Positive(skip - Halves(vs, j + 1))
       else r.maxi == if skip > Halves(vs, j) then r.base + RECLAIM else vs[j].maxi
  }

  ghost predicate HaveClaimed<T>(vs: seq<Node<T>>, skip: int, r: seq<Node<T>>) {
    |r| == |vs| && forall j :: 0 <= j < |vs| ==> MadeRoom(vs, skip, j, r[j])
  }

  lemma {:induction false} ClaimedAt<T>(rest: seq<Node<T>>, skip: int, j: nat)
    requires Chain(rest) && 0 <= skip && j < |rest|
    ensures MadeRoom(rest, skip, j, Claimed(rest, skip)[j])
  {
    HalvesGrow(rest, j);
    HalvesGrow(rest, j + 1);
    if 0 < skip && j > 0 {
      ClaimedAt(rest[1..], Pushed(rest[0], |rest| == 1, skip).1, j - 1);
      HalvesGrow(rest[1..], j - 1);
      HalvesGrow(rest[1..], j);
    }
  }

  /** What a claim of skip numbers does to the versions behind. */
  lemma ClaimedExactly<T>(rest: seq<Node<T>>, skip: int, r: seq<Node<T>>)
    requires Chain(rest) && 0 <= skip && r == Claimed(rest, skip)
    ensures HaveClaimed(rest, skip, r)
  {
    forall j | 0 <= j < |rest|
      ensures MadeRoom(rest, skip, j, r[j])
    {
      ClaimedAt(rest, skip, j);
    }
  }

  // The version at j has moved down by what the ones before it could not take of an overflow in front of
  // vs, and its end by what they and the space in its own interval could not.
  ghost predicate MovedDown<T>(vs: seq<Node<T>>, overflow: int, j: nat, r: Node<T>)
    requires j < |vs|
  {
    && r.id == vs[j].id && r.base == vs[j].base - Positive(overflow - Spaces(vs, j))
    && r.maxi == vs[j].maxi - Positive(overflow - Spaces(vs, j + 1))
  }

  ghost predicate HaveReleased<T>(vs: seq<Node<T>>, overflow: int, r: seq<Node<T>>) {
    |r| == |vs| && forall j :: 0 <= j < |vs| ==> MovedDown(vs, overflow, j, r[j])
  }

  lemma {:induction false} ReleasedAt<T>(rest: seq<Node<T>>, overflow: int, j: nat)
    requires Chain(rest) && j < |rest|
    ensures MovedDown(rest, overflow, j, Released(rest, overflow)[j])
  {
    SpacesGrow(rest, j);
    SpacesGrow(rest, j + 1);
    if 0 < overflow && j > 0 {
      ReleasedAt(rest[1..], Pulled(rest[0], overflow).1, j - 1);
      SpacesGrow(rest[1..], j - 1);
      SpacesGrow(rest[1..], j);
    }
  }

  /** What a release of overflow numbers does to the versions behind. */
  lemma ReleasedExactly<T>(rest: seq<Node<T>>, overflow: int)
    requires Chain(rest)
    ensures HaveReleased(rest, overflow, Released(rest, overflow))
  {
    forall j | 0 <= j < |rest|
      ensures MovedDown(rest, overflow, j, Released(rest, overflow)[j])
    {
      ReleasedAt(rest, overflow, j);
    }
  }

  /** The version that claims has a full interval afterwards, and those behind it have made room. */
  lemma ClaimExactly<T>(v: Node<T>, behind: seq<Node<T>>)
    requires Chain(behind) && v.maxi - v.base <= RECLAIM
    ensures var r := Claim([v] + behind);
      r[0] == v.(maxi := v.base + RECLAIM) && HaveClaimed(behind, RECLAIM - (v.maxi - v.base), r[1..])
  {
    assert ([v] + behind)[1..] == behind;
    ClaimedExactly(behind, RECLAIM - (v.maxi - v.base), Claim([v] + behind)[1..]);
  }

  lemma Behind<T>(vs: seq<Node<T>>, k: nat)
    requires Chain(vs) && k <= |vs|
    ensures Chain(vs[k..])
  {
    SplitAt(vs, k);
    ChainAppend(vs[..k], vs[k..]);
  }

  // The version v takes the numbers up to those of `behind`, but not more than a full interval; this makes
  // w of it and `moved` of those.
  ghost predicate TakesOver<T>(v: Node<T>, behind: seq<Node<T>>, w: Node<T>, moved: seq<Node<T>>) {
    && w.id == v.id && w.base == v.base
    && if behind == [] then w.maxi == v.base + RECLAIM && moved == []
       else && w.maxi == (if behind[0].base - v.base > RECLAIM then v.base + RECLAIM else behind[0].base)
            && HaveReleased(behind, behind[0].base - v.base - RECLAIM, moved)
  }

  lemma ReadjustExactly<T>(v: Node<T>, behind: seq<Node<T>>)
    requires Chain(behind)
    ensures var r := Readjust([v] + behind); TakesOver(v, behind, r[0], r[1..])
  {
    var vs := [v] + behind;
    assert vs[1..] == behind;
    if behind != [] {
      ReleasedExactly(behind, behind[0].base - v.base - RECLAIM);
      assert Readjust(vs)[1..] == Released(behind, behind[0].base - v.base - RECLAIM);
    }
  }

  /** When version k goes, those in front of its predecessor stay, the predecessor takes its numbers, and
      those behind move down by what is too much for it. The oldest version goes alone. */
  lemma CollectExactly<T>(vs: seq<Node<T>>, k: nat, r: seq<Node<T>>)
    requires Chain(vs) && Next(vs, Collect(k), r)
    ensures k == 0 ==> r == vs[1..]
    ensures k > 0 ==> |r| == |vs| - 1 && r[..k - 1] == vs[..k - 1] && TakesOver(vs[k - 1], vs[k + 1..], r[k - 1], r[k..])
  {
    if k > 0 {
      Behind(vs, k + 1);
      var t := Readjust([vs[k - 1]] + vs[k + 1..]);
      ReadjustExactly(vs[k - 1], vs[k + 1..]);
      assert r[..k - 1] == vs[..k - 1] && r[k - 1] == t[0] && r[k..] == t[1..];
    }
  }

  // The parent keeps half, a quarter, or less of n numbers.
  ghost predicate Keeps(n: int, kept: int) {
    && (n <= 4 ==> kept == n / 2)
    && (4 < n <= 64 ==> kept == n / 4)
    && (n > 64 ==> kept == n / 4 || kept == n / 16 || kept == n / 32 || kept == n / 64)
  }

  // The successor `kid` takes its numbers from v, in front of `behind`; this makes w and `moved` of these.
  // The newest version gets a full interval, and its successor the next one. Another one keeps the first
  // part of its interval and gives up the rest, after a claim if it has fewer than two numbers.
  ghost predicate GivesBirth<T>(v: Node<T>, behind: seq<Node<T>>, w: Node<T>, kid: Node<T>, moved: seq<Node<T>>) {
    var n := v.maxi - v.base;
    && w.id == v.id && w.base == v.base && kid.base == w.maxi && |moved| == |behind|
    && (behind == [] ==> w.maxi == v.base + RECLAIM && kid.maxi == v.base + 2 * RECLAIM)
    && (behind != [] ==> var has := if n < 2 then RECLAIM else n; Keeps(has, w.maxi - w.base) && kid.maxi == v.base + has)
    && (n >= 2 ==> moved == behind)
    && (n < 2 ==> HaveClaimed(behind, RECLAIM - n, moved))
  }

  lemma SpawnGivesBirth<T>(vs: seq<Node<T>>, id: T, prange: int)
    requires Chain(vs) && vs != [] && (|vs| > 1 ==> Share(Prepared(vs)[0].Length(), prange))
    ensures var r := Spawned(Prepared(vs), id, prange);
      |r| == |vs| + 1 && r[1].id == id && GivesBirth(vs[0], vs[1..], r[0], r[1], r[2..])
  {
    var n, p := vs[0].maxi - vs[0].base, Prepared(vs);
    var r := Spawned(p, id, prange);
    assert r[2..] == p[1..];
    if |vs| == 1 {
      assert p[1..] == [] && vs[1..] == [];
    } else if n < 2 {
      assert [vs[0]] + vs[1..] == vs;
      ClaimExactly(vs[0], vs[1..]);
    }
  }

  /** The successor of version k stands behind it and takes its numbers from it. */
  lemma SpawnExactly<T>(vs: seq<Node<T>>, k: nat, id: T, prange: int, r: seq<Node<T>>)
    requires Chain(vs) && Next(vs, Spawn(k, id, prange), r)
    ensures |r| == |vs| + 1 && r[..k] == vs[..k] && r[k + 1].id == id
    ensures GivesBirth(vs[k], vs[k + 1..], r[k], r[k + 1], r[k + 2..])
  {
    Behind(vs, k);
    var t := Spawned(Prepared(vs[k..]), id, prange);
    SpawnGivesBirth(vs[k..], id, prange);
    assert vs[k..][1..] == vs[k + 1..];
    assert r[..k] == vs[..k] && r[k] == t[0] && r[k + 1] == t[1] && r[k + 2..] == t[2..];
  }

  /** A dequeued version leaves the others as they are; a shift takes the same number off all bounds. */
  lemma DequeueExactly<T>(vs: seq<Node<T>>, k: nat, r: seq<Node<T>>)
    requires Next(vs, Dequeue(k), r)
    ensures |r| == |vs| - 1 && forall j :: 0 <= j < |r| ==> r[j] == vs[if j < k then j else j + 1]
  {
  }

  lemma ShiftExactly<T>(vs: seq<Node<T>>, m: int, r: seq<Node<T>>)
    requires Next(vs, Shift(m), r)
    ensures |r| == |vs|
    ensures forall j :: 0 <= j < |r| ==> r[j].id == vs[j].id && r[j].base == vs[j].base - m && r[j].maxi == vs[j].maxi - m
  {
    forall j | 0 <= j < |vs|
      ensures r[j].id == vs[j].id && r[j].base == vs[j].base - m && r[j].maxi == vs[j].maxi - m
    {
      ShiftedAt(vs, m, j);
    }
  }
}
