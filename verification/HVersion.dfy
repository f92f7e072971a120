/**
 The versions as objects: the list, the loops that move intervals along it in place, and the
 bookkeeping of users. The methods are proved to take the steps of the version order.
 */
module HVersions {
  import opened VersionOrder

  // The bound as it comes out in the version type, a signed 64-bit number.
  const HVERSION_MAX: int := 0xFFFF_FFFF_FFFF_FFFF - 4 * RECLAIM - 0x1_0000_0000_0000_0000

  class HVersion {
    var base: int
    var maxi: int
    var nUsers: int
    var hasTask: bool
    var dequeued: bool

    constructor ()
      ensures nUsers == 1 && hasTask && !dequeued
    {
      nUsers, hasTask, dequeued := 1, true, false;
    }

    ghost predicate Listed()
      reads this`nUsers, this`dequeued
    {
      nUsers > 0 && !dequeued
    }

    ghost function Interval(): Node<HVersion>
      reads this`base, this`maxi
    {
      Node(this, base, maxi)
    }
  }

  ghost predicate AllListed(vs: seq<HVersion>)
    reads vs`nUsers, vs`dequeued
  {
    forall v :: v in vs ==> v.Listed()
  }

  // The list as a value.
  ghost function Nodes(vs: seq<HVersion>): (r: seq<Node<HVersion>>)
    reads vs
    ensures |r| == |vs| && forall j :: 0 <= j < |vs| ==> r[j] == vs[j].Interval()
  {
    seq(|vs|, j requires 0 <= j < |vs| reads vs => vs[j].Interval())
  }

  lemma NodesIds(vs: seq<HVersion>)
    ensures Ids(Nodes(vs)) == vs
  {
    forall j | 0 <= j < |vs|
      ensures Ids(Nodes(vs))[j] == vs[j]
    {
      IdAt(Nodes(vs), j);
    }
  }

  // Gives version n of the list its interval.
  method Place(vs: seq<HVersion>, n: nat, base: int, maxi: int)
    requires n < |vs| && NoDuplicates(vs)
    modifies vs`base, vs`maxi
    ensures Nodes(vs) == old(Nodes(vs))[n := Node(vs[n], base, maxi)]
  {
    vs[n].base, vs[n].maxi := base, maxi;
  }

  // One turn of the claim loop.
  method Push(vs: seq<HVersion>, n: nat, skip: int) returns (more: int)
    requires n < |vs| && NoDuplicates(vs)
    modifies vs`base, vs`maxi
    ensures var (node, m) := Pushed(old(Nodes(vs))[n], n + 1 == |vs|, skip);
            Nodes(vs) == old(Nodes(vs))[n := node] && more == m
  {
    var base, maxi := vs[n].base, vs[n].maxi;
    var available := (maxi - base) / 2;
    more := skip;
    if n + 1 == |vs| {
      maxi := base + skip + RECLAIM;
    } else if available > skip {
      more := 0;
    } else {
      more := skip - available;
      maxi := maxi + more;
    }
    Place(vs, n, base + skip, maxi);
  }

  // One turn of the release loop.
  method Pull(vs: seq<HVersion>, n: nat, overflow: int) returns (left: int)
    requires n < |vs| && NoDuplicates(vs)
    modifies vs`base, vs`maxi
    ensures var (node, m) := Pulled(old(Nodes(vs))[n], overflow);
            Nodes(vs) == old(Nodes(vs))[n := node] && left == m
  {
    var space := RECLAIM - (vs[n].maxi - vs[n].base);
    left := if space < overflow then overflow - space else 0;
    Place(vs, n, vs[n].base - overflow, vs[n].maxi - left);
  }

  // The turns of the claim loop from position n on.
  function PushedFrom<T>(vs: seq<Node<T>>, n: nat, skip: int): (r: seq<Node<T>>)
    ensures |r| == |vs|
    decreases |vs| - n
  {
    if n >= |vs| || skip <= 0 then vs
    else
      var (node, more) := Pushed(vs[n], n + 1 == |vs|, skip);
      PushedFrom(vs[n := node], n + 1, more)
  }

  // The turns of the release loop from position n on.
  function PulledFrom<T>(vs: seq<Node<T>>, n: nat, overflow: int): (r: seq<Node<T>>)
    ensures |r| == |vs|
    decreases |vs| - n
  {
    if n >= |vs| || overflow <= 0 then vs
    else
      var (node, left) := Pulled(vs[n], overflow);
      PulledFrom(vs[n := node], n + 1, left)
  }

  lemma SetAt<T>(s: seq<T>, k: nat, x: T, rest: seq<T>)
    requires k < |s|
    ensures s[k := x][k + 1..] == s[k..][1..]
    ensures s[k := x][..k + 1] + rest == s[..k] + ([x] + rest)
  {
  }

  lemma {:induction false} PushedFromIsClaimed<T>(vs: seq<Node<T>>, n: nat, skip: int)
    requires n <= |vs|
    ensures PushedFrom(vs, n, skip) == vs[..n] + Claimed(vs[n..], skip)
    decreases |vs| - n
  {
    if n < |vs| && 0 < skip {
      var (node, more) := Pushed(vs[n], n + 1 == |vs|, skip);
      PushedFromIsClaimed(vs[n := node], n + 1, more);
      SetAt(vs, n, node, Claimed(vs[n..][1..], more));
    } else {
      assert vs == vs[..n] + vs[n..];
    }
  }

  lemma {:induction false} PulledFromIsReleased<T>(vs: seq<Node<T>>, n: nat, overflow: int)
    requires n <= |vs|
    ensures PulledFrom(vs, n, overflow) == vs[..n] + Released(vs[n..], overflow)
    decreases |vs| - n
  {
    if n < |vs| && 0 < overflow {
      var (node, left) := Pulled(vs[n], overflow);
      PulledFromIsReleased(vs[n := node], n + 1, left);
      SetAt(vs, n, node, Released(vs[n..][1..], left));
    } else {
      assert vs == vs[..n] + vs[n..];
    }
  }

  // Version k gets a full interval; those behind it make room.
  function ClaimedAt<T>(vs: seq<Node<T>>, k: nat): (r: seq<Node<T>>)
    requires k < |vs|
    ensures |r| == |vs|
  {
    PushedFrom(vs[k := vs[k].(maxi := vs[k].base + RECLAIM)], k + 1, RECLAIM - vs[k].Length())
  }

  // Version k takes over the numbers up to the next one, and releases what exceeds a full interval.
  function ReadjustedAt<T>(vs: seq<Node<T>>, k: nat): (r: seq<Node<T>>)
    requires k < |vs|
    ensures |r| == |vs|
  {
    var overflow := if k + 1 == |vs| then 0 else vs[k + 1].base - vs[k].base - RECLAIM;
    var maxi := if k + 1 == |vs| || overflow > 0 then vs[k].base + RECLAIM else vs[k + 1].base;
    PulledFrom(vs[k := vs[k].(maxi := maxi)], k + 1, overflow)
  }

  lemma ClaimedAtIsClaim<T>(vs: seq<Node<T>>, k: nat)
    requires k < |vs|
    ensures ClaimedAt(vs, k) == vs[..k] + Claim(vs[k..])
  {
    var x, skip := vs[k].(maxi := vs[k].base + RECLAIM), RECLAIM - vs[k].Length();
    PushedFromIsClaimed(vs[k := x], k + 1, skip);
    SetAt(vs, k, x, Claimed(vs[k..][1..], skip));
  }

  lemma ReadjustedAtIsReadjust<T>(vs: seq<Node<T>>, k: nat)
    requires k < |vs|
    ensures ReadjustedAt(vs, k) == vs[..k] + Readjust(vs[k..])
  {
    var overflow := if k + 1 == |vs| then 0 else vs[k + 1].base - vs[k].base - RECLAIM;
    var x := vs[k].(maxi := if k + 1 == |vs| || overflow > 0 then vs[k].base + RECLAIM else vs[k + 1].base);
    PulledFromIsReleased(vs[k := x], k + 1, overflow);
    SetAt(vs, k, x, Released(vs[k..][1..], overflow));
  }

  // The parent at k is made ready for a successor: it has at least two numbers to share out.
  function PreparedAt<T>(vs: seq<Node<T>>, k: nat): (r: seq<Node<T>>)
    requires k < |vs|
    ensures |r| == |vs|
  {
    if k + 1 == |vs| then vs[k := vs[k].(maxi := vs[k].base + RECLAIM)]
    else if vs[k].Length() < 2 then ClaimedAt(vs, k)
    else vs
  }

  function Inserted<T>(s: seq<T>, k: nat, x: T): seq<T>
    requires k < |s|
  {
    s[..k + 1] + [x] + s[k + 1..]
  }

  // The new version takes its numbers from the parent at k and its place behind it.
  function SpawnedAt<T>(vs: seq<Node<T>>, k: nat, id: T, prange: int): seq<Node<T>>
    requires k < |vs|
  {
    var v := vs[k];
    if k + 1 == |vs| then Inserted(vs, k, Node(id, v.maxi, v.maxi + RECLAIM))
    else Inserted(vs[k := v.(maxi := v.base + prange)], k, Node(id, v.base + prange, v.maxi))
  }

  function CollectedAt<T>(vs: seq<Node<T>>, k: nat): seq<Node<T>>
    requires k < |vs|
  {
    if k == 0 then Without(vs, 0) else ReadjustedAt(Without(vs, k), k - 1)
  }

  lemma PreparedAtIsPrepared<T>(vs: seq<Node<T>>, k: nat)
    requires k < |vs|
    ensures PreparedAt(vs, k)[..k] == vs[..k] && PreparedAt(vs, k)[k..] == Prepared(vs[k..])
  {
    ClaimedAtIsClaim(vs, k);
  }

  lemma SpawnedAtIsSpawned<T>(vs: seq<Node<T>>, k: nat, id: T, prange: int)
    requires k < |vs|
    ensures SpawnedAt(vs, k, id, prange) == vs[..k] + Spawned(vs[k..], id, prange)
  {
    assert vs[k..][1..] == vs[k + 1..];
  }

  lemma SuccessorIsStep<T>(vs: seq<Node<T>>, k: nat, id: T, prange: int)
    requires Chain(vs) && k < |vs| && id !in Ids(vs)
    requires Share(PreparedAt(vs, k)[k].Length(), prange)
    ensures var r := SpawnedAt(PreparedAt(vs, k), k, id, prange);
            Chain(r) && Next(vs, Spawn(k, id, prange), r)
  {
    PreparedAtIsPrepared(vs, k);
    assert PreparedAt(vs, k)[k..][0] == PreparedAt(vs, k)[k];
    SpawnedAtIsSpawned(PreparedAt(vs, k), k, id, prange);
    SpawnKeepsChain(vs, k, id, prange, SpawnedAt(PreparedAt(vs, k), k, id, prange));
  }

  lemma WithoutAt<T>(s: seq<T>, k: nat)
    requires 0 < k < |s|
    ensures Without(s, k)[..k - 1] == s[..k - 1]
    ensures Without(s, k)[k - 1..] == [s[k - 1]] + s[k + 1..]
  {
  }

  lemma CollectedAtIsCollected<T>(vs: seq<Node<T>>, k: nat)
    requires k < |vs|
    ensures CollectedAt(vs, k) == Collected(vs, k)
  {
    if k > 0 {
      WithoutAt(vs, k);
      ReadjustedAtIsReadjust(Without(vs, k), k - 1);
    }
  }

  lemma CollectedAtIsStep<T>(vs: seq<Node<T>>, k: nat)
    requires Chain(vs) && k < |vs|
    ensures Chain(CollectedAt(vs, k)) && Next(vs, Collect(k), CollectedAt(vs, k))
  {
    CollectKeepsChain(vs, k);
    CollectedAtIsCollected(vs, k);
  }

  // The versions from the given one on make room.
  method PushAll(vs: seq<HVersion>, from: nat, missing: int)
    requires from <= |vs| && NoDuplicates(vs)
    modifies vs`base, vs`maxi
    ensures Nodes(vs) == PushedFrom(old(Nodes(vs)), from, missing)
  {
    ghost var goal := PushedFrom(Nodes(vs), from, missing);
    var skip, n := missing, from;
    while n < |vs| && skip > 0
      invariant PushedFrom(Nodes(vs), n, skip) == goal
    {
      skip := Push(vs, n, skip);
      n := n + 1;
    }
  }

  // The versions from the given one on take over what is released.
  method PullAll(vs: seq<HVersion>, from: nat, excess: int)
    requires from <= |vs| && NoDuplicates(vs)
    modifies vs`base, vs`maxi
    ensures Nodes(vs) == PulledFrom(old(Nodes(vs)), from, excess)
  {
    ghost var goal := PulledFrom(Nodes(vs), from, excess);
    var overflow, n := excess, from;
    while n < |vs| && overflow > 0
      invariant PulledFrom(Nodes(vs), n, overflow) == goal
    {
      overflow := Pull(vs, n, overflow);
      n := n + 1;
    }
  }

  // w is the version after v in the list, or there is none and w is null.
  ghost predicate StandsBehind(vs: seq<HVersion>, v: HVersion, w: HVersion?) {
    forall k, n :: 0 <= k < |vs| && n == k + 1 && vs[k] == v ==> w == if n < |vs| then vs[n] else null
  }

  class HVersionDomain {
    var versions: seq<HVersion>
    var oldestTC: HVersion?

    ghost predicate Linked()
      reads this, versions
    {
      && NoDuplicates(versions) && Chain(Nodes(versions))
      && (oldestTC != null ==> oldestTC in versions)
    }

    ghost predicate Valid()
      reads this, versions
    {
      Linked() && AllListed(versions)
    }

    // The domain of a first version.
    constructor ()
      ensures Valid() && |versions| == 1 && fresh(versions[0])
    {
      var v := new HVersion();
      v.base, v.maxi := 1, 1 + RECLAIM;
      versions, oldestTC := [v], v;
    }

    method Claim(k: nat)
      requires k < |versions| && NoDuplicates(versions)
      modifies versions`base, versions`maxi
      ensures Nodes(versions) == ClaimedAt(old(Nodes(versions)), k)
    {
      var v := versions[k];
      var skip := RECLAIM - (v.maxi - v.base);
      Place(versions, k, v.base, v.maxi + skip);
      PushAll(versions, k + 1, skip);
    }

    method Readjust(k: nat)
      requires k < |versions| && NoDuplicates(versions)
      modifies versions`base, versions`maxi
      ensures Nodes(versions) == ReadjustedAt(old(Nodes(versions)), k)
    {
      var v := versions[k];
      var overflow := if k + 1 < |versions| then versions[k + 1].base - v.base - RECLAIM else 0;
      Place(versions, k, v.base, if k + 1 == |versions| || overflow > 0 then v.base + RECLAIM else versions[k + 1].base);
      if overflow > 0 {
        PullAll(versions, k + 1, overflow);
      }
    }

    method ShiftAllVersions()
      requires versions != [] && NoDuplicates(versions)
      modifies versions`base, versions`maxi
      ensures Nodes(versions) == Shifted(old(Nodes(versions)), old(versions[0].base))
    {
      ghost var all := Nodes(versions);
      var minBase := versions[0].base;
      var n := 0;
      while n < |versions|
        invariant n <= |versions|
        invariant forall j :: 0 <= j < n ==> versions[j].Interval() == Shift1(all[j], minBase)
        invariant forall j :: n <= j < |versions| ==> versions[j].Interval() == all[j]
      {
        versions[n].base := versions[n].base - minBase;
        versions[n].maxi := versions[n].maxi - minBase;
        n := n + 1;
      }
      forall j | 0 <= j < |versions|
        ensures Nodes(versions)[j] == Shifted(all, minBase)[j]
      {
        ShiftedAt(all, minBase, j);
      }
    }

    method Prepare(k: nat)
      requires k < |versions| && NoDuplicates(versions)
      modifies versions`base, versions`maxi
      ensures Nodes(versions) == PreparedAt(old(Nodes(versions)), k)
    {
      if k + 1 == |versions| {
        Place(versions, k, versions[k].base, versions[k].base + RECLAIM);
      }
      if versions[k].maxi - versions[k].base < 2 {
        Claim(k);
      }
    }

    // How much of its interval the parent keeps; `divisor` is the predictor's choice.
    method ParentRange(k: nat, divisor: int) returns (prange: int)
      requires k < |versions| && divisor in {4, 16, 32, 64}
      ensures Share(versions[k].maxi - versions[k].base, prange)
    {
      prange := versions[k].maxi - versions[k].base;
      if prange <= 4 {
        prange := prange / 2;
      } else if prange <= 64 {
        prange := prange / 4;
      } else {
        prange := prange / divisor;
      }
    }

    // The new version takes its numbers and its place behind version k.
    method Link(k: nat, divisor: int) returns (cont: HVersion, ghost prange: int)
      requires k < |versions| && NoDuplicates(versions) && divisor in {4, 16, 32, 64}
      modifies this`versions, versions`maxi
      ensures fresh(cont) && cont.Listed()
      ensures versions == Inserted(old(versions), k, cont)
      ensures Share(old(Nodes(versions))[k].Length(), prange)
      ensures Nodes(versions) == SpawnedAt(old(Nodes(versions)), k, cont, prange)
    {
      ghost var all := Nodes(versions);
      var v := versions[k];
      var p := ParentRange(k, divisor);
      prange := p;
      cont := new HVersion();
      if k + 1 == |versions| {
        cont.base, cont.maxi := v.maxi, v.maxi + RECLAIM;
      } else {
        cont.base, cont.maxi := v.base + p, v.maxi;
        v.maxi := cont.base;
      }
      versions := versions[..k + 1] + [cont] + versions[k + 1..];
      ghost var goal := SpawnedAt(all, k, cont, prange);
      assert forall j :: 0 <= j < |versions| ==> versions[j].Interval() == goal[j];
    }

    lemma InsertDistinct(vs: seq<HVersion>, k: nat, x: HVersion)
      requires NoDuplicates(vs) && x !in vs && k < |vs|
      ensures NoDuplicates(Inserted(vs, k, x))
      ensures forall v :: v in Inserted(vs, k, x) <==> v in vs || v == x
    {
      assert vs == vs[..k + 1] + vs[k + 1..];
    }

    // A successor of the version at k, right behind it.
    method AddSuccessor(k: nat, divisor: int) returns (cont: HVersion, ghost prange: int)
      requires Valid() && k < |versions| && divisor in {4, 16, 32, 64}
      modifies this`versions, versions`base, versions`maxi
      ensures Valid() && fresh(cont) && versions == Inserted(old(versions), k, cont)
      ensures Next(old(Nodes(versions)), Spawn(k, cont, prange), Nodes(versions))
    {
      ghost var all, was := Nodes(versions), versions;
      NodesIds(versions);
      Prepare(k);
      assert AllListed(was);
      cont, prange := Link(k, divisor);
      assert AllListed(was);
      SuccessorIsStep(all, k, cont, prange);
      InsertDistinct(was, k, cont);
    }

    method Renumber()
      requires Valid() && versions != []
      modifies versions`base, versions`maxi
      ensures Valid() && Next(old(Nodes(versions)), Shift(old(versions[0].base)), Nodes(versions))
    {
      ShiftedKeepsChain(Nodes(versions), versions[0].base);
      ShiftAllVersions();
    }

    // A new newest version makes all versions shift when its parent's bound has passed the maximum.
    method CreateSuccessor(k: nat, divisor: int) returns (cont: HVersion, ghost prange: int, ghost vs: seq<Node<HVersion>>)
      requires Valid() && k < |versions| && divisor in {4, 16, 32, 64}
      modifies this`versions, versions`base, versions`maxi
      ensures Valid() && fresh(cont)
      ensures versions == Inserted(old(versions), k, cont)
      ensures Next(old(Nodes(versions)), Spawn(k, cont, prange), vs) && |vs| == |versions|
      ensures Nodes(versions) == if k + 2 == |versions| && vs[k].maxi > HVERSION_MAX then Shifted(vs, vs[0].base) else vs
    {
      cont, prange := AddSuccessor(k, divisor);
      vs := Nodes(versions);
      if k + 2 == |versions| && versions[k].maxi > HVERSION_MAX {
        Renumber();
      }
    }

    // Takes the version at k out of the list; the version before it takes over its numbers.
    method CutOut(k: nat)
      requires NoDuplicates(versions) && k < |versions|
      modifies this`versions, versions`base, versions`maxi
      ensures versions == Without(old(versions), k)
      ensures Nodes(versions) == CollectedAt(old(Nodes(versions)), k)
    {
      NodesWithout(versions, k);
      WithoutDistinct(versions, k);
      versions := versions[..k] + versions[k + 1..];
      if k > 0 {
        Readjust(k - 1);
      }
    }

    // The list without the version at k is again a list of listed versions in order.
    method Unlink(k: nat)
      requires Linked() && k < |versions| && oldestTC != versions[k]
      requires AllListed(Without(versions, k))
      modifies this`versions, versions`base, versions`maxi
      ensures Valid() && versions == Without(old(versions), k)
      ensures Next(old(Nodes(versions)), Collect(k), Nodes(versions))
    {
      CollectedAtIsStep(Nodes(versions), k);
      WithoutDistinct(versions, k);
      ghost var rest := Without(versions, k);
      CutOut(k);
      assert AllListed(rest);
    }

    // Takes a version that is still used off the list, leaving the others as they are.
    method DequeueAt(k: nat, v: HVersion)
      requires Valid() && k < |versions| && versions[k] == v && oldestTC != v
      modifies this`versions, v`dequeued
      ensures Valid() && versions == Without(old(versions), k) && v !in versions && v.dequeued
      ensures Next(old(Nodes(versions)), Dequeue(k), Nodes(versions))
    {
      ghost var all, rest := Nodes(versions), Without(versions, k);
      DequeueKeepsChain(all, k);
      WithoutDistinct(versions, k);
      NodesWithout(versions, k);
      versions := versions[..k] + versions[k + 1..];
      v.dequeued := true;
      assert versions == rest;
      assert Nodes(rest) == Without(all, k);
    }

    method IndexOf(v: HVersion) returns (k: nat)
      requires v in versions
      ensures k < |versions| && versions[k] == v
    {
      k :| 0 <= k < |versions| && versions[k] == v;
    }

    // The token of the oldest version with a task moves to the next version.
    method PassOldestTC(v: HVersion)
      requires Linked() && oldestTC == v && v in versions
      modifies this`oldestTC
      ensures Linked() && oldestTC != v
      ensures StandsBehind(versions, v, oldestTC)
    {
      var k := IndexOf(v);
      oldestTC := if k + 1 < |versions| then versions[k + 1] else null;
    }

    // The task of a version that is still used is over.
    method TaskOver(v: HVersion) returns (ghost k: nat)
      requires Valid() && v in versions && oldestTC != null
      modifies this, v`hasTask, v`dequeued
      ensures Valid() && !v.hasTask
      ensures if old(oldestTC != v && oldestTC.base < v.base)
              then k < |old(versions)| && old(versions)[k] == v && v.dequeued && versions == Without(old(versions), k)
                   && Next(old(Nodes(versions)), Dequeue(k), Nodes(versions))
              else versions == old(versions) && Nodes(versions) == old(Nodes(versions)) && oldestTC != v
      ensures if old(oldestTC == v) then StandsBehind(old(versions), v, oldestTC) else oldestTC == old(oldestTC)
    {
      ghost var all := Nodes(versions);
      var at := IndexOf(v);
      k := at;
      v.hasTask := false;
      assert Nodes(versions) == all;
      if oldestTC != v && oldestTC.base < v.base {
        DequeueAt(at, v);
      } else if oldestTC == v {
        PassOldestTC(v);
      }
    }

    // The last user of a listed version is gone.
    method LastUserGone(v: HVersion) returns (ghost k: nat)
      requires Linked() && v in versions && (v.hasTask ==> oldestTC != v)
      requires forall u :: u in versions && u != v ==> u.Listed()
      modifies this, versions`base, versions`maxi
      ensures Valid() && k < |old(versions)| && old(versions)[k] == v && versions == Without(old(versions), k)
      ensures Next(old(Nodes(versions)), Collect(k), Nodes(versions))
      ensures if old(oldestTC == v) then StandsBehind(old(versions), v, oldestTC) else oldestTC == old(oldestTC)
    {
      if oldestTC == v {
        PassOldestTC(v);
      }
      var at := IndexOf(v);
      k := at;
      Unlink(at);
    }

    // A user of the version goes away; with noTC it is the task itself. What the source asserts about
    // the oldest task is required. A dequeued version is not on the list any more; a listed one whose
    // last user goes is unlinked and the gap closed; one whose task is over, but which is still used
    // and not the oldest, is unlinked and the gap left.
    method GarbageCollect(v: HVersion, noTC: bool) returns (ghost step: Step<HVersion>)
      requires Valid() && v.nUsers > 0 && (v in versions || v.dequeued)
      requires noTC ==> v.hasTask && v in versions && oldestTC != null
      requires v.hasTask && !noTC && v.nUsers == 1 ==> oldestTC != v
      modifies this, versions`base, versions`maxi, v`nUsers, v`hasTask, v`dequeued
      ensures Valid() && v.nUsers == old(v.nUsers) - 1 && v.hasTask == (old(v.hasTask) && !noTC)
      ensures if old(v !in versions) then step == Shift(0)
              else if v.nUsers == 0 then step.Collect?
              else if noTC && old(oldestTC != v && oldestTC.base < v.base) then step.Dequeue?
              else step == Shift(0)
      ensures if step == Shift(0) then versions == old(versions) && Nodes(versions) == old(Nodes(versions))
              else Next(old(Nodes(versions)), step, Nodes(versions)) && v !in versions
      ensures if old(oldestTC == v) && !v.hasTask then StandsBehind(old(versions), v, oldestTC) else oldestTC == old(oldestTC)
    {
      step := Shift(0);
      ghost var all := Nodes(versions);
      v.nUsers := v.nUsers - 1;
      assert Nodes(versions) == all;
      if v.nUsers > 0 {
        step := StillUsed(v, noTC);
      } else if !v.dequeued {
        step := NoLongerUsed(v, noTC);
      }
    }

    method StillUsed(v: HVersion, noTC: bool) returns (ghost step: Step<HVersion>)
      requires Valid() && (v in versions || v.dequeued) && (noTC ==> v in versions && oldestTC != null)
      modifies this, v`hasTask, v`dequeued
      ensures Valid() && v.hasTask == (old(v.hasTask) && !noTC)
      ensures if noTC && old(oldestTC != v && oldestTC.base < v.base)
              then step.Dequeue? && Next(old(Nodes(versions)), step, Nodes(versions)) && v !in versions
              else step == Shift(0) && versions == old(versions) && Nodes(versions) == old(Nodes(versions))
      ensures if old(oldestTC == v) && !v.hasTask then StandsBehind(old(versions), v, oldestTC) else oldestTC == old(oldestTC)
    {
      step := Shift(0);
      if noTC {
        ghost var k := TaskOver(v);
        if v !in versions {
          step := Dequeue(k);
        }
      } else if !v.hasTask && oldestTC == v {
        PassOldestTC(v);
      }
    }

    method NoLongerUsed(v: HVersion, noTC: bool) returns (ghost step: Step<HVersion>)
      requires Linked() && v in versions && (v.hasTask && !noTC ==> oldestTC != v)
      requires forall u :: u in versions && u != v ==> u.Listed()
      modifies this, versions`base, versions`maxi, v`hasTask
      ensures Valid() && v.hasTask == (old(v.hasTask) && !noTC) && v !in versions
      ensures step.Collect? && Next(old(Nodes(versions)), step, Nodes(versions))
      ensures if old(oldestTC == v) then StandsBehind(old(versions), v, oldestTC) else oldestTC == old(oldestTC)
    {
      ghost var all, was := Nodes(versions), versions;
      if noTC {
        v.hasTask := false;
        assert Nodes(versions) == all;
      }
      ghost var k := LastUserGone(v);
      WithoutDistinct(was, k);
      step := Collect(k);
    }

    lemma NodesWithout(vs: seq<HVersion>, k: nat)
      requires k < |vs|
      ensures Nodes(Without(vs, k)) == Without(Nodes(vs), k)
    {
    }

    lemma WithoutDistinct(vs: seq<HVersion>, k: nat)
      requires NoDuplicates(vs) && k < |vs|
      ensures NoDuplicates(Without(vs, k))
      ensures forall v :: v in Without(vs, k) <==> v in vs && v != vs[k]
    {
      assert vs == vs[..k] + [vs[k]] + vs[k + 1..];
    }
  }
}
