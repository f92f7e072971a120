/**
 The two lists of one block's versions, as values: the accessors, newest first, the writers among
 them, and for each accessor the first writer at or behind its own place.
 */
module EpochLists {
  // A block version, named by the epoch it belongs to.
  type Block = nat

  // A place in a list: in front of a block, or at the end.
  datatype Place = End | At(block: Block)

  function Written(s: seq<Block>, w: set<Block>): seq<Block> {
    if s == [] then [] else if s[0] in w then [s[0]] + Written(s[1..], w) else Written(s[1..], w)
  }

  // The first written block of s; `behind` when there is none.
  function First(s: seq<Block>, w: set<Block>, behind: Place): Place {
    if s == [] then behind else if s[0] in w then At(s[0]) else First(s[1..], w, behind)
  }

  // Every block of s points to the first written block from itself on.
  ghost predicate Points(s: seq<Block>, w: set<Block>, pos: map<Block, Place>, behind: Place) {
    s != [] ==>
      && s[0] in pos && pos[s[0]] == First(s, w, behind)
      && Points(s[1..], w, pos, behind)
  }

  function Clock(clock: map<Block, int>, b: Block): int {
    if b in clock then clock[b] else 0
  }

  ghost predicate Sorted(s: seq<Block>, clock: map<Block, int>) {
    forall j, k :: 0 <= j < k < |s| ==> Clock(clock, s[j]) >= Clock(clock, s[k])
  }

  ghost predicate Distinct(s: seq<Block>) {
    forall j, k :: 0 <= j < k < |s| ==> s[j] != s[k]
  }

  // What the source checks of the two lists and the places.
  ghost predicate Linked(accessors: seq<Block>, writers: seq<Block>, pos: map<Block, Place>, w: set<Block>) {
    && Distinct(accessors)
    && (forall b :: b in w ==> b in accessors)
    && writers == Written(accessors, w)
    && Points(accessors, w, pos, End)
  }

  lemma {:induction false} WrittenAppend(a: seq<Block>, b: seq<Block>, w: set<Block>)
    ensures Written(a + b, w) == Written(a, w) + Written(b, w)
  {
    if a == [] {
      assert a + b == b;
    } else {
      assert (a + b)[1..] == a[1..] + b;
      WrittenAppend(a[1..], b, w);
    }
  }

  lemma {:induction false} FirstAppend(a: seq<Block>, b: seq<Block>, w: set<Block>, behind: Place)
    ensures First(a + b, w, behind) == First(a, w, First(b, w, behind))
  {
    if a == [] {
      assert a + b == b;
    } else {
      assert (a + b)[1..] == a[1..] + b;
      FirstAppend(a[1..], b, w, behind);
    }
  }

  lemma {:induction false} PointsAppend(a: seq<Block>, b: seq<Block>, w: set<Block>, pos: map<Block, Place>, behind: Place)
    ensures Points(a + b, w, pos, behind) <==> Points(a, w, pos, First(b, w, behind)) && Points(b, w, pos, behind)
  {
    if a == [] {
      assert a + b == b;
    } else {
      assert (a + b)[1..] == a[1..] + b;
      FirstAppend(a, b, w, behind);
      PointsAppend(a[1..], b, w, pos, behind);
    }
  }

  lemma {:induction false} WrittenMembers(s: seq<Block>, w: set<Block>)
    ensures forall b :: b in Written(s, w) <==> b in s && b in w
  {
    if s != [] {
      WrittenMembers(s[1..], w);
      assert forall b :: b in s <==> b == s[0] || b in s[1..];
    }
  }

  lemma {:induction false} FirstIsHead(s: seq<Block>, w: set<Block>, behind: Place)
    ensures First(s, w, behind) == if Written(s, w) == [] then behind else At(Written(s, w)[0])
  {
    if s != [] {
      FirstIsHead(s[1..], w, behind);
    }
  }

  ghost predicate Outside(p: Place, s: seq<Block>) {
    p == End || p.block !in s
  }

  lemma {:induction false} FirstInside(s: seq<Block>, w: set<Block>, behind: Place)
    ensures First(s, w, behind) == behind || (First(s, w, behind).At? && First(s, w, behind).block in s)
  {
    if s != [] {
      FirstInside(s[1..], w, behind);
    }
  }

  // `pos'` is `pos` with the blocks of s that pointed to one place pointing to another.
  ghost predicate Retargeted(s: seq<Block>, pos: map<Block, Place>, from: Place, to: Place, pos': map<Block, Place>) {
    forall b :: b in s && b in pos ==> b in pos' && pos'[b] == if pos[b] == from then to else pos[b]
  }

  // When what lies behind s changes, the blocks that pointed there follow.
  lemma {:induction false} RetargetedPoints(s: seq<Block>, w: set<Block>, pos: map<Block, Place>, from: Place, to: Place,
                                            pos': map<Block, Place>)
    requires Points(s, w, pos, from) && Outside(from, s) && Retargeted(s, pos, from, to, pos')
    ensures Points(s, w, pos', to)
  {
    if s != [] {
      FirstInside(s[1..], w, from);
      SameFirst(s[1..], w, from, to);
      RetargetedPoints(s[1..], w, pos, from, to, pos');
    }
  }

  lemma {:induction false} SameFirst(s: seq<Block>, w: set<Block>, from: Place, to: Place)
    requires Outside(from, s)
    ensures First(s, w, to) == if First(s, w, from) == from then to else First(s, w, from)
  {
    if s != [] {
      SameFirst(s[1..], w, from, to);
    }
  }

  // The blocks that point behind s are a suffix of it.
  lemma {:induction false} TargetsAreSuffix(s: seq<Block>, w: set<Block>, pos: map<Block, Place>, behind: Place, j: nat, k: nat)
    requires Points(s, w, pos, behind) && Outside(behind, s) && j <= k < |s|
    ensures s[j] in pos && s[k] in pos && (pos[s[j]] == behind ==> pos[s[k]] == behind)
  {
    if j > 0 {
      TargetsAreSuffix(s[1..], w, pos, behind, j - 1, k - 1);
    } else if k > 0 {
      FirstInside(s[1..], w, behind);
      TargetsAreSuffix(s[1..], w, pos, behind, 0, k - 1);
    }
  }

  // Blocks outside the list can join or leave the written ones, and their places do not matter.
  lemma {:induction false} SamePoints(s: seq<Block>, w: set<Block>, w': set<Block>, pos: map<Block, Place>, pos': map<Block, Place>, behind: Place)
    requires forall b :: b in s ==> (b in w <==> b in w') && (b in pos ==> b in pos' && pos'[b] == pos[b])
    ensures Written(s, w') == Written(s, w) && First(s, w', behind) == First(s, w, behind)
    ensures Points(s, w, pos, behind) ==> Points(s, w', pos', behind)
  {
    if s != [] {
      SamePoints(s[1..], w, w', pos, pos', behind);
    }
  }

  // ---------- the places before and behind the last writer ----------

  lemma {:induction false} NoWriterBetween(s: seq<Block>, w: set<Block>, pos: map<Block, Place>, behind: Place, j: nat)
    requires Points(s, w, pos, behind) && j < |s|
    requires Written(s, w) == []
    ensures s[j] in pos && pos[s[j]] == behind
  {
    FirstIsHead(s, w, behind);
    if j > 0 {
      NoWriterBetween(s[1..], w, pos, behind, j - 1);
    }
  }

  lemma {:induction false} LastWriterBounds(s: seq<Block>, w: set<Block>, pos: map<Block, Place>, behind: Place, l: nat, j: nat)
    requires Points(s, w, pos, behind) && Outside(behind, s) && Distinct(s) && l < |s| && j < |s|
    requires Written(s, w) != [] && s[l] == Written(s, w)[|Written(s, w)| - 1]
    ensures s[j] in pos && (pos[s[j]] == behind <==> l < j)
  {
    var t := s[1..];
    WrittenMembers(t, w);
    FirstInside(t, w, behind);
    if Written(t, w) == [] {
      if j > 0 {
        NoWriterBetween(t, w, pos, behind, j - 1);
      }
    } else {
      FirstIsHead(t, w, behind);
      if j > 0 {
        LastWriterBounds(t, w, pos, behind, l - 1, j - 1);
      }
    }
  }

  // ---------- the rank of a clock in a sorted list ----------

  // How many blocks at the front are newer than c.
  function Rank(s: seq<Block>, clock: map<Block, int>, c: int): (r: nat)
    ensures r <= |s|
  {
    if s == [] || Clock(clock, s[0]) <= c then 0 else 1 + Rank(s[1..], clock, c)
  }

  lemma {:induction false} RankSplits(s: seq<Block>, clock: map<Block, int>, c: int, j: nat)
    requires Sorted(s, clock) && j < |s|
    ensures j < Rank(s, clock, c) <==> Clock(clock, s[j]) > c
  {
    if j > 0 {
      RankSplits(s[1..], clock, c, j - 1);
    }
  }

  lemma {:induction false} WrittenSorted(s: seq<Block>, w: set<Block>, clock: map<Block, int>)
    requires Sorted(s, clock)
    ensures Sorted(Written(s, w), clock)
  {
    if s != [] {
      assert s == [s[0]] + s[1..];
      SortedAppend([s[0]], s[1..], clock);
      WrittenSorted(s[1..], w, clock);
      WrittenMembers(s[1..], w);
      SortedAppend([s[0]], Written(s[1..], w), clock);
    }
  }

  // The writers among the newer blocks are the newer writers.
  lemma {:induction false} RankOfWriters(s: seq<Block>, w: set<Block>, clock: map<Block, int>, c: int)
    requires Sorted(s, clock)
    ensures Rank(Written(s, w), clock, c) == |Written(s[..Rank(s, clock, c)], w)|
  {
    var p := Rank(s, clock, c);
    if p == 0 {
      WrittenMembers(s, w);
      if Written(s, w) != [] {
        assert Written(s, w)[0] in Written(s, w);
        var j :| 0 <= j < |s| && s[j] == Written(s, w)[0];
        assert Clock(clock, s[0]) >= Clock(clock, s[j]);
      }
    } else {
      assert s[..p] == [s[0]] + s[1..][..p - 1];
      assert s[..p][1..] == s[1..][..p - 1];
      RankOfWriters(s[1..], w, clock, c);
    }
  }

  // ---------- what the operations do to the lists ----------

  ghost predicate Unchanged(s: seq<Block>, pos: map<Block, Place>, pos': map<Block, Place>) {
    forall b :: b in s && b in pos ==> b in pos' && pos'[b] == pos[b]
  }

  // A list in three parts, with the one block the operation is about in the middle.
  lemma Around(a: seq<Block>, b: Block, rest: seq<Block>, w: set<Block>, pos: map<Block, Place>)
    ensures Written(a + ([b] + rest), w) == Written(a, w) + Written([b] + rest, w)
    ensures Points(a + ([b] + rest), w, pos, End) <==>
            && Points(a, w, pos, First([b] + rest, w, End))
            && b in pos && pos[b] == First([b] + rest, w, End)
            && Points(rest, w, pos, End)
    ensures First([b] + rest, w, End) == if b in w then At(b) else First(rest, w, End)
    ensures Written([b] + rest, w) == if b in w then [b] + Written(rest, w) else Written(rest, w)
  {
    WrittenAppend(a, [b] + rest, w);
    PointsAppend(a, [b] + rest, w, pos, End);
    assert ([b] + rest)[1..] == rest;
  }

  lemma Apart(a: seq<Block>, b: Block, rest: seq<Block>)
    requires Distinct(a + ([b] + rest))
    ensures b !in a && b !in rest && Distinct(a) && Distinct(rest) && Distinct(a + rest)
    ensures forall x :: x in a ==> x !in rest
  {
    var s := a + ([b] + rest);
    assert s[|a|] == b;
    assert forall j :: 0 <= j < |a| ==> s[j] == a[j];
    assert forall j :: 0 <= j < |rest| ==> s[|a| + 1 + j] == rest[j];
  }

  lemma Together(a: seq<Block>, b: Block, rest: seq<Block>)
    requires Distinct(a + rest) && b !in a && b !in rest
    ensures Distinct(a + ([b] + rest))
  {
    var s := a + ([b] + rest);
    assert forall j :: 0 <= j < |a| ==> s[j] == a[j] && (a + rest)[j] == a[j];
    assert forall j :: 0 <= j < |rest| ==> s[|a| + 1 + j] == rest[j] && (a + rest)[|a| + j] == rest[j];
    assert forall j :: 0 <= j < |s| ==> j < |a| || j == |a| || s[j] == rest[j - |a| - 1];
  }

  lemma PlaceBehind(rest: seq<Block>, a: seq<Block>, w: set<Block>)
    requires forall x :: x in a ==> x !in rest
    ensures Outside(First(rest, w, End), a)
  {
    FirstInside(rest, w, End);
  }

  // A new accessor.
  lemma AddedReader(a: seq<Block>, b: Block, rest: seq<Block>, w: set<Block>, writers: seq<Block>,
                    pos: map<Block, Place>, pos': map<Block, Place>)
    requires Linked(a + rest, writers, pos, w) && b !in a && b !in rest
    requires Unchanged(a + rest, pos, pos') && b in pos' && pos'[b] == First(rest, w, End)
    ensures Linked(a + ([b] + rest), writers, pos', w)
  {
    Together(a, b, rest);
    assert b in w ==> b in a + rest;
    Around(a, b, rest, w, pos');
    SamePoints(a + rest, w, w, pos, pos', End);
    PointsAppend(a, rest, w, pos', End);
    WrittenAppend(a, rest, w);
  }

  // An accessor that has not been written goes away.
  lemma DroppedReader(a: seq<Block>, b: Block, rest: seq<Block>, w: set<Block>, writers: seq<Block>, pos: map<Block, Place>)
    requires Linked(a + ([b] + rest), writers, pos, w) && b !in w
    ensures Linked(a + rest, writers, pos, w)
  {
    Apart(a, b, rest);
    Around(a, b, rest, w, pos);
    PointsAppend(a, rest, w, pos, End);
    WrittenAppend(a, rest, w);
    assert forall x :: x in a + ([b] + rest) ==> x == b || x in a + rest;
  }

  // An accessor becomes a writer.
  lemma Promoted(a: seq<Block>, b: Block, rest: seq<Block>, w: set<Block>, writers: seq<Block>,
                 pos: map<Block, Place>, pos': map<Block, Place>)
    requires Linked(a + ([b] + rest), writers, pos, w) && b !in w
    requires Retargeted(a, pos, First(rest, w, End), At(b), pos') && Unchanged(rest, pos, pos')
    requires b in pos' && pos'[b] == At(b)
    ensures Linked(a + ([b] + rest), Written(a, w) + ([b] + Written(rest, w)), pos', w + {b})
  {
    Apart(a, b, rest);
    Around(a, b, rest, w, pos);
    Around(a, b, rest, w + {b}, pos');
    PlaceBehind(rest, a, w);
    RetargetedPoints(a, w, pos, First(rest, w, End), At(b), pos');
    SamePoints(a, w, w + {b}, pos', pos', At(b));
    SamePoints(rest, w, w + {b}, pos, pos', End);
    assert b in a + ([b] + rest);
  }

  // A writer becomes a mere accessor.
  lemma Demoted(a: seq<Block>, b: Block, rest: seq<Block>, w: set<Block>, writers: seq<Block>,
                pos: map<Block, Place>, pos': map<Block, Place>)
    requires Linked(a + ([b] + rest), writers, pos, w) && b in w
    requires Retargeted(a, pos, At(b), First(rest, w, End), pos') && Unchanged(rest, pos, pos')
    requires b in pos' && pos'[b] == First(rest, w, End)
    ensures Linked(a + ([b] + rest), Written(a, w) + Written(rest, w), pos', w - {b})
  {
    Apart(a, b, rest);
    Around(a, b, rest, w, pos);
    Around(a, b, rest, w - {b}, pos');
    RetargetedPoints(a, w, pos, At(b), First(rest, w, End), pos');
    SamePoints(a, w, w - {b}, pos', pos', First(rest, w, End));
    SamePoints(rest, w, w - {b}, pos, pos', End);
  }

  // Those that pointed to the writer at i, which stand from lo on, follow it to the next writer.
  lemma DemotedAt(s: seq<Block>, i: nat, w: set<Block>, writers: seq<Block>, pos: map<Block, Place>, lo: nat, pos': map<Block, Place>)
    requires Linked(s, writers, pos, w) && i < |s| && s[i] in w && lo <= i && Behind(s[..i], w, lo)
    requires forall b :: b in s[lo..i] || b == s[i] ==> b in pos' && pos'[b] == First(s[i + 1..], w, End)
    requires forall b :: b !in s[lo..i] && b != s[i] && b in pos ==> b in pos' && pos'[b] == pos[b]
    ensures Linked(s, Written(s[..i], w) + Written(s[i + 1..], w), pos', w - {s[i]})
  {
    var a, b, rest := s[..i], s[i], s[i + 1..];
    Parts(s, i);
    Apart(a, b, rest);
    Around(a, b, rest, w, pos);
    assert s[lo..i] == a[lo..];
    NotBefore(a, lo);
    RetargetBehind(a, w, pos, At(b), First(rest, w, End), lo, pos');
    Demoted(a, b, rest, w, writers, pos, pos');
  }

  lemma NotBefore(a: seq<Block>, lo: nat)
    requires Distinct(a) && lo <= |a|
    ensures forall x :: x in a[..lo] ==> x !in a[lo..]
  {
  }

  // An accessor moves forward, past the blocks of `passed`.
  lemma MovedForward(a: seq<Block>, passed: seq<Block>, b: Block, rest: seq<Block>, w: set<Block>, writers: seq<Block>,
                     pos: map<Block, Place>, pos': map<Block, Place>)
    requires Linked(a + (passed + ([b] + rest)), writers, pos, w)
    requires Retargeted(a, pos, First(passed + ([b] + rest), w, End), First([b] + (passed + rest), w, End), pos')
    requires Retargeted(passed, pos, First([b] + rest, w, End), First(rest, w, End), pos')
    requires Unchanged(rest, pos, pos') && b in pos' && pos'[b] == First([b] + (passed + rest), w, End)
    ensures Linked(a + ([b] + (passed + rest)), Written(a + ([b] + (passed + rest)), w), pos', w)
  {
    var t := First([b] + (passed + rest), w, End);
    DistinctMoved(a, passed, b, rest);
    PointsAppend(a, passed + ([b] + rest), w, pos, End);
    PlaceBehind(passed + ([b] + rest), a, w);
    RetargetedPoints(a, w, pos, First(passed + ([b] + rest), w, End), t, pos');
    MovedTail(passed, b, rest, w, pos, pos');
    Around(a, b, passed + rest, w, pos');
  }

  lemma MovedWriters(a: seq<Block>, passed: seq<Block>, b: Block, rest: seq<Block>, w: set<Block>)
    ensures var own := if b in w then [b] else [];
      && Written(a + (passed + ([b] + rest)), w) == Written(a, w) + (Written(passed, w) + (own + Written(rest, w)))
      && Written(a + ([b] + (passed + rest)), w) == Written(a, w) + (own + (Written(passed, w) + Written(rest, w)))
  {
    WrittenCons(b, rest, w);
    WrittenCons(b, passed + rest, w);
    WrittenAppend(a, passed + ([b] + rest), w);
    WrittenAppend(passed, [b] + rest, w);
    WrittenAppend(a, [b] + (passed + rest), w);
    WrittenAppend(passed, rest, w);
  }

  lemma WrittenCons(b: Block, rest: seq<Block>, w: set<Block>)
    ensures Written([b] + rest, w) == (if b in w then [b] else []) + Written(rest, w)
  {
    assert ([b] + rest)[1..] == rest;
  }

  lemma MovedTail(passed: seq<Block>, b: Block, rest: seq<Block>, w: set<Block>, pos: map<Block, Place>, pos': map<Block, Place>)
    requires Points(passed + ([b] + rest), w, pos, End) && forall x :: x in passed ==> x !in [b] + rest
    requires Retargeted(passed, pos, First([b] + rest, w, End), First(rest, w, End), pos') && Unchanged(rest, pos, pos')
    ensures Points(passed + rest, w, pos', End)
  {
    Around(passed, b, rest, w, pos);
    PlaceBehind([b] + rest, passed, w);
    RetargetedPoints(passed, w, pos, First([b] + rest, w, End), First(rest, w, End), pos');
    SamePoints(rest, w, w, pos, pos', End);
    PointsAppend(passed, rest, w, pos', End);
  }

  lemma DistinctMoved(a: seq<Block>, passed: seq<Block>, b: Block, rest: seq<Block>)
    requires Distinct(a + (passed + ([b] + rest)))
    ensures Distinct(a + ([b] + (passed + rest)))
    ensures forall x :: x in a + (passed + ([b] + rest)) <==> x in a + ([b] + (passed + rest))
    ensures forall x :: x in a ==> x !in passed + ([b] + rest)
    ensures forall x :: x in passed ==> x !in [b] + rest
  {
    Regroup(a, passed, [b] + rest);
    Apart(a + passed, b, rest);
    Regroup(a, passed, rest);
    assert b !in a && b !in passed + rest;
    Together(a, b, passed + rest);
    DistinctParts(a, passed + ([b] + rest));
    DistinctParts(passed, [b] + rest);
  }

  lemma DistinctParts(a: seq<Block>, b: seq<Block>)
    requires Distinct(a + b)
    ensures Distinct(a) && Distinct(b) && forall x :: x in a ==> x !in b
  {
    assert forall j :: 0 <= j < |a| ==> (a + b)[j] == a[j];
    assert forall j :: 0 <= j < |b| ==> (a + b)[|a| + j] == b[j];
  }

  lemma Regroup(a: seq<Block>, b: seq<Block>, c: seq<Block>)
    ensures a + (b + c) == (a + b) + c
  {
  }

  // ---------- iterators as indices ----------

  // Where the list node of b is.
  function Index(s: seq<Block>, b: Block): (i: nat)
    requires b in s
    ensures i < |s| && s[i] == b
  {
    if s[0] == b then 0 else 1 + Index(s[1..], b)
  }

  function Without(s: seq<Block>, b: Block): seq<Block> {
    if b in s then s[..Index(s, b)] + s[Index(s, b) + 1..] else s
  }

  function PlaceIndex(s: seq<Block>, p: Place): (i: nat)
    requires p.At? ==> p.block in s
    ensures i <= |s|
  {
    if p == End then |s| else Index(s, p.block)
  }

  function PlaceAt(s: seq<Block>, i: nat): Place
    requires i <= |s|
  {
    if i == |s| then End else At(s[i])
  }

  lemma {:induction false} IndexIn(a: seq<Block>, t: seq<Block>, b: Block)
    requires b in a || b in t
    ensures Index(a + t, b) == if b in a then Index(a, b) else |a| + Index(t, b)
  {
    if a == [] {
      assert a + t == t;
    } else if a[0] != b {
      assert (a + t)[1..] == a[1..] + t;
      IndexIn(a[1..], t, b);
    } else {
      assert (a + t)[0] == b;
    }
  }

  // A place in the list of writers, given as that of the first writer of `rest`.
  lemma PlaceOfFirst(a: seq<Block>, rest: seq<Block>, w: set<Block>)
    requires forall x :: x in a ==> x !in rest
    ensures First(rest, w, End) == PlaceAt(Written(a, w) + Written(rest, w), |Written(a, w)|)
    ensures First(rest, w, End).At? ==> First(rest, w, End).block in Written(a, w) + Written(rest, w)
    ensures PlaceIndex(Written(a, w) + Written(rest, w), First(rest, w, End)) == |Written(a, w)|
  {
    FirstIsHead(rest, w, End);
    WrittenMembers(a, w);
    if Written(rest, w) != [] {
      WrittenMembers(rest, w);
      assert Written(rest, w)[0] in Written(rest, w);
      IndexIn(Written(a, w), Written(rest, w), Written(rest, w)[0]);
    }
  }

  // The blocks behind the last writer are those that point behind the list.
  ghost predicate Behind(s: seq<Block>, w: set<Block>, lo: nat) {
    lo == if Written(s, w) == [] then 0
          else if Written(s, w)[|Written(s, w)| - 1] in s then Index(s, Written(s, w)[|Written(s, w)| - 1]) + 1 else 0
  }

  // Giving those blocks a new place retargets the list.
  lemma RetargetBehind(s: seq<Block>, w: set<Block>, pos: map<Block, Place>, from: Place, to: Place, lo: nat, pos': map<Block, Place>)
    requires Points(s, w, pos, from) && Outside(from, s) && Distinct(s) && Behind(s, w, lo) && lo <= |s|
    requires forall b :: b in s[lo..] ==> b in pos' && pos'[b] == to
    requires Unchanged(s[..lo], pos, pos')
    ensures Retargeted(s, pos, from, to, pos')
  {
    WrittenMembers(s, w);
    var last := |Written(s, w)| - 1;
    assert last >= 0 ==> Written(s, w)[last] in Written(s, w);
    forall b | b in s && b in pos
      ensures b in pos' && pos'[b] == if pos[b] == from then to else pos[b]
    {
      var j := Index(s, b);
      if last < 0 {
        NoWriterBetween(s, w, pos, from, j);
        assert s[lo..][j] == b;
      } else {
        LastWriterBounds(s, w, pos, from, lo - 1, j);
        if j < lo {
          assert s[..lo][j] == b;
        } else {
          assert s[lo..][j - lo] == b;
        }
      }
    }
  }

  // Giving the blocks from lo on, which point behind the list, a new place retargets the list, when
  // the block in front of them points elsewhere.
  lemma RetargetSuffix(s: seq<Block>, w: set<Block>, pos: map<Block, Place>, from: Place, to: Place, lo: nat)
    requires Points(s, w, pos, from) && Outside(from, s) && lo <= |s|
    requires forall b :: b in s[lo..] ==> b in pos && pos[b] == from
    requires lo > 0 ==> s[lo - 1] in pos && pos[s[lo - 1]] != from
    ensures Retargeted(s, pos, from, to, Repointed(pos, s[lo..], to))
  {
    forall b | b in s && b in pos
      ensures b in s[lo..] <==> pos[b] == from
    {
      var j := Index(s, b);
      if j < lo {
        TargetsAreSuffix(s, w, pos, from, j, lo - 1);
      } else {
        assert s[lo..][j - lo] == b;
      }
    }
  }

  function Repointed(pos: map<Block, Place>, s: seq<Block>, to: Place): map<Block, Place> {
    map b | b in pos :: if b in s then to else pos[b]
  }

  // ---------- the order of the accessors ----------

  // The list is sorted but for b, whose clock may have grown.
  ghost predicate Ahead(s: seq<Block>, clock: map<Block, int>, i: nat) {
    && i < |s|
    && Sorted(s[..i] + s[i + 1..], clock)
    && forall j :: i < j < |s| ==> Clock(clock, s[j]) <= Clock(clock, s[i])
  }

  lemma ClockHasGrown(s: seq<Block>, clock: map<Block, int>, i: nat, c: int)
    requires Sorted(s, clock) && Distinct(s) && i < |s| && Clock(clock, s[i]) <= c
    ensures Ahead(s, clock[s[i] := c], i)
  {
    var t := s[..i] + s[i + 1..];
    assert forall j :: 0 <= j < |t| ==> t[j] == s[if j < i then j else j + 1];
  }

  lemma SortedFront(s: seq<Block>, clock: map<Block, int>, i: nat)
    requires Ahead(s, clock, i)
    ensures Sorted(s[..i], clock)
  {
    var t := s[..i] + s[i + 1..];
    assert forall j :: 0 <= j < i ==> s[..i][j] == t[j];
  }

  lemma SortedAppend(a: seq<Block>, t: seq<Block>, clock: map<Block, int>)
    ensures Sorted(a + t, clock) <==>
            Sorted(a, clock) && Sorted(t, clock) && forall x, y :: x in a && y in t ==> Clock(clock, x) >= Clock(clock, y)
  {
    var s := a + t;
    assert forall j :: 0 <= j < |a| ==> s[j] == a[j];
    assert forall j :: 0 <= j < |t| ==> s[|a| + j] == t[j];
    assert forall j :: |a| <= j < |s| ==> s[j] == t[j - |a|];
  }

  lemma SortedMove(a: seq<Block>, b: Block, t: seq<Block>, clock: map<Block, int>)
    requires Sorted(a + t, clock)
    requires forall x :: x in a ==> Clock(clock, x) >= Clock(clock, b)
    requires forall x :: x in t ==> Clock(clock, x) <= Clock(clock, b)
    ensures Sorted(a + ([b] + t), clock)
  {
    SortedAppend(a, t, clock);
    SortedAppend([b], t, clock);
    SortedAppend(a, [b] + t, clock);
  }

  // The list taken apart around the block at i.
  lemma Parts(s: seq<Block>, i: nat)
    requires i < |s|
    ensures s == s[..i] + ([s[i]] + s[i + 1..])
    ensures s[..i] + s[i..] == s
  {
  }

  lemma InsertedByRank(s: seq<Block>, clock: map<Block, int>, b: Block)
    requires Sorted(s, clock)
    ensures var p := Rank(s, clock, Clock(clock, b)); Sorted(s[..p] + ([b] + s[p..]), clock)
  {
    var c := Clock(clock, b);
    var p := Rank(s, clock, c);
    forall j | 0 <= j < |s|
      ensures j < p <==> Clock(clock, s[j]) > c
    {
      RankSplits(s, clock, c, j);
    }
    assert s == s[..p] + s[p..];
    SortedMove(s[..p], b, s[p..], clock);
  }

  lemma SortedWithout(a: seq<Block>, b: Block, rest: seq<Block>, clock: map<Block, int>)
    requires Sorted(a + ([b] + rest), clock)
    ensures Sorted(a + rest, clock)
  {
    SortedAppend(a, [b] + rest, clock);
    SortedAppend([b], rest, clock);
    SortedAppend(a, rest, clock);
  }

  // A writer's place among the writers.
  lemma WriterAt(a: seq<Block>, b: Block, rest: seq<Block>, w: set<Block>)
    requires Distinct(a + ([b] + rest)) && b in w
    ensures var wr, m := Written(a + ([b] + rest), w), |Written(a, w)|;
      && b in wr && Index(wr, b) == m && wr[..m] == Written(a, w) && wr[m + 1..] == Written(rest, w)
      && PlaceAt(wr, m + 1) == First(rest, w, End)
  {
    Apart(a, b, rest);
    Around(a, b, rest, w, map[]);
    WrittenMembers(a, w);
    IndexIn(Written(a, w), [b] + Written(rest, w), b);
    FirstIsHead(rest, w, End);
    Pieces(Written(a, w), b, Written(rest, w));
  }

  lemma Pieces(x: seq<Block>, b: Block, y: seq<Block>)
    ensures var s := x + ([b] + y);
      |s| == |x| + 1 + |y| && s[..|x|] == x && s[|x| + 1..] == y && (y != [] ==> s[|x| + 1] == y[0])
  {
  }

  // ---------- a block moves forward ----------

  // The block at i has moved to p.
  function Forward(s: seq<Block>, p: nat, i: nat): (r: seq<Block>)
    requires p <= i < |s|
    ensures |r| == |s|
  {
    s[..p] + ([s[i]] + (s[p..i] + s[i + 1..]))
  }

  // Where the block at i belongs now: in front of the first block that is not newer.
  function Target(s: seq<Block>, clock: map<Block, int>, i: nat): (p: nat)
    requires i < |s|
    ensures p <= i
  {
    Rank(s[..i], clock, Clock(clock, s[i]))
  }

  lemma MoveParts(s: seq<Block>, p: nat, i: nat)
    requires p <= i < |s|
    ensures s == s[..p] + (s[p..i] + ([s[i]] + s[i + 1..]))
    ensures s[..i] == s[..p] + s[p..i] && s[..i] + s[i + 1..] == s[..p] + (s[p..i] + s[i + 1..])
  {
  }

  lemma TargetSplits(s: seq<Block>, clock: map<Block, int>, i: nat, j: nat)
    requires Ahead(s, clock, i) && j < |s|
    ensures j < Target(s, clock, i) <==> Clock(clock, s[j]) > Clock(clock, s[i])
  {
    SortedFront(s, clock, i);
    if j < i {
      assert s[..i][j] == s[j];
      RankSplits(s[..i], clock, Clock(clock, s[i]), j);
    }
  }

  lemma ForwardSorts(s: seq<Block>, clock: map<Block, int>, i: nat)
    requires Ahead(s, clock, i)
    ensures Sorted(Forward(s, Target(s, clock, i), i), clock)
  {
    var p := Target(s, clock, i);
    MoveParts(s, p, i);
    forall j | 0 <= j < |s|
      ensures j < p <==> Clock(clock, s[j]) > Clock(clock, s[i])
    {
      TargetSplits(s, clock, i, j);
    }
    SortedMove(s[..p], s[i], s[p..i] + s[i + 1..], clock);
  }

  // The writers in front of the block's new place are the writers that are newer.
  lemma TargetOfWriters(s: seq<Block>, w: set<Block>, clock: map<Block, int>, i: nat)
    requires Ahead(s, clock, i)
    ensures |Written(s[..Target(s, clock, i)], w)| == Rank(Written(s[..i], w), clock, Clock(clock, s[i]))
  {
    var p := Target(s, clock, i);
    SortedFront(s, clock, i);
    assert s[..i][..p] == s[..p];
    RankOfWriters(s[..i], w, clock, Clock(clock, s[i]));
  }

  // Between its new and its old place a writer is pointed to only by a suffix of the blocks.
  lemma PassedPoints(s: seq<Block>, w: set<Block>, pos: map<Block, Place>, p: nat, i: nat)
    requires Linked(s, Written(s, w), pos, w) && p <= i < |s| && s[i] in w
    ensures Points(s[p..i], w, pos, At(s[i])) && Outside(At(s[i]), s[p..i])
    ensures forall j :: 0 <= j < |s| ==> s[j] in pos
    ensures s[i] in Written(s, w)
    ensures PlaceAt(Written(s, w), Index(Written(s, w), s[i]) + 1) == First(s[i + 1..], w, End)
  {
    MoveParts(s, p, i);
    PointsAppend(s[..p], s[p..i] + ([s[i]] + s[i + 1..]), w, pos, End);
    Around(s[p..i], s[i], s[i + 1..], w, pos);
    Parts(s, i);
    WriterAt(s[..i], s[i], s[i + 1..], w);
    forall j | 0 <= j < |s|
      ensures s[j] in pos
    {
      PointsHave(s, w, pos, End, j);
    }
  }

  lemma {:induction false} PointsHave(s: seq<Block>, w: set<Block>, pos: map<Block, Place>, behind: Place, j: nat)
    requires Points(s, w, pos, behind) && j < |s|
    ensures s[j] in pos
  {
    if j > 0 {
      PointsHave(s[1..], w, pos, behind, j - 1);
    }
  }

  // What turning the readers from n on does to the blocks that are passed.
  lemma ReadersTurned(s: seq<Block>, w: set<Block>, pos: map<Block, Place>, p: nat, n: nat, i: nat, pred: Place)
    requires Linked(s, Written(s, w), pos, w) && p <= n <= i < |s| && s[i] in w
    requires n > p ==> s[n - 1] in pos && pos[s[n - 1]] != At(s[i])
    requires forall b :: b in s[n..i] ==> b in pos && pos[b] == At(s[i])
    ensures Retargeted(s[p..i], pos, At(s[i]), pred, Repointed(pos, s[n..i], pred))
    ensures Unchanged(s[..p], pos, Repointed(pos, s[n..i], pred))
    ensures Unchanged(s[i..], pos, Repointed(pos, s[n..i], pred))
  {
    PassedPoints(s, w, pos, p, i);
    SliceOfSlice(s, p, n, i);
    RetargetSuffix(s[p..i], w, pos, At(s[i]), pred, n - p);
    TurnedElsewhere(s, pos, p, n, i, pred);
  }

  lemma SliceOfSlice(s: seq<Block>, p: nat, n: nat, i: nat)
    requires p <= n <= i <= |s|
    ensures s[p..i][n - p..] == s[n..i] && (n > p ==> s[p..i][n - p - 1] == s[n - 1])
  {
  }

  lemma TurnedElsewhere(s: seq<Block>, pos: map<Block, Place>, p: nat, n: nat, i: nat, pred: Place)
    requires Distinct(s) && p <= n <= i < |s|
    ensures Unchanged(s[..p], pos, Repointed(pos, s[n..i], pred))
    ensures Unchanged(s[i..], pos, Repointed(pos, s[n..i], pred))
  {
    NotAmong(s, p, n, i);
  }

  lemma NotAmong(s: seq<Block>, p: nat, n: nat, i: nat)
    requires Distinct(s) && p <= n <= i < |s|
    ensures forall b :: b in s[n..i] ==> b !in s[..p] && b !in s[i..]
  {
  }

  // The turn stops between the block's new place and its old one.
  lemma TurnStops(s: seq<Block>, clock: map<Block, int>, i: nat, n: nat)
    requires Ahead(s, clock, i) && n <= i
    requires forall j :: n <= j < i ==> Clock(clock, s[j]) <= Clock(clock, s[i])
    ensures Target(s, clock, i) <= n
    ensures n > Target(s, clock, i) ==> Clock(clock, s[n - 1]) <= Clock(clock, s[i])
  {
    if n < i {
      TargetSplits(s, clock, i, n);
    }
    if n > 0 {
      TargetSplits(s, clock, i, n - 1);
    }
  }

  // Where the block at i points, as an index into the writers.
  lemma WriterPlace(s: seq<Block>, w: set<Block>, pos: map<Block, Place>, i: nat)
    requires Linked(s, Written(s, w), pos, w) && i < |s|
    ensures s[i] in pos && (pos[s[i]].At? ==> pos[s[i]].block in Written(s, w))
    ensures PlaceIndex(Written(s, w), pos[s[i]]) == |Written(s[..i], w)|
    ensures |Written(s[..i], w)| <= |Written(s, w)| && Written(s, w)[..|Written(s[..i], w)|] == Written(s[..i], w)
  {
    Parts(s, i);
    Around(s[..i], s[i], s[i + 1..], w, pos);
    DistinctParts(s[..i], [s[i]] + s[i + 1..]);
    WrittenAppend(s[..i], [s[i]] + s[i + 1..], w);
    PlaceOfFirst(s[..i], [s[i]] + s[i + 1..], w);
  }

  // The same block moves forward among the writers.
  lemma ForwardWriters(s: seq<Block>, w: set<Block>, p: nat, i: nat)
    requires p <= i < |s|
    ensures var wr, m, k := Written(s, w), |Written(s[..p], w)|, |Written(s[..i], w)|;
      && m <= k <= |wr|
      && (s[i] in w ==> k < |wr| && wr[k] == s[i])
      && Written(Forward(s, p, i), w) == if s[i] in w then wr[..m] + ([s[i]] + (wr[m..k] + wr[k + 1..])) else wr
  {
    var x, y, z := Written(s[..p], w), Written(s[p..i], w), Written(s[i + 1..], w);
    MoveParts(s, p, i);
    MovedWriters(s[..p], s[p..i], s[i], s[i + 1..], w);
    WrittenAppend(s[..p], s[p..i], w);
    if s[i] in w {
      assert Written(s, w) == x + (y + ([s[i]] + z));
      FourPieces(x, y, [s[i]], z);
    } else {
      ThreePieces(x, y, z);
    }
  }

  lemma ThreePieces(x: seq<Block>, y: seq<Block>, z: seq<Block>)
    ensures x + (y + ([] + z)) == x + ([] + (y + z))
  {
    assert [] + z == z && [] + (y + z) == y + z;
  }

  lemma FourPieces(x: seq<Block>, y: seq<Block>, b: seq<Block>, z: seq<Block>)
    requires |b| == 1
    ensures var s, m, k := x + (y + (b + z)), |x|, |x| + |y|;
      k < |s| && s[k] == b[0] && s[..m] == x && s[m..k] == y && s[k + 1..] == z
  {
  }

  // All that a move forward has to establish.
  lemma ForwardKeepsLinks(s: seq<Block>, w: set<Block>, pos: map<Block, Place>, p: nat, i: nat, pos': map<Block, Place>)
    requires Linked(s, Written(s, w), pos, w) && p <= i < |s|
    requires Retargeted(s[..p], pos, First(s[p..], w, End), if s[i] in w then At(s[i]) else First(s[p..], w, End), pos')
    requires Retargeted(s[p..i], pos, First(s[i..], w, End), First(s[i + 1..], w, End), pos')
    requires Unchanged(s[i + 1..], pos, pos')
    requires s[i] in pos' && pos'[s[i]] == if s[i] in w then At(s[i]) else First(s[p..], w, End)
    ensures Linked(Forward(s, p, i), Written(Forward(s, p, i), w), pos', w)
  {
    var a, passed, b, rest := s[..p], s[p..i], s[i], s[i + 1..];
    MoveParts(s, p, i);
    assert s[p..] == passed + ([b] + rest);
    assert s[i..] == [b] + rest;
    Around([], b, passed + rest, w, pos);
    FirstAppend(passed, [b] + rest, w, End);
    FirstAppend(passed, rest, w, End);
    Around([], b, rest, w, pos);
    MovedForward(a, passed, b, rest, w, Written(s, w), pos, pos');
  }

  lemma FrontPoints(s: seq<Block>, w: set<Block>, pos: map<Block, Place>, p: nat, pos': map<Block, Place>)
    requires Linked(s, Written(s, w), pos, w) && p <= |s| && Unchanged(s[..p], pos, pos')
    ensures Points(s[..p], w, pos, First(s[p..], w, End)) && Points(s[..p], w, pos', First(s[p..], w, End))
    ensures Outside(First(s[p..], w, End), s[..p])
    ensures forall b :: b in s[..p] ==> b in pos && b in pos'
  {
    assert s == s[..p] + s[p..];
    DistinctParts(s[..p], s[p..]);
    PointsAppend(s[..p], s[p..], w, pos, End);
    PlaceBehind(s[p..], s[..p], w);
    SamePoints(s[..p], w, w, pos, pos', First(s[p..], w, End));
    forall b | b in s[..p]
      ensures b in pos
    {
      PointsHave(s[..p], w, pos, First(s[p..], w, End), Index(s[..p], b));
    }
  }

  lemma BackPoints(s: seq<Block>, w: set<Block>, pos: map<Block, Place>, p: nat, i: nat)
    requires Linked(s, Written(s, w), pos, w) && p <= i < |s|
    ensures s[i] in pos && pos[s[i]] == First(s[i..], w, End)
  {
    Parts(s, i);
    assert s[i..] == [s[i]] + s[i + 1..];
    Around(s[..i], s[i], s[i + 1..], w, pos);
  }

  lemma BackMembers(s: seq<Block>, p: nat, i: nat)
    requires Distinct(s) && p <= i < |s|
    ensures forall b :: b in s[p..] ==> b !in s[..p]
    ensures forall b :: b in s[p..i] ==> b in s[p..]
    ensures forall b :: b in s[i + 1..] ==> b in s[p..] && b in s[i..]
    ensures s[i] in s[p..] && s[i] in s[i..]
  {
    assert s == s[..p] + s[p..];
    DistinctParts(s[..p], s[p..]);
    assert s[p..] == s[p..i] + s[i..];
    assert s[i..] == [s[i]] + s[i + 1..];
  }

  // The first writer from p on, as a place among the writers.
  lemma FirstPlace(s: seq<Block>, w: set<Block>, p: nat)
    requires p <= |s| && Distinct(s)
    ensures |Written(s[..p], w)| <= |Written(s, w)|
    ensures PlaceAt(Written(s, w), |Written(s[..p], w)|) == First(s[p..], w, End)
  {
    assert s == s[..p] + s[p..];
    WrittenAppend(s[..p], s[p..], w);
    DistinctParts(s[..p], s[p..]);
    PlaceOfFirst(s[..p], s[p..], w);
  }

  lemma ForwardDistinct(s: seq<Block>, p: nat, i: nat)
    requires Distinct(s) && p <= i < |s|
    ensures Distinct(Forward(s, p, i)) && Forward(s, p, i)[..p] == s[..p]
  {
    MoveParts(s, p, i);
    DistinctMoved(s[..p], s[p..i], s[i], s[i + 1..]);
  }

  lemma WriterForwarded(s: seq<Block>, w: set<Block>, pos: map<Block, Place>, p: nat, i: nat, mid: map<Block, Place>,
                        pos': map<Block, Place>)
    requires Linked(s, Written(s, w), pos, w) && p <= i < |s| && s[i] in w
    requires Retargeted(s[p..i], pos, At(s[i]), First(s[i + 1..], w, End), mid)
    requires Unchanged(s[..p], pos, mid) && Unchanged(s[i..], pos, mid)
    requires Retargeted(s[..p], mid, First(s[p..], w, End), At(s[i]), pos')
    requires forall b :: b in mid && b !in s[..p] ==> b in pos' && pos'[b] == mid[b]
    ensures Linked(Forward(s, p, i), Written(Forward(s, p, i), w), pos', w)
  {
    BackPoints(s, w, pos, p, i);
    BackMembers(s, p, i);
    ForwardKeepsLinks(s, w, pos, p, i, pos');
  }

  lemma ReaderForwarded(s: seq<Block>, w: set<Block>, pos: map<Block, Place>, p: nat, i: nat, pos': map<Block, Place>)
    requires Linked(s, Written(s, w), pos, w) && p <= i < |s| && s[i] !in w
    requires pos' == pos[s[i] := First(s[p..], w, End)]
    ensures Linked(Forward(s, p, i), Written(Forward(s, p, i), w), pos', w)
  {
    BackPoints(s, w, pos, p, i);
    BackMembers(s, p, i);
    assert s[i..][0] == s[i] && s[i..][1..] == s[i + 1..];
    assert s[i] !in s[..p] && s[i] !in s[p..i] && s[i] !in s[i + 1..];
    ForwardKeepsLinks(s, w, pos, p, i, pos');
  }

  lemma WriterNumber(s: seq<Block>, w: set<Block>, i: nat)
    requires Distinct(s) && i < |s| && s[i] in w
    ensures s[i] in Written(s, w) && Index(Written(s, w), s[i]) == |Written(s[..i], w)|
    ensures |Written(s[..i], w)| < |Written(s, w)|
  {
    Parts(s, i);
    WriterAt(s[..i], s[i], s[i + 1..], w);
  }

  // The place of the accessor at p splits the writers.
  lemma SplitWriters(s: seq<Block>, w: set<Block>, pos: map<Block, Place>, p: nat)
    requires Linked(s, Written(s, w), pos, w) && p <= |s|
    ensures p < |s| ==> s[p] in pos && (pos[s[p]].At? ==> pos[s[p]].block in Written(s, w))
    ensures var m := PlaceIndex(Written(s, w), if p == |s| then End else pos[s[p]]);
            Written(s, w)[..m] == Written(s[..p], w) && Written(s, w)[m..] == Written(s[p..], w)
  {
    assert s == s[..p] + s[p..];
    WrittenAppend(s[..p], s[p..], w);
    if p < |s| {
      WriterPlace(s, w, pos, p);
    } else {
      assert s[..p] == s && s[p..] == [];
    }
  }

  // A reader that has been written itself stands in front of the older writers.
  lemma BehindReader(s: seq<Block>, w: set<Block>, p: nat, b: Block)
    requires Distinct(s) && p <= |s| && (if b in s then p < |s| && s[p] == b else true)
    ensures var t := Written(s[p..], w);
            Written(s[if b in s then p + 1 else p..], w) == if t != [] && t[0] == b then t[1..] else t
  {
    WrittenMembers(s[p..], w);
    if p < |s| {
      assert s[p..][1..] == s[p + 1..];
      WrittenMembers(s[p + 1..], w);
      assert Written(s[p + 1..], w) != [] ==> Written(s[p + 1..], w)[0] in s[p + 1..];
    }
    assert Written(s[p..], w) != [] ==> Written(s[p..], w)[0] in s[p..];
  }

  // ---------- what the lists say ----------

  /** A block's place is the first written block at or behind its own position: itself if it is
      written, otherwise the nearest older writer. */
  lemma PlaceIsNearestWriter(s: seq<Block>, writers: seq<Block>, pos: map<Block, Place>, w: set<Block>, i: nat)
    requires Linked(s, writers, pos, w) && i < |s|
    ensures s[i] in pos
    ensures pos[s[i]] == End <==> forall k :: i <= k < |s| ==> s[k] !in w
    ensures forall j :: i <= j < |s| ==>
              (pos[s[i]] == At(s[j]) <==> s[j] in w && forall k :: i <= k < j ==> s[k] !in w)
  {
    assert s == s[..i] + s[i..];
    PointsAppend(s[..i], s[i..], w, pos, End);
    FirstAt(s, w, i);
  }

  lemma {:induction false} FirstAt(s: seq<Block>, w: set<Block>, i: nat)
    requires i < |s| && Distinct(s)
    ensures First(s[i..], w, End) == End <==> forall k :: i <= k < |s| ==> s[k] !in w
    ensures forall j :: i <= j < |s| ==>
              (First(s[i..], w, End) == At(s[j]) <==> s[j] in w && forall k :: i <= k < j ==> s[k] !in w)
    decreases |s| - i
  {
    assert s[i..][1..] == s[i + 1..];
    if s[i] !in w {
      if i + 1 < |s| {
        FirstAt(s, w, i + 1);
      }
      FirstInside(s[i + 1..], w, End);
    }
  }

  /** The list of writers and the places follow from the accessors and from which of them are written. */
  lemma LinksAreDetermined(s: seq<Block>, w: set<Block>, writers: seq<Block>, pos: map<Block, Place>,
                           writers': seq<Block>, pos': map<Block, Place>, i: nat)
    requires Linked(s, writers, pos, w) && Linked(s, writers', pos', w) && i < |s|
    ensures writers' == writers && s[i] in pos && s[i] in pos' && pos'[s[i]] == pos[s[i]]
  {
    assert s == s[..i] + s[i..];
    PointsAppend(s[..i], s[i..], w, pos, End);
    PointsAppend(s[..i], s[i..], w, pos', End);
  }
}
