/**
 The fetch pipeline: buckets of instructions are numbered when they are requested, become ready in
 any order, and are handed on in the order of their numbers.
 */
module FetchPipeline {
  import opened Options

  // A wrong-path instruction is a fake.
  datatype Inst = Inst(fake: bool)

  // A bucket: the object it is kept in, its number, when it became ready, and its instructions. A
  // clean mark is a bucket of its own.
  datatype IBucket = IBucket(obj: nat, clean: bool, pipeId: nat, clock: int, insts: seq<Inst>)

  // The buckets that are handed on: empty ones go straight back to their pool.
  function NonEmpty(s: seq<IBucket>): seq<IBucket> {
    if s == [] then []
    else NonEmpty(s[..|s| - 1]) + if s[|s| - 1].insts == [] then [] else [s[|s| - 1]]
  }

  function Cleans(s: seq<IBucket>): (n: nat)
    ensures n <= |s|
  {
    if s == [] then 0 else (if s[0].clean then 1 else 0) + Cleans(s[1..])
  }

  lemma {:induction false} CleansAppend(a: seq<IBucket>, b: seq<IBucket>)
    ensures Cleans(a + b) == Cleans(a) + Cleans(b)
  {
    if a == [] {
      assert a + b == b;
    } else {
      assert (a + b)[1..] == a[1..] + b;
      CleansAppend(a[1..], b);
    }
  }

  function Fakes(s: seq<Inst>): (n: nat)
    ensures n <= |s| && (n < |s| ==> !s[n].fake) && forall i :: 0 <= i < n ==> s[i].fake
  {
    if s == [] || !s[0].fake then 0 else 1 + Fakes(s[1..])
  }

  // ---------- in order ----------

  ghost predicate Numbered(s: seq<IBucket>) {
    forall i :: 0 <= i < |s| ==> s[i].pipeId == i
  }

  ghost predicate Increasing(s: seq<IBucket>) {
    forall i, j :: 0 <= i < j < |s| ==> s[i].pipeId < s[j].pipeId
  }

  /** Whatever order the buckets became ready in, those handed on are in the order of their numbers. */
  lemma {:induction false} NonEmptyInOrder(s: seq<IBucket>)
    requires Numbered(s)
    ensures Increasing(NonEmpty(s)) && forall i :: 0 <= i < |NonEmpty(s)| ==> NonEmpty(s)[i] in s && NonEmpty(s)[i].pipeId < |s|
  {
    if s != [] {
      NonEmptyInOrder(s[..|s| - 1]);
    }
  }

  /** And exactly the empty ones are left out. */
  lemma {:induction false} NonEmptyIsAll(s: seq<IBucket>, b: IBucket)
    ensures b in NonEmpty(s) <==> b in s && b.insts != []
  {
    if s != [] {
      NonEmptyIsAll(s[..|s| - 1], b);
      assert s == s[..|s| - 1] + [s[|s| - 1]];
    }
  }

  // Each number from the smallest one on that has not come in order is either in flight or received.
  ghost predicate NumbersRight(inFlight: set<nat>, received: map<nat, IBucket>, min: nat, max: nat) {
    && min <= max
    && (forall k :: k in inFlight || k in received <==> min <= k < max)
    && (forall k :: k in received ==> k !in inFlight && received[k].pipeId == k)
  }

  // What has come in order is what has been taken from the buffer and what is still there, but for
  // empty buckets.
  ghost predicate HistoryRight(history: seq<IBucket>, taken: seq<IBucket>, buffer: seq<IBucket>, min: nat) {
    && |history| == min && Numbered(history) && NonEmpty(history) == taken + buffer
    && forall i :: 0 <= i < |buffer| ==> buffer[i].insts != []
  }

  ghost predicate CleansRight(received: map<nat, IBucket>, cleanReceived: set<nat>) {
    && (forall k :: k in cleanReceived <==> k in received && received[k].clean)
    && (forall k :: k in cleanReceived ==> received[k].insts != [])
  }

  // What has become ready with the number k.
  function ReadyOf(history: seq<IBucket>, received: map<nat, IBucket>, k: nat): Option<IBucket> {
    if k < |history| then Some(history[k]) else if k in received then Some(received[k]) else None
  }

  // b has become ready and nothing else has changed.
  ghost predicate Joined(h: seq<IBucket>, r: map<nat, IBucket>, h': seq<IBucket>, r': map<nat, IBucket>, b: IBucket) {
    forall k :: ReadyOf(h', r', k) == if k == b.pipeId then Some(b) else ReadyOf(h, r, k)
  }

  ghost predicate Kept(h: seq<IBucket>, r: map<nat, IBucket>, h': seq<IBucket>, r': map<nat, IBucket>) {
    forall k :: ReadyOf(h', r', k) == ReadyOf(h, r, k)
  }

  lemma ReceiveJoins(h: seq<IBucket>, r: map<nat, IBucket>, b: IBucket)
    requires b.pipeId >= |h|
    ensures Joined(h, r, h, r[b.pipeId := b], b)
  {
  }

  lemma ArriveJoins(h: seq<IBucket>, r: map<nat, IBucket>, b: IBucket)
    requires b.pipeId == |h|
    ensures Joined(h, r, h + [b], r, b)
  {
  }

  lemma ClearKeeps(h: seq<IBucket>, r: map<nat, IBucket>)
    requires |h| in r
    ensures Kept(h, r, h + [r[|h|]], r - {|h|})
  {
  }

  lemma JoinedAndKept(h: seq<IBucket>, r: map<nat, IBucket>, h': seq<IBucket>, r': map<nat, IBucket>,
                      h'': seq<IBucket>, r'': map<nat, IBucket>, b: IBucket)
    requires Joined(h, r, h', r', b) && Kept(h', r', h'', r'')
    ensures Joined(h, r, h'', r'', b)
  {
  }

  class Pipeline {
    const pipeLength: int
    const maxIRequests: nat
    const poolSize: nat
    var bucketPool: seq<nat>
    var cleanBucketPool: seq<nat>
    var buffer: seq<IBucket>
    // What has become ready out of order, by number.
    var received: map<nat, IBucket>
    var maxItemCntr: nat
    var minItemCntr: nat
    var nIRequests: int
    var nCleanMarks: int

    // The numbers of the buckets that are not ready yet, and how many the consumer holds.
    ghost var inFlight: set<nat>
    ghost var held: nat
    // All buckets that have come in order, and those that NextItem has taken from the buffer.
    ghost var history: seq<IBucket>
    ghost var taken: seq<IBucket>
    ghost var cleanReceived: set<nat>

    ghost predicate Valid()
      reads this
    {
      Settling() && minItemCntr !in received
    }

    // What also holds while received buckets are being put in order.
    ghost predicate Settling()
      reads this
    {
      NumbersRight(inFlight, received, minItemCntr, maxItemCntr) && Accounts(0, 0) && nIRequests >= 0
    }

    // Everything is accounted for, but for so many clean marks and so many buckets.
    ghost predicate Accounts(marks: int, buckets: int)
      reads this
    {
      && HistoryRight(history, taken, buffer, minItemCntr)
      && CleansRight(received, cleanReceived)
      && nCleanMarks == |cleanReceived| + Cleans(buffer) + marks
      && nIRequests == maxIRequests - |inFlight|
      && |cleanBucketPool| + nCleanMarks == poolSize
      && |bucketPool| + |inFlight| + Pending() + held == poolSize + buckets
    }

    // The buckets, other than clean marks, that have become ready and are not handed on.
    ghost function Pending(): int
      reads this
    {
      |received.Keys| - |cleanReceived| + |buffer| - Cleans(buffer)
    }

    constructor (length: nat, maxReqs: nat)
      ensures Valid() && history == [] && taken == [] && inFlight == {} && held == 0
    {
      pipeLength, maxIRequests, poolSize := length, maxReqs, length + 1 + maxReqs;
      bucketPool := seq(length + 1 + maxReqs, i => 2 * i);
      cleanBucketPool := seq(length + 1 + maxReqs, i => 2 * i + 1);
      buffer, received, maxItemCntr, minItemCntr, nIRequests, nCleanMarks := [], map[], 0, 0, maxReqs, 0;
      inFlight, held, history, taken, cleanReceived := {}, 0, [], [], {};
    }

    // A bucket to fetch into, if there is one and there are not too many requests.
    method NewItem() returns (r: Option<IBucket>)
      requires Valid()
      modifies this`nIRequests, this`bucketPool, this`maxItemCntr, this`inFlight
      ensures Valid() && (r == None <==> old(nIRequests) == 0 || old(bucketPool) == [])
      ensures r == None ==> inFlight == old(inFlight) && maxItemCntr == old(maxItemCntr)
      ensures r.Some? ==> r.value.pipeId == old(maxItemCntr) && !r.value.clean && r.value.insts == []
                          && inFlight == old(inFlight) + {r.value.pipeId}
    {
      if nIRequests == 0 || bucketPool == [] {
        r := None;
      } else {
        var b := TakeBucket();
        r := Some(b);
      }
    }

    method TakeBucket() returns (b: IBucket)
      requires Valid() && nIRequests > 0 && bucketPool != []
      modifies this`nIRequests, this`bucketPool, this`maxItemCntr, this`inFlight
      ensures Valid() && b.pipeId == old(maxItemCntr) && !b.clean && b.insts == [] && inFlight == old(inFlight) + {b.pipeId}
    {
      IssueKeepsNumbers(inFlight, received, minItemCntr, maxItemCntr);
      b := IBucket(bucketPool[|bucketPool| - 1], false, maxItemCntr, 0, []);
      nIRequests := nIRequests - 1;
      bucketPool := bucketPool[..|bucketPool| - 1];
      inFlight := inFlight + {maxItemCntr};
      maxItemCntr := maxItemCntr + 1;
    }

    // The bucket with the smallest number comes in order: an empty one is done, others go on to the
    // buffer.
    method Arrive(b: IBucket)
      requires NumbersRight(inFlight, received, minItemCntr + 1, maxItemCntr) && b.pipeId == minItemCntr
      requires b.clean ==> b.insts != []
      requires nIRequests >= 0 && if b.clean then Accounts(1, 0) else Accounts(0, -1)
      modifies this`minItemCntr, this`bucketPool, this`buffer, this`history
      ensures Settling() && minItemCntr == old(minItemCntr) + 1 && history == old(history) + [b]
    {
      ArriveKeepsHistory(history, taken, buffer, minItemCntr, b);
      CleansAppend(buffer, [b]);
      assert Cleans([b]) == if b.clean then 1 else 0;
      minItemCntr := minItemCntr + 1;
      history := history + [b];
      if b.insts == [] {
        bucketPool := bucketPool + [b.obj];
      } else {
        buffer := buffer + [b];
      }
    }

    // Received buckets whose turn it is come in order.
    method ClearItems()
      requires Settling()
      modifies this`minItemCntr, this`bucketPool, this`buffer, this`history, this`received, this`cleanReceived
      ensures Valid() && old(history) <= history && Kept(old(history), old(received), history, received)
    {
      while minItemCntr in received
        invariant Settling() && old(history) <= history && Kept(old(history), old(received), history, received)
        decreases |received.Keys|
      {
        ClearItem();
      }
    }

    method ClearItem()
      requires Settling() && minItemCntr in received
      modifies this`minItemCntr, this`bucketPool, this`buffer, this`history, this`received, this`cleanReceived
      ensures Settling() && |received.Keys| < |old(received).Keys|
      ensures old(history) <= history && Kept(old(history), old(received), history, received)
    {
      ClearKeeps(history, received);
      var b := received[minItemCntr];
      PopReceived();
      Arrive(b);
    }

    method PopReceived()
      requires Settling() && minItemCntr in received
      modifies this`received, this`cleanReceived
      ensures NumbersRight(inFlight, received, minItemCntr + 1, maxItemCntr) && received == old(received) - {minItemCntr}
      ensures |received.Keys| < |old(received).Keys|
      ensures var b := old(received)[minItemCntr];
        b.pipeId == minItemCntr && (b.clean ==> b.insts != []) && (if b.clean then Accounts(1, 0) else Accounts(0, -1))
    {
      PopKeepsCleans(received, cleanReceived, minItemCntr);
      received := received - {minItemCntr};
      cleanReceived := cleanReceived - {minItemCntr};
    }

    // A bucket has been fetched; `now` is the time.
    method ReadyItem(item: IBucket, now: int)
      requires NumbersRight(inFlight, received, minItemCntr, maxItemCntr) && minItemCntr !in received
      requires item.pipeId in inFlight && nIRequests >= -1
      requires if item.clean then Accounts(1, 1) && item.insts != [] else Accounts(0, 0)
      modifies this`nIRequests, this`inFlight, this`minItemCntr, this`bucketPool, this`buffer, this`history, this`received, this`cleanReceived
      ensures Valid() && inFlight == old(inFlight) - {item.pipeId} && old(history) <= history
      ensures Joined(old(history), old(received), history, received, item.(clock := now))
    {
      var b := item.(clock := now);
      ReadyKeepsNumbers(inFlight, received, minItemCntr, maxItemCntr, b.pipeId);
      Land(b);
      if b.pipeId != minItemCntr {
        ReceiveJoins(history, received, b);
        Receive(b);
      } else {
        ArriveInOrder(b);
      }
    }

    // The smallest number is ready, and with it perhaps some that were received before their turn.
    method ArriveInOrder(b: IBucket)
      requires NumbersRight(inFlight, received, minItemCntr + 1, maxItemCntr) && b.pipeId == minItemCntr
      requires b.clean ==> b.insts != []
      requires nIRequests >= 0 && if b.clean then Accounts(1, 0) else Accounts(0, -1)
      modifies this`minItemCntr, this`bucketPool, this`buffer, this`history, this`received, this`cleanReceived
      ensures Valid() && old(history) <= history && Joined(old(history), old(received), history, received, b)
    {
      ghost var h, r := history, received;
      ArriveJoins(h, r, b);
      Arrive(b);
      ghost var h', r' := history, received;
      ClearItems();
      JoinedAndKept(h, r, h', r', history, received, b);
    }

    // The request is answered.
    method Land(b: IBucket)
      requires b.pipeId in inFlight && nIRequests >= -1 && if b.clean then Accounts(1, 1) else Accounts(0, 0)
      modifies this`nIRequests, this`inFlight
      ensures inFlight == old(inFlight) - {b.pipeId} && nIRequests >= 0
      ensures if b.clean then Accounts(1, 0) else Accounts(0, -1)
    {
      nIRequests := nIRequests + 1;
      inFlight := inFlight - {b.pipeId};
    }

    // A bucket that is ready before its turn.
    method Receive(b: IBucket)
      requires NumbersRight(inFlight, received[b.pipeId := b], minItemCntr, maxItemCntr)
      requires b.pipeId !in received && minItemCntr !in received && b.pipeId != minItemCntr && nIRequests >= 0
      requires if b.clean then Accounts(1, 0) && b.insts != [] else Accounts(0, -1)
      modifies this`received, this`cleanReceived
      ensures Valid() && received == old(received)[b.pipeId := b]
    {
      ReceiveKeepsCleans(received, cleanReceived, b);
      received := received[b.pipeId := b];
      if b.clean {
        cleanReceived := cleanReceived + {b.pipeId};
      }
    }

    // A mark: wrong-path instructions in front of it are to be dropped.
    method CleanMark(now: int)
      requires Valid() && cleanBucketPool != []
      modifies this
      ensures Valid() && nCleanMarks == old(nCleanMarks) + 1 && inFlight == old(inFlight) && old(history) <= history
      ensures var pool := old(cleanBucketPool);
        Joined(old(history), old(received), history, received, IBucket(pool[|pool| - 1], true, old(maxItemCntr), now, [Inst(false)]))
    {
      ghost var was := inFlight;
      var b := IssueMark();
      ReadyItem(b, now);
      assert inFlight == was;
    }

    method IssueMark() returns (b: IBucket)
      requires Valid() && cleanBucketPool != []
      modifies this`nCleanMarks, this`cleanBucketPool, this`inFlight, this`maxItemCntr, this`nIRequests
      ensures NumbersRight(inFlight, received, minItemCntr, maxItemCntr) && Accounts(1, 1) && nIRequests >= -1
      ensures var pool := old(cleanBucketPool); b == IBucket(pool[|pool| - 1], true, old(maxItemCntr), 0, [Inst(false)])
      ensures b.pipeId !in old(inFlight) && inFlight == old(inFlight) + {b.pipeId} && nCleanMarks == old(nCleanMarks) + 1
    {
      var o := TakeMark();
      b := IBucket(o, true, maxItemCntr, 0, [Inst(false)]);
      NumberMark();
    }

    method TakeMark() returns (o: nat)
      requires Accounts(0, 0) && cleanBucketPool != []
      modifies this`nCleanMarks, this`cleanBucketPool
      ensures Accounts(1, 0) && o == old(cleanBucketPool)[|old(cleanBucketPool)| - 1] && nCleanMarks == old(nCleanMarks) + 1
    {
      nCleanMarks := nCleanMarks + 1;
      o := cleanBucketPool[|cleanBucketPool| - 1];
      cleanBucketPool := cleanBucketPool[..|cleanBucketPool| - 1];
    }

    method NumberMark()
      requires NumbersRight(inFlight, received, minItemCntr, maxItemCntr) && Accounts(1, 0) && nIRequests >= 0
      modifies this`inFlight, this`maxItemCntr, this`nIRequests
      ensures NumbersRight(inFlight, received, minItemCntr, maxItemCntr) && Accounts(1, 1) && nIRequests >= -1
      ensures old(maxItemCntr) !in old(inFlight) && inFlight == old(inFlight) + {old(maxItemCntr)}
    {
      IssueKeepsNumbers(inFlight, received, minItemCntr, maxItemCntr);
      inFlight := inFlight + {maxItemCntr};
      maxItemCntr := maxItemCntr + 1;
      nIRequests := nIRequests - 1;
    }

    // The consumer is done with a bucket.
    method DoneItem(obj: nat)
      requires Valid() && held > 0
      modifies this`bucketPool, this`held
      ensures Valid() && held == old(held) - 1
    {
      bucketPool := bucketPool + [obj];
      held := held - 1;
    }

    method PopTop() returns (b: IBucket)
      requires Valid() && buffer != []
      modifies this`buffer, this`taken
      ensures b == old(buffer)[0] && buffer == old(buffer)[1..] && taken == old(taken) + [b]
      ensures if b.clean then Accounts(1, 0) else Accounts(0, -1)
    {
      b := buffer[0];
      assert buffer == [b] + buffer[1..];
      assert taken + buffer == (taken + [b]) + buffer[1..];
      taken := taken + [b];
      buffer := buffer[1..];
    }

    // Takes the bucket at the top of the buffer. A clean mark goes back to its pool; a bucket goes to
    // the consumer, unless there are marks and it holds wrong-path instructions only. These are
    // dropped from its front.
    method TakeTop() returns (r: Option<IBucket>)
      requires Valid() && buffer != []
      modifies this`buffer, this`taken, this`bucketPool, this`cleanBucketPool, this`nCleanMarks, this`held
      ensures Valid() && buffer == old(buffer)[1..] && taken == old(taken) + [old(buffer)[0]]
      ensures r == Handed(old(buffer)[0], old(nCleanMarks))
      ensures held == old(held) + (if r.Some? then 1 else 0)
      ensures nCleanMarks == old(nCleanMarks) - (if old(buffer)[0].clean then 1 else 0)
    {
      var marks := nCleanMarks;
      var b := PopTop();
      r := None;
      if b.clean {
        cleanBucketPool := cleanBucketPool + [b.obj];
        nCleanMarks := nCleanMarks - 1;
      } else {
        r := HandOut(b);
      }
    }

    method HandOut(b: IBucket) returns (r: Option<IBucket>)
      requires !b.clean && Accounts(0, -1)
      modifies this`bucketPool, this`held
      ensures Accounts(0, 0) && r == Handed(b, nCleanMarks) && held == old(held) + (if r.Some? then 1 else 0)
    {
      var insts := b.insts;
      if nCleanMarks != 0 {
        insts := DropFakes(insts);
      }
      if insts == [] {
        r := None;
        bucketPool := bucketPool + [b.obj];
      } else {
        r := Some(b.(insts := insts));
        held := held + 1;
      }
    }

    method DropFakes(insts: seq<Inst>) returns (r: seq<Inst>)
      ensures r == insts[Fakes(insts)..]
    {
      r := insts;
      while r != [] && r[0].fake
        invariant |r| <= |insts| && r == insts[|insts| - |r|..]
        invariant insts[Fakes(insts)..] == r[Fakes(r)..]
      {
        r := r[1..];
      }
    }

    // The next bucket for the consumer, if one has been in the buffer for as long as the pipeline takes.
    method NextItem(now: int) returns (r: Option<IBucket>, ghost k: nat)
      requires Valid()
      modifies this`buffer, this`taken, this`bucketPool, this`cleanBucketPool, this`nCleanMarks, this`held
      ensures Valid() && (k, r) == Next(old(buffer), old(nCleanMarks), now, pipeLength)
      ensures |taken| == |old(taken)| + k && held == old(held) + (if r.Some? then 1 else 0)
    {
      r, k := None, 0;
      ghost var goal := Next(buffer, nCleanMarks, now, pipeLength);
      while r == None && buffer != [] && buffer[0].clock + pipeLength <= now
        invariant Valid()
        invariant goal == Resumed(k, r, Next(buffer, nCleanMarks, now, pipeLength))
        invariant |taken| == |old(taken)| + k && held == old(held) + (if r.Some? then 1 else 0)
        decreases |buffer|
      {
        ResumedStep(k, buffer, nCleanMarks, now, pipeLength);
        r := TakeTop();
        k := k + 1;
      }
    }
  }

  // What has been used up, and what more is used up unless something was found.
  function Resumed(k: nat, r: Option<IBucket>, rest: (nat, Option<IBucket>)): (nat, Option<IBucket>) {
    if r.Some? then (k, r) else (k + rest.0, rest.1)
  }

  lemma ResumedStep(k: nat, s: seq<IBucket>, marks: int, now: int, length: int)
    requires s != [] && s[0].clock + length <= now
    ensures Resumed(k, None, Next(s, marks, now, length))
         == Resumed(k + 1, Handed(s[0], marks), Next(s[1..], marks - (if s[0].clean then 1 else 0), now, length))
  {
  }

  // How many buckets at the front of the buffer the consumer's request uses up, and what it gets.
  function Next(s: seq<IBucket>, marks: int, now: int, length: int): (nat, Option<IBucket>) {
    if s == [] || s[0].clock + length > now then (0, None)
    else
      var r := Handed(s[0], marks);
      if r.Some? then (1, r)
      else
        var (k, q) := Next(s[1..], if s[0].clean then marks - 1 else marks, now, length);
        (k + 1, q)
  }

  // Between the instructions of the last bucket used up and what the consumer gets there are only
  // wrong-path instructions.
  ghost predicate GetsRest(b: IBucket, r: IBucket) {
    !b.clean && r.insts != [] && r == b.(insts := r.insts)
    && |r.insts| <= |b.insts| && r.insts == b.insts[|b.insts| - |r.insts|..]
    && forall i :: 0 <= i < |b.insts| - |r.insts| ==> b.insts[i].fake
  }

  /** The consumer gets the rest of the last bucket used up. The ones before were clean marks, or held
      wrong-path instructions only. It gets nothing only if nothing is left or the next bucket has not
      been in the pipeline long enough. */
  lemma {:induction false} NextIsFirst(s: seq<IBucket>, marks: int, now: int, length: int)
    requires forall i :: 0 <= i < |s| ==> s[i].insts != []
    ensures var (k, r) := Next(s, marks, now, length);
      && k <= |s|
      && (r.Some? ==> k > 0 && GetsRest(s[k - 1], r.value))
      && (r == None ==> k == |s| || s[k].clock + length > now)
      && forall j :: 0 <= j < (if r.Some? then k - 1 else k) ==> s[j].clean || forall i :: 0 <= i < |s[j].insts| ==> s[j].insts[i].fake
  {
    if s != [] && s[0].clock + length <= now && Handed(s[0], marks) == None {
      NextIsFirst(s[1..], if s[0].clean then marks - 1 else marks, now, length);
    }
  }

  // How many of the marks are outstanding when the bucket at j is at the top.
  function Outstanding(s: seq<IBucket>, marks: int, j: nat): int
    requires j <= |s|
  {
    marks - Cleans(s[..j])
  }

  // The bucket at j is used up and the consumer gets nothing of it.
  ghost predicate Skipped(s: seq<IBucket>, marks: int, j: nat)
    requires j < |s|
  {
    s[j].clean || (Outstanding(s, marks, j) != 0 && forall i :: 0 <= i < |s[j].insts| ==> s[j].insts[i].fake)
  }

  // The consumer gets the bucket at j whole, or with a mark outstanding from its first right instruction on.
  ghost predicate Delivered(s: seq<IBucket>, marks: int, j: nat, r: IBucket)
    requires j < |s|
  {
    && !s[j].clean && GetsRest(s[j], r)
    && if Outstanding(s, marks, j) == 0 then r == s[j] else !r.insts[0].fake
  }

  lemma OutstandingBehind(s: seq<IBucket>, marks: int, j: nat)
    requires 0 < j <= |s|
    ensures Outstanding(s, marks, j) == Outstanding(s[1..], marks - (if s[0].clean then 1 else 0), j - 1)
  {
    assert s[..j][1..] == s[1..][..j - 1];
  }

  // A request uses up k buckets and gets r.
  ghost predicate Served(s: seq<IBucket>, marks: int, now: int, length: int, k: nat, r: Option<IBucket>) {
    && k <= |s| && (forall j :: 0 <= j < k ==> s[j].clock + length <= now)
    && (r.Some? ==> k > 0 && Delivered(s, marks, k - 1, r.value))
    && (r == None ==> k == |s| || s[k].clock + length > now)
    && forall j :: 0 <= j < (if r.Some? then k - 1 else k) ==> Skipped(s, marks, j)
  }

  lemma ServedBehind(s: seq<IBucket>, marks: int, now: int, length: int, k: nat, r: Option<IBucket>)
    requires s != [] && s[0].clock + length <= now && Skipped(s, marks, 0)
    requires Served(s[1..], marks - (if s[0].clean then 1 else 0), now, length, k, r)
    ensures Served(s, marks, now, length, k + 1, r)
  {
    var rest, more := s[1..], marks - (if s[0].clean then 1 else 0);
    forall j | 0 < j < |s|
      ensures Skipped(s, marks, j) <==> Skipped(rest, more, j - 1)
      ensures r.Some? ==> (Delivered(s, marks, j, r.value) <==> Delivered(rest, more, j - 1, r.value))
    {
      OutstandingBehind(s, marks, j);
    }
    forall j | 0 <= j < (if r.Some? then k else k + 1)
      ensures Skipped(s, marks, j)
    {
      assert j > 0 ==> Skipped(rest, more, j - 1);
    }
  }

  /** Which buckets a request uses up and what it gets: a bucket is skipped only as a mark, or as all
      wrong-path while marks are outstanding, and wrong-path instructions are dropped exactly then. */
  lemma {:induction false} NextExactly(s: seq<IBucket>, marks: int, now: int, length: int)
    requires forall i :: 0 <= i < |s| ==> s[i].insts != []
    ensures var (k, r) := Next(s, marks, now, length); Served(s, marks, now, length, k, r)
  {
    if s != [] && s[0].clock + length <= now {
      HandedExactly(s, marks);
      if Handed(s[0], marks) == None {
        var more := if s[0].clean then marks - 1 else marks;
        NextExactly(s[1..], more, now, length);
        var (k, r) := Next(s[1..], more, now, length);
        ServedBehind(s, marks, now, length, k, r);
      }
    }
  }

  lemma HandedExactly(s: seq<IBucket>, marks: int)
    requires s != [] && s[0].insts != []
    ensures var r := Handed(s[0], marks); if r.Some? then Delivered(s, marks, 0, r.value) else Skipped(s, marks, 0)
  {
    assert s[..0] == [];
  }

  // What the consumer gets of a bucket, when there are so many clean marks about.
  function Handed(b: IBucket, marks: int): Option<IBucket> {
    if b.clean then None
    else
      var insts := if marks != 0 then b.insts[Fakes(b.insts)..] else b.insts;
      if insts == [] then None else Some(b.(insts := insts))
  }

  // A bucket in flight becomes ready: it comes in order if its number is the smallest, or is received.
  lemma ReadyKeepsNumbers(inFlight: set<nat>, received: map<nat, IBucket>, min: nat, max: nat, id: nat)
    requires NumbersRight(inFlight, received, min, max) && id in inFlight
    ensures |inFlight - {id}| == |inFlight| - 1 && id !in received
    ensures id == min ==> NumbersRight(inFlight - {id}, received, min + 1, max)
    ensures forall b: IBucket :: b.pipeId == id ==> NumbersRight(inFlight - {id}, received[id := b], min, max)
  {
  }

  lemma PopKeepsCleans(received: map<nat, IBucket>, cleanReceived: set<nat>, min: nat)
    requires CleansRight(received, cleanReceived) && min in received
    ensures CleansRight(received - {min}, cleanReceived - {min})
    ensures |(received - {min}).Keys| == |received.Keys| - 1
    ensures |cleanReceived - {min}| == |cleanReceived| - (if received[min].clean then 1 else 0)
    ensures received[min].clean ==> received[min].insts != []
  {
    assert received.Keys == (received.Keys - {min}) + {min};
    assert (received - {min}).Keys == received.Keys - {min};
  }

  lemma ReceiveKeepsCleans(received: map<nat, IBucket>, cleanReceived: set<nat>, b: IBucket)
    requires CleansRight(received, cleanReceived) && b.pipeId !in received && (b.clean ==> b.insts != [])
    ensures CleansRight(received[b.pipeId := b], if b.clean then cleanReceived + {b.pipeId} else cleanReceived)
    ensures |received[b.pipeId := b].Keys| == |received.Keys| + 1
    ensures b.clean ==> |cleanReceived + {b.pipeId}| == |cleanReceived| + 1
  {
    assert b.pipeId !in cleanReceived;
    OneMoreKey(received, b);
  }

  lemma OneMoreKey(received: map<nat, IBucket>, b: IBucket)
    requires b.pipeId !in received
    ensures |received[b.pipeId := b].Keys| == |received.Keys| + 1
  {
    assert received[b.pipeId := b].Keys == received.Keys + {b.pipeId};
  }

  lemma ArriveKeepsHistory(history: seq<IBucket>, taken: seq<IBucket>, buffer: seq<IBucket>, min: nat, b: IBucket)
    requires HistoryRight(history, taken, buffer, min) && b.pipeId == min
    ensures HistoryRight(history + [b], taken, if b.insts == [] then buffer else buffer + [b], min + 1)
  {
    assert (history + [b])[..|history|] == history;
  }

  lemma IssueKeepsNumbers(inFlight: set<nat>, received: map<nat, IBucket>, min: nat, max: nat)
    requires NumbersRight(inFlight, received, min, max)
    ensures max !in inFlight && |inFlight + {max}| == |inFlight| + 1
    ensures NumbersRight(inFlight + {max}, received, min, max + 1) && max !in received
  {
  }
}
