/**
 The discrete-event kernel: buckets of event objects per tick, and the pool that the objects come
 from and return to while their bucket is still being drained.
 */
module Events {
  type Tick = nat
  // The address of an event object, and what its stored arguments say.
  type Object = nat
  type Argument = nat

  // A call asks for further events, each after a delay, which may be zero.
  datatype Request = Request(delay: nat, arg: Argument)

  function Get(m: map<Tick, seq<Argument>>, t: Tick): seq<Argument> {
    if t in m then m[t] else []
  }

  // A waiting event object stands at one place in one bucket.
  datatype Place = Place(tick: Tick, index: nat)

  // The objects in the pool are distinct, and none of them waits.
  ghost predicate PoolRight(bank: seq<Object>, waiting: map<Object, Place>, newest: Object) {
    && (forall j, k :: 0 <= j < k < |bank| ==> bank[j] != bank[k])
    && (forall j :: 0 <= j < |bank| ==> bank[j] !in waiting && bank[j] < newest)
    && forall o :: o in waiting ==> o < newest
  }

  // There is a bucket, with as many entries as events were asked for, for each tick that is not over
  // and has any.
  ghost predicate BucketsRight(buckets: map<Tick, seq<Object>>, asked: map<Tick, seq<Argument>>, now: Tick) {
    && (forall t :: t in buckets ==> t >= now && t in asked && |asked[t]| == |buckets[t]|)
    && forall t :: t >= now && t in asked && asked[t] != [] ==> t in buckets
  }

  // An unfinished entry is an object that stands nowhere else and holds what was asked for.
  ghost predicate EntryRight(buckets: map<Tick, seq<Object>>, asked: map<Tick, seq<Argument>>, waiting: map<Object, Place>,
                             stored: map<Object, Argument>, t: Tick, k: nat)
    requires t in buckets && k < |buckets[t]| && t in asked && k < |asked[t]|
  {
    var o := buckets[t][k];
    o in waiting && waiting[o] == Place(t, k) && o in stored && stored[o] == asked[t][k]
  }

  ghost predicate EntriesRight(buckets: map<Tick, seq<Object>>, asked: map<Tick, seq<Argument>>, waiting: map<Object, Place>,
                               stored: map<Object, Argument>, now: Tick, index: nat)
    requires BucketsRight(buckets, asked, now)
  {
    forall t, k :: t in buckets && 0 <= k < |buckets[t]| && (t == now ==> index <= k)
      ==> EntryRight(buckets, asked, waiting, stored, t, k)
  }

  // What has been called: everything that was asked for earlier ticks, a prefix for the current one,
  // nothing for later ones.
  ghost predicate CallsRight(asked: map<Tick, seq<Argument>>, called: map<Tick, seq<Argument>>, now: Tick, index: nat) {
    && (forall t: Tick :: t < now ==> Get(called, t) == Get(asked, t))
    && index <= |Get(asked, now)| && Get(called, now) == Get(asked, now)[..index]
    && forall t: Tick :: t > now ==> Get(called, t) == []
  }

  class EventManager {
    // What each event object holds; Initialize overwrites it.
    var stored: map<Object, Argument>
    var bank: seq<Object>
    const upperBound: nat
    var newest: Object
    var scheduleSet: map<Tick, seq<Object>>
    var currentTick: Tick
    // Where the loop over the current bucket stands.
    var index: nat

    // All events that were ever scheduled for a tick, and those called in a tick, in order.
    ghost var asked: map<Tick, seq<Argument>>
    ghost var called: map<Tick, seq<Argument>>
    ghost var waiting: map<Object, Place>

    ghost predicate Valid()
      reads this
    {
      && PoolRight(bank, waiting, newest)
      && CallsRight(asked, called, currentTick, index)
      && BucketsRight(scheduleSet, asked, currentTick)
      && EntriesRight(scheduleSet, asked, waiting, stored, currentTick, index)
    }

    constructor (startTick: Tick, upperBound: nat)
      ensures Valid() && currentTick == startTick && index == 0 && asked == map[] && this.upperBound == upperBound
    {
      this.upperBound, currentTick := upperBound, startTick;
      stored, bank, newest, scheduleSet, index := map[], [], 0, map[], 0;
      asked, called, waiting := map[], map[], map[];
    }

    // An object from the pool, or a new one.
    method Take() returns (o: Object)
      requires Valid()
      modifies this`bank, this`newest
      ensures Valid() && o !in bank && o !in waiting && o < newest
    {
      if bank == [] {
        o := newest;
        newest := newest + 1;
      } else {
        o := bank[|bank| - 1];
        bank := bank[..|bank| - 1];
      }
    }

    method ScheduleEventAbsolute(o: Object, time: Tick)
      requires Valid() && time >= currentTick && o !in bank && o !in waiting && o < newest && o in stored
      modifies this`scheduleSet, this`asked, this`waiting
      ensures Valid()
      ensures asked == old(asked)[time := Get(old(asked), time) + [stored[o]]]
      ensures exists k :: waiting == old(waiting)[o := Place(time, k)]
      ensures old(scheduleSet).Keys <= scheduleSet.Keys
    {
      ScheduleKeepsEntries(scheduleSet, asked, waiting, stored, currentTick, index, o, time);
      var bucket := if time in scheduleSet then scheduleSet[time] else [];
      waiting := waiting[o := Place(time, |bucket|)];
      asked := Appended(asked, time, stored[o]);
      scheduleSet := scheduleSet[time := bucket + [o]];
    }

    // Creates an event, stores its arguments and schedules it.
    method ScheduleMessageTransmit(r: Request)
      requires Valid()
      modifies this`stored, this`bank, this`newest, this`scheduleSet, this`asked, this`waiting
      ensures Valid()
      ensures asked == old(asked)[currentTick + r.delay := Get(old(asked), currentTick + r.delay) + [r.arg]]
      ensures Waiting(old(waiting), waiting) && old(scheduleSet).Keys <= scheduleSet.Keys
    {
      var o := Take();
      InitializeKeepsEntries(scheduleSet, asked, waiting, stored, currentTick, index, o, r.arg);
      stored := stored[o := r.arg];
      ScheduleEventAbsolute(o, currentTick + r.delay);
    }

    // The finished object goes back to the pool, or is given up when the pool is full.
    method Return(o: Object)
      requires PoolRight(bank, waiting, newest) && o in waiting
      modifies this`bank, this`waiting
      ensures PoolRight(bank, waiting, newest) && waiting == old(waiting) - {o}
      ensures bank == if |old(bank)| < upperBound then old(bank) + [o] else old(bank)
    {
      waiting := waiting - {o};
      if |bank| < upperBound {
        bank := bank + [o];
      }
    }

    // What the called function asks for is scheduled, while its object is still in use.
    method Respond(answers: seq<Request>)
      requires Valid()
      modifies this`stored, this`bank, this`newest, this`scheduleSet, this`asked, this`waiting
      ensures Valid() && asked == AskedAfter(old(asked), currentTick, answers, |answers|)
      ensures answers == [] ==> scheduleSet == old(scheduleSet)
      ensures Waiting(old(waiting), waiting) && old(scheduleSet).Keys <= scheduleSet.Keys
    {
      for i := 0 to |answers|
        invariant Valid() && asked == AskedAfter(old(asked), currentTick, answers, i)
        invariant i == 0 ==> scheduleSet == old(scheduleSet)
        invariant Waiting(old(waiting), waiting) && old(scheduleSet).Keys <= scheduleSet.Keys
      {
        ScheduleMessageTransmit(answers[i]);
      }
    }

    // The next event of the current bucket is called.
    method CallNext(answers: seq<Request>)
      requires Valid() && currentTick in scheduleSet && index < |scheduleSet[currentTick]|
      modifies this`stored, this`bank, this`newest, this`scheduleSet, this`asked, this`waiting, this`called, this`index
      ensures Valid() && asked == AskedAfter(old(asked), currentTick, answers, |answers|) && index == old(index) + 1
      ensures currentTick in scheduleSet && (answers == [] ==> scheduleSet == old(scheduleSet))
      ensures var o := old(scheduleSet[currentTick][index]); o !in waiting && (o in bank || |bank| >= upperBound)
      ensures called == old(called)[currentTick := asked[currentTick][..index]]
    {
      var o := scheduleSet[currentTick][index];
      assert EntryRight(scheduleSet, asked, waiting, stored, currentTick, index);
      ghost var arg := stored[o];
      ghost var was := asked;
      Respond(answers);
      AskedGrows(was, currentTick, answers);
      assert Get(was, currentTick) <= Get(asked, currentTick);
      CallKeepsCalls(asked, called, currentTick, index, arg);
      ReturnKeepsEntries(scheduleSet, asked, waiting, stored, currentTick, index, o);
      Return(o);
      called := Appended(called, currentTick, arg);
      index := index + 1;
    }

    // All events of the tick are called, also those that are scheduled for it meanwhile; `responses`
    // are what the calls ask for, one after another.
    method ProcessTick(responses: seq<seq<Request>>)
      requires Valid() && index == 0
      modifies this
      ensures Valid() && index == 0 && currentTick == old(currentTick) + 1
      ensures Get(called, old(currentTick)) == Get(asked, old(currentTick))
      ensures asked == AskedByCalls(old(asked), old(currentTick), responses, |Get(called, old(currentTick))|)
      ensures forall t: Tick :: t != old(currentTick) ==> Get(called, t) == Get(old(called), t)
    {
      while currentTick in scheduleSet && index < |scheduleSet[currentTick]|
        invariant Valid() && currentTick == old(currentTick)
        invariant asked == AskedByCalls(old(asked), currentTick, responses, index)
        invariant SameBut(called, old(called), currentTick)
        decreases if index < |responses| then |responses| - index else 0,
                  if currentTick in scheduleSet then |scheduleSet[currentTick]| - index else 0
      {
        CallNext(AnswerTo(responses, index));
      }
      EndTick();
    }

    // The finished bucket goes.
    method EndTick()
      requires Valid() && (currentTick in scheduleSet ==> index >= |scheduleSet[currentTick]|)
      modifies this`scheduleSet, this`currentTick, this`index
      ensures Valid() && index == 0 && currentTick == old(currentTick) + 1
      ensures Get(called, old(currentTick)) == Get(asked, old(currentTick)) && |Get(called, old(currentTick))| == old(index)
    {
      BucketDone(scheduleSet, asked, waiting, stored, called, currentTick, index);
      scheduleSet := scheduleSet - {currentTick};
      currentTick := currentTick + 1;
      index := 0;
    }
  }

  ghost predicate SameBut(m: map<Tick, seq<Argument>>, n: map<Tick, seq<Argument>>, now: Tick) {
    forall t: Tick :: t != now ==> Get(m, t) == Get(n, t)
  }

  // An object that does not wait can be given new arguments.
  lemma InitializeKeepsEntries(buckets: map<Tick, seq<Object>>, asked: map<Tick, seq<Argument>>, waiting: map<Object, Place>,
                               stored: map<Object, Argument>, now: Tick, index: nat, o: Object, arg: Argument)
    requires BucketsRight(buckets, asked, now) && EntriesRight(buckets, asked, waiting, stored, now, index) && o !in waiting
    ensures EntriesRight(buckets, asked, waiting, stored[o := arg], now, index)
  {
    var stored' := stored[o := arg];
    forall t, k | t in buckets && 0 <= k < |buckets[t]| && (t == now ==> index <= k)
      ensures EntryRight(buckets, asked, waiting, stored', t, k)
    {
      assert EntryRight(buckets, asked, waiting, stored, t, k);
    }
  }

  function Appended<T>(m: map<Tick, seq<T>>, t: Tick, x: T): map<Tick, seq<T>> {
    m[t := (if t in m then m[t] else []) + [x]]
  }

  lemma ScheduleKeepsEntries(buckets: map<Tick, seq<Object>>, asked: map<Tick, seq<Argument>>, waiting: map<Object, Place>,
                             stored: map<Object, Argument>, now: Tick, index: nat, o: Object, time: Tick)
    requires BucketsRight(buckets, asked, now) && EntriesRight(buckets, asked, waiting, stored, now, index)
    requires o !in waiting && o in stored && time >= now
    ensures var buckets', asked' := Appended(buckets, time, o), Appended(asked, time, stored[o]);
            var waiting' := waiting[o := Place(time, |buckets'[time]| - 1)];
            BucketsRight(buckets', asked', now) && EntriesRight(buckets', asked', waiting', stored, now, index)
  {
    var buckets', asked' := Appended(buckets, time, o), Appended(asked, time, stored[o]);
    var waiting' := waiting[o := Place(time, |buckets'[time]| - 1)];
    assert time !in buckets ==> Get(asked, time) == [];
    assert BucketsRight(buckets', asked', now);
    forall t, k | t in buckets' && 0 <= k < |buckets'[t]| && (t == now ==> index <= k)
      ensures EntryRight(buckets', asked', waiting', stored, t, k)
    {
      if t in buckets && k < |buckets[t]| {
        assert EntryRight(buckets, asked, waiting, stored, t, k);
      }
    }
  }

  // Nothing that was asked for is forgotten or overtaken by what is asked for the same tick later.
  ghost predicate Grown(m: map<Tick, seq<Argument>>, n: map<Tick, seq<Argument>>) {
    forall t: Tick :: Get(m, t) <= Get(n, t)
  }

  // What the n-th call of a tick asks for.
  function AnswerTo(responses: seq<seq<Request>>, n: nat): (r: seq<Request>)
    ensures n < |responses| ==> r == responses[n]
    ensures n >= |responses| ==> r == []
  {
    if n < |responses| then responses[n] else []
  }

  // What has been asked for after the first n of the answers.
  function AskedAfter(m: map<Tick, seq<Argument>>, now: Tick, answers: seq<Request>, n: nat): map<Tick, seq<Argument>>
    requires n <= |answers|
  {
    if n == 0 then m
    else Appended(AskedAfter(m, now, answers, n - 1), now + answers[n - 1].delay, answers[n - 1].arg)
  }

  // What has been asked for after the first n calls.
  function AskedByCalls(m: map<Tick, seq<Argument>>, now: Tick, responses: seq<seq<Request>>, n: nat): map<Tick, seq<Argument>> {
    if n == 0 then m
    else
      var answers := AnswerTo(responses, n - 1);
      AskedAfter(AskedByCalls(m, now, responses, n - 1), now, answers, |answers|)
  }

  // The arguments of those among the first n answers that ask for the given delay.
  function WithDelay(answers: seq<Request>, n: nat, delay: int): seq<Argument>
    requires n <= |answers|
  {
    if n == 0 then []
    else WithDelay(answers, n - 1, delay) + if answers[n - 1].delay == delay then [answers[n - 1].arg] else []
  }

  function WithDelayInCalls(responses: seq<seq<Request>>, n: nat, delay: int): seq<Argument> {
    if n == 0 then []
    else
      var answers := AnswerTo(responses, n - 1);
      WithDelayInCalls(responses, n - 1, delay) + WithDelay(answers, |answers|, delay)
  }

  lemma Regroup(a: seq<Argument>, b: seq<Argument>, c: seq<Argument>)
    ensures (a + b) + c == a + (b + c)
  {
  }

  lemma {:induction false} AskedInOrder(m: map<Tick, seq<Argument>>, now: Tick, answers: seq<Request>, n: nat, t: Tick)
    requires n <= |answers|
    ensures Get(AskedAfter(m, now, answers, n), t) == Get(m, t) + WithDelay(answers, n, t - now)
  {
    if n > 0 {
      AskedInOrder(m, now, answers, n - 1, t);
      if answers[n - 1].delay == t - now {
        Regroup(Get(m, t), WithDelay(answers, n - 1, t - now), [answers[n - 1].arg]);
      }
    }
  }

  /** What a tick calls is what was asked for before, and then what its own calls ask for without delay. */
  lemma {:induction false} AskedInTick(m: map<Tick, seq<Argument>>, now: Tick, responses: seq<seq<Request>>, n: nat, t: Tick)
    ensures Get(AskedByCalls(m, now, responses, n), t) == Get(m, t) + WithDelayInCalls(responses, n, t - now)
  {
    if n > 0 {
      AskedInTick(m, now, responses, n - 1, t);
      AskedByCall(m, AskedByCalls(m, now, responses, n - 1), now, AnswerTo(responses, n - 1), t,
                  WithDelayInCalls(responses, n - 1, t - now));
    }
  }

  lemma AskedByCall(m: map<Tick, seq<Argument>>, before: map<Tick, seq<Argument>>, now: Tick, answers: seq<Request>, t: Tick,
                    earlier: seq<Argument>)
    requires Get(before, t) == Get(m, t) + earlier
    ensures Get(AskedAfter(before, now, answers, |answers|), t) == Get(m, t) + (earlier + WithDelay(answers, |answers|, t - now))
  {
    AskedInOrder(before, now, answers, |answers|, t);
    Regroup(Get(m, t), earlier, WithDelay(answers, |answers|, t - now));
  }

  // Each request is there, behind exactly the earlier ones with this delay.
  lemma {:induction false} RequestCounts(answers: seq<Request>, n: nat, m: nat, delay: int)
    requires m < n <= |answers| && answers[m].delay == delay
    ensures var at := |WithDelay(answers, m, delay)|;
      at < |WithDelay(answers, n, delay)| && WithDelay(answers, n, delay)[at] == answers[m].arg
  {
    if m < n - 1 {
      RequestCounts(answers, n - 1, m, delay);
    }
  }

  // And nothing else is.
  lemma {:induction false} NothingElse(answers: seq<Request>, n: nat, delay: int)
    requires n <= |answers|
    ensures |WithDelay(answers, n, delay)| == |set m | 0 <= m < n && answers[m].delay == delay|
  {
    if n > 0 {
      NothingElse(answers, n - 1, delay);
      var before, now := set m | 0 <= m < n - 1 && answers[m].delay == delay, set m | 0 <= m < n && answers[m].delay == delay;
      assert now == before + if answers[n - 1].delay == delay then {n - 1} else {};
    }
  }

  /** Each request of each call that was made has been scheduled for the tick it asks for. */
  lemma {:induction false} EveryRequestIsAsked(m0: map<Tick, seq<Argument>>, now: Tick, responses: seq<seq<Request>>, n: nat, c: nat, m: nat)
    requires c < n && c < |responses| && m < |responses[c]|
    ensures responses[c][m].arg in Get(AskedByCalls(m0, now, responses, n), now + responses[c][m].delay)
  {
    var t := now + responses[c][m].delay;
    AskedInTick(m0, now, responses, n, t);
    RequestsInOrder(responses, n, c, m);
  }

  /** Requests for the same tick are asked for in the order of the calls, and of the requests in each. */
  lemma {:induction false} RequestsInOrder(responses: seq<seq<Request>>, n: nat, c: nat, m: nat)
    requires c < n && c < |responses| && m < |responses[c]|
    ensures var delay := responses[c][m].delay;
      var at := |WithDelayInCalls(responses, c, delay)| + |WithDelay(responses[c], m, delay)|;
      && at < |WithDelayInCalls(responses, n, delay)|
      && WithDelayInCalls(responses, n, delay)[at] == responses[c][m].arg
  {
    if c == n - 1 {
      RequestCounts(responses[c], |responses[c]|, m, responses[c][m].delay);
    } else {
      RequestsInOrder(responses, n - 1, c, m);
    }
  }

  lemma AskedGrows(m: map<Tick, seq<Argument>>, now: Tick, answers: seq<Request>)
    ensures Grown(m, AskedAfter(m, now, answers, |answers|))
  {
    forall t: Tick
      ensures Get(m, t) <= Get(AskedAfter(m, now, answers, |answers|), t)
    {
      AskedInOrder(m, now, answers, |answers|, t);
    }
  }

  ghost predicate Waiting(m: map<Object, Place>, n: map<Object, Place>) {
    forall o :: o in m ==> o in n && n[o] == m[o]
  }

  lemma ReturnKeepsEntries(buckets: map<Tick, seq<Object>>, asked: map<Tick, seq<Argument>>, waiting: map<Object, Place>,
                           stored: map<Object, Argument>, now: Tick, index: nat, o: Object)
    requires BucketsRight(buckets, asked, now) && EntriesRight(buckets, asked, waiting, stored, now, index)
    requires o in waiting && waiting[o] == Place(now, index)
    ensures EntriesRight(buckets, asked, waiting - {o}, stored, now, index + 1)
  {
    var waiting' := waiting - {o};
    forall t, k | t in buckets && 0 <= k < |buckets[t]| && (t == now ==> index + 1 <= k)
      ensures EntryRight(buckets, asked, waiting', stored, t, k)
    {
      assert EntryRight(buckets, asked, waiting, stored, t, k);
    }
  }

  // When the bucket of a tick is finished it can be taken away.
  lemma BucketDone(buckets: map<Tick, seq<Object>>, asked: map<Tick, seq<Argument>>, waiting: map<Object, Place>,
                   stored: map<Object, Argument>, called: map<Tick, seq<Argument>>, now: Tick, index: nat)
    requires BucketsRight(buckets, asked, now) && EntriesRight(buckets, asked, waiting, stored, now, index)
    requires CallsRight(asked, called, now, index) && (now in buckets ==> index >= |buckets[now]|)
    ensures Get(called, now) == Get(asked, now)
    ensures BucketsRight(buckets - {now}, asked, now + 1) && CallsRight(asked, called, now + 1, 0)
    ensures EntriesRight(buckets - {now}, asked, waiting, stored, now + 1, 0)
  {
    var rest := buckets - {now};
    assert now !in buckets ==> Get(asked, now) == [];
    assert BucketsRight(rest, asked, now + 1);
    forall t, k | t in rest && 0 <= k < |rest[t]| && (t == now + 1 ==> 0 <= k)
      ensures EntryRight(rest, asked, waiting, stored, t, k)
    {
      assert EntryRight(buckets, asked, waiting, stored, t, k);
    }
  }

  lemma CallKeepsCalls(asked: map<Tick, seq<Argument>>, called: map<Tick, seq<Argument>>, now: Tick, index: nat, arg: Argument)
    requires CallsRight(asked, called, now, index) && now in asked && index < |asked[now]| && asked[now][index] == arg
    ensures Appended(called, now, arg) == called[now := asked[now][..index + 1]]
    ensures CallsRight(asked, Appended(called, now, arg), now, index + 1)
  {
    var called' := Appended(called, now, arg);
    assert asked[now][..index + 1] == asked[now][..index] + [arg];
    assert forall t: Tick :: t != now ==> Get(called', t) == Get(called, t);
  }
}
