/**
 The token-bucket limiter as calls on a map of buckets. A call carries its reading of the clock,
 which is taken before the lock, and the victim its loop would settle on were the map full.
 */
module Limiter {
  import opened Types

  type Key = string

  datatype Bucket = Bucket(tokens: real, last: Time, announced: bool)

  type Buckets = map<Key, Bucket>

  datatype Limits = Limits(burst: real, refill: real, capacity: nat)

  /** A burst of twenty, then ten a minute, for at most 8192 keys. */
  const PUSH_LIMITS := Limits(20.0, 10.0 / 60.0, 8192)

  datatype Call = Call(key: Key, now: Time, victim: Key)

  datatype Answer = Answer(allowed: bool, firstRefusal: bool)

  function Refilled(l: Limits, b: Bucket, now: Time): real {
    b.tokens + (now - b.last) * l.refill
  }

  predicate Full(l: Limits, b: Bucket, now: Time) {
    Refilled(l, b, now) >= l.burst
  }

  function ForgetFull(l: Limits, bs: Buckets, now: Time): Buckets {
    map k | k in bs && !Full(l, bs[k], now) :: bs[k]
  }

  /** The oldest-victim branch: a new key, a map at capacity, and nothing full to forget. */
  predicate Evicts(l: Limits, bs: Buckets, c: Call) {
    c.key !in bs && |bs| >= l.capacity && |ForgetFull(l, bs, c.now)| >= l.capacity
  }

  function MakeRoom(l: Limits, bs: Buckets, c: Call): Buckets {
    if c.key in bs || |bs| < l.capacity then bs
    else
      var kept := ForgetFull(l, bs, c.now);
      if |kept| < l.capacity then kept else kept - {c.victim}
  }

  /** The bucket the call finds, topped up to now. */
  function ToppedUp(l: Limits, bs: Buckets, c: Call): Bucket {
    var b := if c.key in bs then bs[c.key] else Bucket(l.burst, c.now, false);
    var tokens := if Refilled(l, b, c.now) > l.burst then l.burst else Refilled(l, b, c.now);
    Bucket(tokens, c.now, b.announced)
  }

  /** Take a token from the bucket in `room`, or refuse and remember having said so. */
  function TakenFrom(l: Limits, room: Buckets, c: Call): Buckets {
    var b := ToppedUp(l, room, c);
    if b.tokens < 1.0 then room[c.key := b.(announced := true)]
    else if b.tokens - 1.0 >= l.burst then room - {c.key}
    else room[c.key := Bucket(b.tokens - 1.0, c.now, false)]
  }

  function AnswerFrom(l: Limits, room: Buckets, c: Call): Answer {
    var b := ToppedUp(l, room, c);
    if b.tokens < 1.0 then Answer(false, !b.announced) else Answer(true, false)
  }

  function Next(l: Limits, bs: Buckets, c: Call): Buckets {
    TakenFrom(l, MakeRoom(l, bs, c), c)
  }

  function Reply(l: Limits, bs: Buckets, c: Call): Answer {
    AnswerFrom(l, MakeRoom(l, bs, c), c)
  }

  /** The victim a scan can settle on. The scan starts over at an empty key, so only a map
      without one is sure to give up its oldest. */
  ghost predicate CanFall(bs: Buckets, victim: Key) {
    && (bs != map[] ==> victim in bs)
    && (victim in bs && "" !in bs ==> forall k :: k in bs ==> bs[victim].last <= bs[k].last)
  }

  // ------------------------------------------------------------------ runs

  function Final(l: Limits, bs: Buckets, calls: seq<Call>): Buckets
    decreases |calls|
  {
    if calls == [] then bs else Final(l, Next(l, bs, calls[0]), calls[1..])
  }

  function Replies(l: Limits, bs: Buckets, calls: seq<Call>): seq<Answer>
    decreases |calls|
  {
    if calls == [] then []
    else [Reply(l, bs, calls[0])] + Replies(l, Next(l, bs, calls[0]), calls[1..])
  }

  ghost predicate InOrder(calls: seq<Call>) {
    forall i, j :: 0 <= i < j < |calls| ==> calls[i].now <= calls[j].now
  }

  // ------------------------------------------------------------------ what a call does

  /** So many tokens, and what comes in at this rate from one instant to another. */
  function Grown(tokens: real, rate: real, from: Time, to: Time): real {
    tokens + (to - from) * rate
  }

  lemma RefilledIsGrown(l: Limits, b: Bucket, now: Time)
    ensures Refilled(l, b, now) == Grown(b.tokens, l.refill, b.last, now)
    ensures now == b.last ==> Refilled(l, b, now) == b.tokens
  {
  }

  lemma BucketFound(l: Limits, bs: Buckets, c: Call)
    ensures c.key in MakeRoom(l, bs, c) <==> c.key in bs
    ensures c.key in bs ==> MakeRoom(l, bs, c)[c.key] == bs[c.key]
  {
  }

  /**
   A call is allowed exactly if its bucket, a new one being full and an old one topped up for the
   time gone by but never above the burst, holds a whole token. It is left less that token, if it
   was; the refusal is the first exactly if the one before it, in this bucket, was none.
   */
  lemma WhatACallDoes(l: Limits, bs: Buckets, c: Call)
    ensures var known := c.key in bs;
      var sum := if known then Grown(bs[c.key].tokens, l.refill, bs[c.key].last, c.now) else l.burst;
      var tokens, answer, next := if sum > l.burst then l.burst else sum, Reply(l, bs, c), Next(l, bs, c);
      && (answer.allowed <==> tokens >= 1.0)
      && (answer.firstRefusal <==> tokens < 1.0 && !(known && bs[c.key].announced))
      && c.key in next
      && next[c.key] == Bucket(tokens - (if tokens >= 1.0 then 1.0 else 0.0), c.now, tokens < 1.0)
  {
    hide Refilled, Grown, MakeRoom;
    RefilledIsGrown(l, if c.key in bs then bs[c.key] else Bucket(l.burst, c.now, false), c.now);
    BucketFound(l, bs, c);
  }

  /** The keys whose bucket would be full by now, and so tell nothing. */
  function FullBy(l: Limits, bs: Buckets, now: Time): set<Key> {
    set j | j in bs && Grown(bs[j].tokens, l.refill, bs[j].last, now) >= l.burst
  }

  lemma FullGo(l: Limits, bs: Buckets, now: Time)
    ensures ForgetFull(l, bs, now) == bs - FullBy(l, bs, now)
    ensures |ForgetFull(l, bs, now)| == |bs.Keys - FullBy(l, bs, now)|
  {
    hide Refilled, Grown;
    forall j ensures j in ForgetFull(l, bs, now) <==> j in bs && j !in FullBy(l, bs, now) {
      if j in bs {
        RefilledIsGrown(l, bs[j], now);
      }
    }
    AllBut(bs, ForgetFull(l, bs, now), FullBy(l, bs, now));
  }

  lemma AllBut(bs: Buckets, kept: Buckets, gone: set<Key>)
    requires forall j :: j in kept <==> j in bs && j !in gone
    requires forall j :: j in kept ==> kept[j] == bs[j]
    ensures kept == bs - gone && |kept| == |bs.Keys - gone|
  {
    assert kept.Keys == bs.Keys - gone;
    assert |kept| == |kept.Keys|;
  }

  lemma OthersStay(l: Limits, room: Buckets, c: Call, k: Key)
    requires k != c.key
    ensures k in TakenFrom(l, room, c) <==> k in room
    ensures k in room ==> TakenFrom(l, room, c)[k] == room[k]
  {
    hide ToppedUp;
  }

  /**
   No other bucket is touched while the map has room or the key a bucket. Else the full ones go,
   and one more if that freed nothing.
   */
  lemma WhatACallForgets(l: Limits, bs: Buckets, c: Call, k: Key)
    requires k != c.key
    ensures var next, full := Next(l, bs, c), FullBy(l, bs, c.now);
      && (k in next ==> k in bs && next[k] == bs[k])
      && (c.key in bs || |bs| < l.capacity ==> (k in next <==> k in bs))
      && (c.key !in bs && |bs| >= l.capacity ==>
            (k in next <==> k in bs && k !in full && (|bs.Keys - full| >= l.capacity ==> k != c.victim)))
  {
    FullGo(l, bs, c.now);
    OthersStay(l, MakeRoom(l, bs, c), c, k);
    hide FullBy, ForgetFull, TakenFrom;
  }

  // ------------------------------------------------------------------ what every call keeps

  /** Every bucket is at most full, and the map is within its capacity. */
  ghost predicate Bounded(l: Limits, bs: Buckets) {
    && (forall k :: k in bs ==> bs[k].tokens <= l.burst)
    && |bs| <= l.capacity
  }

  lemma ForgetFullIsSmaller(l: Limits, bs: Buckets, now: Time)
    ensures |ForgetFull(l, bs, now)| <= |bs|
  {
    var kept := ForgetFull(l, bs, now);
    assert kept.Keys <= bs.Keys;
    Smaller(kept.Keys, bs.Keys);
  }

  lemma Smaller<T>(a: set<T>, b: set<T>)
    requires a <= b
    ensures |a| <= |b|
  {
    assert b == a + (b - a);
  }

  /** The map never outgrows its capacity, and a bucket never holds more than a burst. */
  lemma BoundedStep(l: Limits, bs: Buckets, c: Call)
    requires Bounded(l, bs) && 0 < l.capacity
    requires Evicts(l, bs, c) ==> CanFall(ForgetFull(l, bs, c.now), c.victim)
    ensures Bounded(l, Next(l, bs, c))
    ensures c.key in Next(l, bs, c)
  {
    var room := MakeRoom(l, bs, c);
    ForgetFullIsSmaller(l, bs, c.now);
    if c.key !in bs {
      if Evicts(l, bs, c) {
        var kept := ForgetFull(l, bs, c.now);
        assert c.victim in kept;
        assert room.Keys == kept.Keys - {c.victim};
        assert |room| == |room.Keys| && |kept| == |kept.Keys|;
      }
      assert |room| < l.capacity;
    }
    var next := Next(l, bs, c);
    assert next.Keys == room.Keys + {c.key};
    assert |next| == |next.Keys| && |room| == |room.Keys|;
  }

  /** The delete after a successful take is never reached, at any burst, from any map. */
  lemma NothingFullAfterATake(l: Limits, bs: Buckets, c: Call)
    requires Reply(l, bs, c).allowed
    ensures ToppedUp(l, MakeRoom(l, bs, c), c).tokens - 1.0 < l.burst
    ensures c.key in Next(l, bs, c)
  {
  }
}
