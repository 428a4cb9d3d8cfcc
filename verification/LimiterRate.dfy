/** How many pushes one key can get through: a burst, and the refill of the time between. */
module LimiterRate {
  import opened Types
  import opened Limiter

  /** The calls that were allowed under one key. */
  function Allowed(l: Limits, bs: Buckets, calls: seq<Call>, key: Key): nat
    decreases |calls|
  {
    if calls == [] then 0
    else
      (if calls[0].key == key && Reply(l, bs, calls[0]).allowed then 1 else 0)
      + Allowed(l, Next(l, bs, calls[0]), calls[1..], key)
  }

  /** The last call is this key's, and is allowed. */
  ghost predicate EndsAllowed(l: Limits, bs: Buckets, calls: seq<Call>, key: Key)
    decreases |calls|
  {
    && calls != []
    && (if |calls| == 1 then calls[0].key == key && Reply(l, bs, calls[0]).allowed
        else EndsAllowed(l, Next(l, bs, calls[0]), calls[1..], key))
  }

  ghost predicate NeverTheVictim(l: Limits, bs: Buckets, calls: seq<Call>, key: Key)
    decreases |calls|
  {
    calls == [] || (!(Evicts(l, bs, calls[0]) && calls[0].victim == key)
                    && NeverTheVictim(l, Next(l, bs, calls[0]), calls[1..], key))
  }

  /** The call evicts this key's bucket as the oldest. */
  predicate Falls(l: Limits, bs: Buckets, c: Call, key: Key) {
    Evicts(l, bs, c) && c.victim == key && key in bs
  }

  /** How often that happens. */
  function TimesEvicted(l: Limits, bs: Buckets, calls: seq<Call>, key: Key): nat
    decreases |calls|
  {
    if calls == [] then 0
    else (if Falls(l, bs, calls[0], key) then 1 else 0) + TimesEvicted(l, Next(l, bs, calls[0]), calls[1..], key)
  }

  lemma {:induction false} NeverTheVictimNeverFalls(l: Limits, bs: Buckets, calls: seq<Call>, key: Key)
    requires NeverTheVictim(l, bs, calls, key)
    ensures TimesEvicted(l, bs, calls, key) == 0
    decreases |calls|
  {
    if calls != [] {
      hide Next, Evicts;
      NeverTheVictimNeverFalls(l, Next(l, bs, calls[0]), calls[1..], key);
    }
  }

  /** No call, by whatever key and at whatever reading, takes this key's bucket away. */
  ghost predicate NeverDropped(l: Limits, bs: Buckets, calls: seq<Call>, key: Key)
    decreases |calls|
  {
    && key in bs
    && (calls == [] || (key in MakeRoom(l, bs, calls[0])
                        && NeverDropped(l, Next(l, bs, calls[0]), calls[1..], key)))
  }

  /**
   The potential of a bucket. A reading of the clock leaves it alone, whichever way the clock
   moved; clamping at a full bucket can only lower it; a token taken lowers it by one.
   */
  function Potential(l: Limits, b: Bucket): real {
    b.tokens - Gain(l, b.last)
  }

  /** What has been refilled by an instant, counted from the zero time. */
  function Gain(l: Limits, t: Time): real {
    l.refill * t
  }

  /** So many bursts. */
  function Bursts(l: Limits, k: nat): real {
    k as real * l.burst
  }

  lemma GainGrows(l: Limits, now: Time, later: Time)
    requires 0.0 <= l.refill && now <= later
    ensures Gain(l, now) <= Gain(l, later)
  {
    assert l.refill * later - l.refill * now == l.refill * (later - now);
  }

  lemma OneMoreBurst(l: Limits, k: nat)
    ensures Bursts(l, k + 1) == l.burst + Bursts(l, k) && Bursts(l, 0) == 0.0
  {
  }

  lemma GainBetween(l: Limits, s: Time, t: Time)
    ensures Gain(l, t) - Gain(l, s) == l.refill * (t - s)
  {
  }

  lemma TakingLowersPotential(l: Limits, room: Buckets, c: Call)
    requires c.key in room
    ensures c.key in TakenFrom(l, room, c)
    ensures Potential(l, TakenFrom(l, room, c)[c.key])
         <= Potential(l, room[c.key]) - (if AnswerFrom(l, room, c).allowed then 1.0 else 0.0)
    ensures AnswerFrom(l, room, c).allowed ==> 1.0 <= Potential(l, room[c.key]) + Gain(l, c.now)
  {
    Refill(l, room[c.key], c.now);
  }

  lemma Refill(l: Limits, b: Bucket, now: Time)
    ensures Refilled(l, b, now) - Gain(l, now) == Potential(l, b)
  {
    assert (now - b.last) * l.refill == now * l.refill - b.last * l.refill;
    assert now * l.refill == l.refill * now && b.last * l.refill == l.refill * b.last;
  }

  /** `ceiling` bounds the potential the key's bucket has now, or would be made with later. */
  ghost predicate Under(l: Limits, bs: Buckets, key: Key, now: Time, ceiling: real) {
    if key in bs then Potential(l, bs[key]) <= ceiling else l.burst - Gain(l, now) <= ceiling
  }

  lemma UnderLater(l: Limits, bs: Buckets, key: Key, now: Time, later: Time, ceiling: real)
    requires 0.0 <= l.refill && now <= later
    requires Under(l, bs, key, now, ceiling)
    ensures Under(l, bs, key, later, ceiling)
  {
    GainGrows(l, now, later);
  }

  /** Making room costs the key nothing it could not have had anyway, unless it is the one evicted. */
  lemma UnderAfterRoom(l: Limits, bs: Buckets, c: Call, key: Key, ceiling: real)
    requires Under(l, bs, key, c.now, ceiling) && 0.0 <= l.burst && 0.0 <= ceiling + Gain(l, c.now)
    ensures Under(l, MakeRoom(l, bs, c), key, c.now, ceiling + if Falls(l, bs, c, key) then l.burst else 0.0)
  {
    if key in bs && key !in MakeRoom(l, bs, c) && !Falls(l, bs, c, key) {
      assert Full(l, bs[key], c.now);
      Refill(l, bs[key], c.now);
    }
  }

  lemma UnderAfterTaking(l: Limits, room: Buckets, c: Call, key: Key, ceiling: real)
    requires Under(l, room, key, c.now, ceiling)
    ensures var got := if c.key == key && AnswerFrom(l, room, c).allowed then 1.0 else 0.0;
      Under(l, TakenFrom(l, room, c), key, c.now, ceiling - got)
    ensures c.key == key && AnswerFrom(l, room, c).allowed ==> 1.0 <= ceiling + Gain(l, c.now)
  {
    if c.key == key {
      if key in room {
        TakingLowersPotential(l, room, c);
      } else {
        assert Refilled(l, Bucket(l.burst, c.now, false), c.now) == l.burst + 0.0 * l.refill;
      }
    }
  }

  lemma UnderStep(l: Limits, bs: Buckets, c: Call, key: Key, ceiling: real)
    requires Under(l, bs, key, c.now, ceiling) && 0.0 <= l.burst && 0.0 <= ceiling + Gain(l, c.now)
    ensures var got := if c.key == key && Reply(l, bs, c).allowed then 1.0 else 0.0;
      var left := ceiling + (if Falls(l, bs, c, key) then l.burst else 0.0) - got;
      Under(l, Next(l, bs, c), key, c.now, left) && 0.0 <= left + Gain(l, c.now)
  {
    hide Under, TakenFrom, AnswerFrom, MakeRoom, Evicts, Falls;
    UnderAfterRoom(l, bs, c, key, ceiling);
    UnderAfterTaking(l, MakeRoom(l, bs, c), c, key, ceiling + if Falls(l, bs, c, key) then l.burst else 0.0);
  }

  /** Every time the key is evicted it may get a burst more; but for that, its potential is what it has. */
  lemma {:induction false} AllowedThrough(l: Limits, bs: Buckets, calls: seq<Call>, key: Key, ceiling: real, last: Time)
    requires 0.0 <= l.burst && 0.0 <= l.refill && InOrder(calls) && calls != []
    requires Under(l, bs, key, calls[0].now, ceiling) && 0.0 <= ceiling + Gain(l, calls[0].now)
    requires forall i :: 0 <= i < |calls| ==> calls[i].now <= last
    ensures Allowed(l, bs, calls, key) as real
         <= ceiling + Bursts(l, TimesEvicted(l, bs, calls, key)) + Gain(l, last)
    decreases |calls|
  {
    hide Next, Reply, Under, Falls, Gain, Bursts;
    var c, rest, next := calls[0], calls[1..], Next(l, bs, calls[0]);
    var got, fell := c.key == key && Reply(l, bs, c).allowed, Falls(l, bs, c, key);
    var left := ceiling + (if fell then l.burst else 0.0) - (if got then 1.0 else 0.0);
    UnderStep(l, bs, c, key, ceiling);
    GainGrows(l, c.now, last);
    var n, k := Allowed(l, next, rest, key), TimesEvicted(l, next, rest, key);
    if rest == [] {
      assert n == 0 && k == 0;
      OneMoreBurst(l, 0);
    } else {
      assert rest[0] == calls[1] && forall i :: 0 <= i < |rest| ==> rest[i] == calls[i + 1];
      UnderLater(l, next, key, c.now, rest[0].now, left);
      GainGrows(l, c.now, rest[0].now);
      AllowedThrough(l, next, rest, key, left, last);
    }
    OneMoreBurst(l, k);
  }

  /** What the first call leaves: a token below the burst, at the reading it was made at. */
  lemma FirstTake(l: Limits, bs: Buckets, c: Call)
    requires Reply(l, bs, c).allowed
    ensures c.key in Next(l, bs, c) && 1.0 <= l.burst
    ensures Potential(l, Next(l, bs, c)[c.key]) <= l.burst - 1.0 - Gain(l, c.now)
  {
    hide MakeRoom, Refilled;
    NothingFullAfterATake(l, bs, c);
  }

  /** A burst, one more for each time the bucket is evicted, and the refill of the time between. */
  function Allowance(l: Limits, evicted: nat, s: Time, t: Time): real {
    (evicted + 1) as real * l.burst + l.refill * (t - s)
  }

  /**
   From an allowed call of a key on, it counted, at readings s up to t: with the key evicted k
   times, at most (k + 1) * burst + refill * (t - s) of its calls are allowed. Readings come in
   lock order here; full buckets may be forgotten and made again, and other keys evicted.
   */
  lemma BurstPerEviction(l: Limits, bs: Buckets, calls: seq<Call>, key: Key)
    requires 0.0 <= l.refill && InOrder(calls)
    requires calls != [] && calls[0].key == key && Reply(l, bs, calls[0]).allowed
    ensures Allowed(l, bs, calls, key) as real
         <= Allowance(l, TimesEvicted(l, bs, calls, key), calls[0].now, calls[|calls| - 1].now)
  {
    hide *;
    AllowedFromATake(l, bs, calls, key);
    Overall(l, Allowed(l, bs, calls, key), TimesEvicted(l, bs, calls, key), calls[0].now, calls[|calls| - 1].now);
  }

  lemma AllowedFromATake(l: Limits, bs: Buckets, calls: seq<Call>, key: Key)
    requires 0.0 <= l.refill && InOrder(calls)
    requires calls != [] && calls[0].key == key && Reply(l, bs, calls[0]).allowed
    ensures Allowed(l, bs, calls, key) as real
         <= l.burst - Gain(l, calls[0].now) + Bursts(l, TimesEvicted(l, bs, calls, key))
            + Gain(l, calls[|calls| - 1].now)
  {
    var c, rest, next := calls[0], calls[1..], Next(l, bs, calls[0]);
    var s, t := c.now, calls[|calls| - 1].now;
    var ceiling := l.burst - 1.0 - Gain(l, s);
    FirstTake(l, bs, c);
    assert Under(l, next, key, s, ceiling) && !Falls(l, bs, c, key);
    hide Next, Reply, Under, Falls, Gain, Bursts;
    OneMoreBurst(l, 0);
    if rest == [] {
      assert Allowed(l, next, rest, key) == 0 && TimesEvicted(l, next, rest, key) == 0;
    } else {
      assert rest[0] == calls[1] && forall i :: 0 <= i < |rest| ==> rest[i] == calls[i + 1];
      UnderLater(l, next, key, s, rest[0].now, ceiling);
      GainGrows(l, s, rest[0].now);
      AllowedThrough(l, next, rest, key, ceiling, t);
    }
  }

  lemma Overall(l: Limits, n: nat, k: nat, s: Time, t: Time)
    requires n as real <= l.burst - Gain(l, s) + Bursts(l, k) + Gain(l, t)
    ensures n as real <= Allowance(l, k, s, t)
  {
    GainBetween(l, s, t);
    OneMoreBurst(l, k);
    var gained, bursts := l.refill * (t - s), (k + 1) as real * l.burst;
    assert gained == Gain(l, t) - Gain(l, s) && bursts == Bursts(l, k + 1);
    hide *;
    assert n as real <= bursts + gained;
  }

  /**
   Between two allowed calls of a key that is not evicted between them, both counted, at readings
   s and t: at most burst + refill * (t - s) of its calls are allowed.
   */
  lemma BurstAndRefill(l: Limits, bs: Buckets, calls: seq<Call>, key: Key)
    requires 0.0 <= l.refill && InOrder(calls) && NeverTheVictim(l, bs, calls, key)
    requires calls != [] && calls[0].key == key && Reply(l, bs, calls[0]).allowed
    ensures Allowed(l, bs, calls, key) as real
         <= l.burst + l.refill * (calls[|calls| - 1].now - calls[0].now)
  {
    hide *;
    BurstPerEviction(l, bs, calls, key);
    NeverTheVictimNeverFalls(l, bs, calls, key);
    OneBurst(l, calls[0].now, calls[|calls| - 1].now);
  }

  lemma OneBurst(l: Limits, s: Time, t: Time)
    ensures Allowance(l, 0, s, t) == l.burst + l.refill * (t - s)
  {
    assert 1 as real * l.burst == l.burst;
  }

  /**
   From an empty limiter, with readings in lock order, whatever is asked of it: a key evicted k
   times is allowed at most k + 1 bursts and the refill between the first reading and the last.
   */
  lemma AllowedOverASpan(l: Limits, calls: seq<Call>, key: Key)
    requires 0.0 <= l.burst && 0.0 <= l.refill && InOrder(calls) && calls != []
    ensures Allowed(l, map[], calls, key) as real
         <= Allowance(l, TimesEvicted(l, map[], calls, key), calls[0].now, calls[|calls| - 1].now)
  {
    var first, last := calls[0].now, calls[|calls| - 1].now;
    var none: Buckets := map[];
    assert Under(l, none, key, first, l.burst - Gain(l, first));
    assert forall i :: 0 <= i < |calls| ==> calls[i].now <= last;
    hide *;
    AllowedThrough(l, none, calls, key, l.burst - Gain(l, first), last);
    Overall(l, Allowed(l, none, calls, key), TimesEvicted(l, none, calls, key), first, last);
  }

  lemma KeptStep(l: Limits, bs: Buckets, c: Call, key: Key, ceiling: real)
    requires key in bs && key in MakeRoom(l, bs, c) && Potential(l, bs[key]) <= ceiling
    ensures var got := if c.key == key && Reply(l, bs, c).allowed then 1.0 else 0.0;
      key in Next(l, bs, c) && Potential(l, Next(l, bs, c)[key]) <= ceiling - got
    ensures c.key == key && Reply(l, bs, c).allowed ==> 1.0 <= ceiling + Gain(l, c.now)
  {
    assert MakeRoom(l, bs, c)[key] == bs[key];
    if c.key == key {
      TakingLowersPotential(l, MakeRoom(l, bs, c), c);
    }
  }

  lemma {:induction false} AllowedKept(l: Limits, bs: Buckets, calls: seq<Call>, key: Key, ceiling: real)
    requires NeverDropped(l, bs, calls, key) && EndsAllowed(l, bs, calls, key)
    requires Potential(l, bs[key]) <= ceiling
    ensures Allowed(l, bs, calls, key) as real <= ceiling + Gain(l, calls[|calls| - 1].now)
    decreases |calls|
  {
    hide Next, Reply, TakenFrom, AnswerFrom, MakeRoom, ToppedUp, Evicts, ForgetFull, Gain;
    var c, rest, next := calls[0], calls[1..], Next(l, bs, calls[0]);
    KeptStep(l, bs, c, key, ceiling);
    if rest == [] {
      assert Allowed(l, next, rest, key) == 0;
    } else {
      var got := if c.key == key && Reply(l, bs, c).allowed then 1.0 else 0.0;
      assert rest[|rest| - 1] == calls[|calls| - 1];
      AllowedKept(l, next, rest, key, ceiling - got);
    }
  }

  /** The same bound with readings in any order, while the bucket is not taken away at all. */
  lemma BurstAndRefillInAnyOrder(l: Limits, bs: Buckets, calls: seq<Call>, key: Key)
    requires EndsAllowed(l, bs, calls, key)
    requires calls[0].key == key && Reply(l, bs, calls[0]).allowed
    requires NeverDropped(l, Next(l, bs, calls[0]), calls[1..], key)
    ensures Allowed(l, bs, calls, key) as real
         <= l.burst + l.refill * (calls[|calls| - 1].now - calls[0].now)
  {
    hide Next, Reply, TakenFrom, AnswerFrom, MakeRoom, ToppedUp, Evicts, ForgetFull, Gain, Bursts;
    var c, rest, next := calls[0], calls[1..], Next(l, bs, calls[0]);
    var s, t := c.now, calls[|calls| - 1].now;
    FirstTake(l, bs, c);
    OneMoreBurst(l, 0);
    if rest == [] {
      assert Allowed(l, next, rest, key) == 0;
    } else {
      assert rest[|rest| - 1] == calls[|calls| - 1];
      AllowedKept(l, next, rest, key, l.burst - 1.0 - Gain(l, s));
    }
    assert Allowed(l, bs, calls, key) as real <= l.burst - Gain(l, s) + Bursts(l, 0) + Gain(l, t);
    hide Allowed, Allowance;
    Overall(l, Allowed(l, bs, calls, key), 0, s, t);
    OneBurst(l, s, t);
  }

  // ------------------------------------------------------------------ one line a spell

  /** The refusals under a key that a caller is told are the first. */
  function Announced(l: Limits, bs: Buckets, calls: seq<Call>, key: Key): nat
    decreases |calls|
  {
    if calls == [] then 0
    else
      (if calls[0].key == key && Reply(l, bs, calls[0]).firstRefusal then 1 else 0)
      + Announced(l, Next(l, bs, calls[0]), calls[1..], key)
  }

  /**
   While a key keeps its bucket, however many of its calls are refused: one refusal is announced
   for each spell of them, so never more than one beyond the calls that were allowed between; and
   a run that ends in a spell has announced it.
   */
  lemma {:induction false} OneAnnouncementASpell(l: Limits, bs: Buckets, calls: seq<Call>, key: Key)
    requires NeverDropped(l, bs, calls, key)
    ensures key in Final(l, bs, calls)
    ensures var open, open' := if bs[key].announced then 1 else 0, if Final(l, bs, calls)[key].announced then 1 else 0;
      && Announced(l, bs, calls, key) + open <= Allowed(l, bs, calls, key) + open'
      && (Allowed(l, bs, calls, key) == 0 ==> Announced(l, bs, calls, key) + open == open')
    decreases |calls|
  {
    hide Next, Reply, MakeRoom, FullBy;
    if calls != [] {
      var c := calls[0];
      WhatACallDoes(l, bs, c);
      if c.key != key {
        StaysAsItIs(l, bs, c, key);
      }
      hide Grown;
      OneAnnouncementASpell(l, Next(l, bs, c), calls[1..], key);
    }
  }

  lemma StaysAsItIs(l: Limits, bs: Buckets, c: Call, key: Key)
    requires key in bs && key in MakeRoom(l, bs, c) && c.key != key
    ensures key in Next(l, bs, c) && Next(l, bs, c)[key] == bs[key]
  {
    OthersStay(l, MakeRoom(l, bs, c), c, key);
    hide TakenFrom, ForgetFull;
    assert MakeRoom(l, bs, c)[key] == bs[key] by { RoomIsPart(l, bs, c, key); }
  }

  lemma RoomIsPart(l: Limits, bs: Buckets, c: Call, k: Key)
    ensures k in MakeRoom(l, bs, c) ==> k in bs && MakeRoom(l, bs, c)[k] == bs[k]
  {
    hide Full;
  }
}
