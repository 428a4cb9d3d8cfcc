/**
 What a limiter gives away by forgetting: nothing with a bucket that is full, something with any other.
 */
module LimiterForgetting {
  import opened Types
  import opened Limiter

  /** The answers of a limiter with no ceiling, which never makes room. */
  function RepliesKeeping(l: Limits, all: Buckets, calls: seq<Call>): seq<Answer>
    decreases |calls|
  {
    if calls == [] then []
    else [AnswerFrom(l, all, calls[0])] + RepliesKeeping(l, TakenFrom(l, all, calls[0]), calls[1..])
  }

  ghost predicate NeverEvicts(l: Limits, bs: Buckets, calls: seq<Call>)
    decreases |calls|
  {
    calls == [] || (!Evicts(l, bs, calls[0]) && NeverEvicts(l, Next(l, bs, calls[0]), calls[1..]))
  }

  /** `all` has every bucket `bs` has; the ones it has beside them are full from `now` on. */
  ghost predicate FullAside(l: Limits, bs: Buckets, all: Buckets, now: Time) {
    && bs.Keys <= all.Keys
    && (forall k :: k in bs ==> bs[k] == all[k])
    && (forall k :: k in all && k !in bs ==> Full(l, all[k], now))
  }

  /** Waiting refills. */
  lemma RefilledLater(l: Limits, b: Bucket, now: Time, later: Time)
    ensures Refilled(l, b, later) == Refilled(l, b, now) + (later - now) * l.refill
  {
    var r, u, v := l.refill, now - b.last, later - now;
    assert later - b.last == u + v;
    assert (u + v) * r == u * r + v * r;
  }

  lemma FullStaysFull(l: Limits, b: Bucket, now: Time, later: Time)
    requires 0.0 <= l.refill && now <= later && Full(l, b, now)
    ensures Full(l, b, later)
  {
    RefilledLater(l, b, now, later);
    assert 0.0 <= (later - now) * l.refill;
  }

  /** A key whose bucket is full and a key with no bucket are answered alike. */
  lemma FullIsLikeNone(l: Limits, room: Buckets, all: Buckets, c: Call)
    requires 1.0 <= l.burst
    requires c.key in room ==> c.key in all && room[c.key] == all[c.key]
    requires c.key in all && c.key !in room ==> Full(l, all[c.key], c.now)
    ensures AnswerFrom(l, room, c) == AnswerFrom(l, all, c)
    ensures c.key in TakenFrom(l, room, c) && c.key in TakenFrom(l, all, c)
    ensures TakenFrom(l, room, c)[c.key] == TakenFrom(l, all, c)[c.key]
  {
    assert Refilled(l, Bucket(l.burst, c.now, false), c.now) == l.burst;
  }

  lemma FullAsideStep(l: Limits, bs: Buckets, all: Buckets, c: Call, now: Time)
    requires 1.0 <= l.burst && 0.0 <= l.refill && now <= c.now
    requires FullAside(l, bs, all, now) && !Evicts(l, bs, c)
    ensures Reply(l, bs, c) == AnswerFrom(l, all, c)
    ensures FullAside(l, Next(l, bs, c), TakenFrom(l, all, c), c.now)
  {
    forall k | k in all && k !in bs ensures Full(l, all[k], c.now) {
      FullStaysFull(l, all[k], now, c.now);
    }
    var room := MakeRoom(l, bs, c);
    assert room == bs || room == ForgetFull(l, bs, c.now);
    assert FullAside(l, room, all, c.now);
    FullIsLikeNone(l, room, all, c);
    FullAsideTake(l, room, all, c);
  }

  lemma FullAsideTake(l: Limits, room: Buckets, all: Buckets, c: Call)
    requires FullAside(l, room, all, c.now)
    requires c.key in TakenFrom(l, room, c) && c.key in TakenFrom(l, all, c)
    requires TakenFrom(l, room, c)[c.key] == TakenFrom(l, all, c)[c.key]
    ensures FullAside(l, TakenFrom(l, room, c), TakenFrom(l, all, c), c.now)
  {
    var room', all' := TakenFrom(l, room, c), TakenFrom(l, all, c);
    var b, b' := room'[c.key], all'[c.key];
    assert room' == room[c.key := b];
    assert all' == all[c.key := b'];
  }

  lemma {:induction false} ForgettingFrom(l: Limits, bs: Buckets, all: Buckets, calls: seq<Call>, now: Time)
    requires 1.0 <= l.burst && 0.0 <= l.refill
    requires InOrder(calls) && (calls != [] ==> now <= calls[0].now)
    requires FullAside(l, bs, all, now) && NeverEvicts(l, bs, calls)
    ensures Replies(l, bs, calls) == RepliesKeeping(l, all, calls)
    decreases |calls|
  {
    if calls != [] {
      var c := calls[0];
      FullAsideStep(l, bs, all, c, now);
      if |calls| > 1 {
        assert calls[1..][0] == calls[1];
      }
      ForgettingFrom(l, Next(l, bs, c), TakenFrom(l, all, c), calls[1..], c.now);
    }
  }

  /**
   With readings in lock order and the oldest-victim branch not taken, a limiter that forgets
   full buckets gives every answer, the first-refusal flag included, as one that never does.
   */
  lemma ForgettingIsHarmless(l: Limits, calls: seq<Call>)
    requires 1.0 <= l.burst && 0.0 <= l.refill
    requires InOrder(calls) && NeverEvicts(l, map[], calls)
    ensures Replies(l, map[], calls) == RepliesKeeping(l, map[], calls)
  {
    ForgettingFrom(l, map[], map[], calls, if calls == [] then 0.0 else calls[0].now);
  }

  // ------------------------------------------------------------------ asking until it shows

  /** The same key, again and again at one instant. */
  function Asks(key: Key, now: Time, victim: Key, n: nat): seq<Call> {
    if n == 0 then [] else [Call(key, now, victim)] + Asks(key, now, victim, n - 1)
  }

  lemma {:induction false} AsksAre(key: Key, now: Time, victim: Key, n: nat)
    ensures |Asks(key, now, victim, n)| == n
    ensures forall i :: 0 <= i < n ==> Asks(key, now, victim, n)[i] == Call(key, now, victim)
  {
    if n > 0 {
      AsksAre(key, now, victim, n - 1);
    }
  }

  ghost predicate AllAllowed(answers: seq<Answer>) {
    forall i :: 0 <= i < |answers| ==> answers[i].allowed
  }

  /** No time, no refill. */
  lemma NoTime(l: Limits, b: Bucket, now: Time)
    requires b.last == now
    ensures Refilled(l, b, now) == b.tokens
  {
    var none := now - b.last;
    assert none == 0.0 && none * l.refill == 0.0 && Refilled(l, b, now) == b.tokens + none * l.refill;
  }

  /** A call that finds a token where it is, or a whole burst where there is no bucket. */
  lemma TakesOne(l: Limits, room: Buckets, c: Call, tokens: real)
    requires 1.0 <= tokens <= l.burst
    requires if c.key in room then room[c.key].tokens == tokens && room[c.key].last == c.now else tokens == l.burst
    ensures AnswerFrom(l, room, c) == Answer(true, false)
    ensures TakenFrom(l, room, c) == room[c.key := Bucket(tokens - 1.0, c.now, false)]
  {
    NoTime(l, if c.key in room then room[c.key] else Bucket(l.burst, c.now, false), c.now);
    hide Refilled;
  }

  /** A bucket of so many tokens gives so many, forgetting or not, and is then spent. */
  lemma {:induction false} SpendsAll(l: Limits, bs: Buckets, key: Key, now: Time, victim: Key, n: nat)
    requires key in bs && bs[key] == Bucket(n as real, now, false) && n as real <= l.burst
    ensures var calls := Asks(key, now, victim, n);
      && NeverEvicts(l, bs, calls) && AllAllowed(Replies(l, bs, calls))
      && Final(l, bs, calls) == bs[key := Bucket(0.0, now, false)] == FinalKeeping(l, bs, calls)
    decreases n
  {
    if n == 0 {
      assert bs[key := Bucket(0.0, now, false)] == bs;
    } else {
      var c := Call(key, now, victim);
      TakesOne(l, bs, c, n as real);
      var next := bs[key := Bucket((n - 1) as real, now, false)];
      assert MakeRoom(l, bs, c) == bs && Next(l, bs, c) == next && TakenFrom(l, bs, c) == next;
      assert Asks(key, now, victim, n)[1..] == Asks(key, now, victim, n - 1);
      hide Next, TakenFrom, AnswerFrom, MakeRoom;
      SpendsAll(l, next, key, now, victim, n - 1);
      assert next[key := Bucket(0.0, now, false)] == bs[key := Bucket(0.0, now, false)];
    }
  }

  function FinalKeeping(l: Limits, all: Buckets, calls: seq<Call>): Buckets
    decreases |calls|
  {
    if calls == [] then all else FinalKeeping(l, TakenFrom(l, all, calls[0]), calls[1..])
  }

  lemma FirstOfABurst(l: Limits, bs: Buckets, c: Call, n: nat)
    requires c.key !in bs && 0 < n && l.burst == n as real
    ensures Reply(l, bs, c).allowed
    ensures c.key in Next(l, bs, c) && Next(l, bs, c)[c.key] == Bucket((n - 1) as real, c.now, false)
    ensures |bs| < l.capacity ==> !Evicts(l, bs, c)
    ensures |bs| < l.capacity ==>
      Next(l, bs, c) == TakenFrom(l, bs, c) == bs[c.key := Bucket((n - 1) as real, c.now, false)]
  {
    var room := MakeRoom(l, bs, c);
    TakesOne(l, room, c, n as real);
    hide TakenFrom, AnswerFrom;
  }

  /** A key with no bucket is given a whole burst at once. */
  lemma GivesABurst(l: Limits, bs: Buckets, key: Key, now: Time, victim: Key, n: nat)
    requires key !in bs && 0 < n && l.burst == n as real
    ensures AllAllowed(Replies(l, bs, Asks(key, now, victim, n)))
  {
    FirstOfABurst(l, bs, Call(key, now, victim), n);
    AsksUnfold(key, now, victim, n);
    hide Next, Reply, Asks;
    SpendsAll(l, Next(l, bs, Call(key, now, victim)), key, now, victim, n - 1);
  }

  lemma AsksUnfold(key: Key, now: Time, victim: Key, n: nat)
    requires 0 < n
    ensures Asks(key, now, victim, n) != [] && Asks(key, now, victim, n)[0] == Call(key, now, victim)
    ensures Asks(key, now, victim, n)[1..] == Asks(key, now, victim, n - 1)
  {
  }

  /** While there is room, it is then a spent bucket, forgetting or not. */
  lemma SpendsABurst(l: Limits, bs: Buckets, key: Key, now: Time, victim: Key, n: nat)
    requires key !in bs && 0 < n && l.burst == n as real && |bs| < l.capacity
    ensures var calls := Asks(key, now, victim, n);
      && NeverEvicts(l, bs, calls)
      && Final(l, bs, calls) == bs[key := Bucket(0.0, now, false)] == FinalKeeping(l, bs, calls)
  {
    var next := bs[key := Bucket((n - 1) as real, now, false)];
    FirstOfABurst(l, bs, Call(key, now, victim), n);
    AsksUnfold(key, now, victim, n);
    hide Next, TakenFrom, Evicts, Asks;
    SpendsAll(l, next, key, now, victim, n - 1);
    assert next[key := Bucket(0.0, now, false)] == bs[key := Bucket(0.0, now, false)];
  }

  /** A bucket with fewer tokens than it is asked for refuses before long. */
  lemma {:induction false} RunsOut(l: Limits, all: Buckets, key: Key, now: Time, victim: Key, n: nat)
    requires key in all && ToppedUp(l, all, Call(key, now, victim)).tokens < n as real && 0 < n
    ensures !AllAllowed(RepliesKeeping(l, all, Asks(key, now, victim, n)))
    decreases n
  {
    var c := Call(key, now, victim);
    var tokens := ToppedUp(l, all, c).tokens;
    var answers := RepliesKeeping(l, all, Asks(key, now, victim, n));
    assert Asks(key, now, victim, n)[1..] == Asks(key, now, victim, n - 1);
    assert answers[0] == AnswerFrom(l, all, c);
    if tokens >= 1.0 {
      var next := TakenFrom(l, all, c);
      LeftAfter(l, all, c);
      RunsOut(l, next, key, now, victim, n - 1);
      var later := RepliesKeeping(l, next, Asks(key, now, victim, n - 1));
      assert answers[1..] == later;
      var i :| 0 <= i < |later| && !later[i].allowed;
      assert answers[i + 1] == later[i];
    }
  }

  lemma LeftAfter(l: Limits, all: Buckets, c: Call)
    requires 1.0 <= ToppedUp(l, all, c).tokens
    ensures c.key in TakenFrom(l, all, c)
    ensures ToppedUp(l, TakenFrom(l, all, c), c).tokens == ToppedUp(l, all, c).tokens - 1.0
  {
    var b := ToppedUp(l, all, c);
    assert b.tokens <= l.burst;
    assert TakenFrom(l, all, c) == all[c.key := Bucket(b.tokens - 1.0, c.now, false)];
    NoTime(l, Bucket(b.tokens - 1.0, c.now, false), c.now);
    hide Refilled, TakenFrom;
  }

  /** A key whose bucket is missing, where it was not full, can be told by asking for a burst. */
  lemma MissingTells(l: Limits, bs: Buckets, all: Buckets, key: Key, now: Time, victim: Key, n: nat)
    requires 0 < n && l.burst == n as real
    requires key !in bs && key in all && !Full(l, all[key], now)
    ensures var calls := Asks(key, now, victim, n); Replies(l, bs, calls) != RepliesKeeping(l, all, calls)
  {
    GivesABurst(l, bs, key, now, victim, n);
    RunsOut(l, all, key, now, victim, n);
  }

  // ------------------------------------------------------------------ exactly when it is harmless

  /** No calls from now on, in lock order and short of another eviction, can tell the two apart. */
  ghost predicate Harmless(l: Limits, bs: Buckets, all: Buckets, now: Time) {
    forall calls: seq<Call> :: InOrder(calls) && (calls != [] ==> now <= calls[0].now) && NeverEvicts(l, bs, calls) ==>
      Replies(l, bs, calls) == RepliesKeeping(l, all, calls)
  }

  /** With a burst of a whole number of tokens, dropping a bucket is harmless exactly if it is full. */
  lemma DroppingIsHarmlessExactlyIfFull(l: Limits, all: Buckets, key: Key, now: Time, n: nat)
    requires 0 < n && l.burst == n as real && 0.0 <= l.refill
    requires key in all && |all| <= l.capacity
    ensures Harmless(l, all - {key}, all, now) <==> Full(l, all[key], now)
  {
    var bs := all - {key};
    if Full(l, all[key], now) {
      forall calls: seq<Call> | InOrder(calls) && (calls != [] ==> now <= calls[0].now) && NeverEvicts(l, bs, calls)
        ensures Replies(l, bs, calls) == RepliesKeeping(l, all, calls)
      {
        ForgettingFrom(l, bs, all, calls, now);
      }
    } else {
      var calls := Asks(key, now, "", n);
      assert bs.Keys == all.Keys - {key} && |bs| == |bs.Keys| && |all| == |all.Keys|;
      AsksAre(key, now, "", n);
      SpendsABurst(l, bs, key, now, "", n);
      MissingTells(l, bs, all, key, now, "", n);
      assert InOrder(calls) && now <= calls[0].now && NeverEvicts(l, bs, calls);
    }
  }

  // ------------------------------------------------------------------ an eviction always tells

  lemma {:induction false} RepliesJoined(l: Limits, bs: Buckets, a: seq<Call>, b: seq<Call>)
    ensures Replies(l, bs, a + b) == Replies(l, bs, a) + Replies(l, Final(l, bs, a), b)
    decreases |a|
  {
    hide Next, Reply;
    if a == [] {
      assert a + b == b;
    } else {
      assert (a + b)[1..] == a[1..] + b;
      RepliesJoined(l, Next(l, bs, a[0]), a[1..], b);
    }
  }

  lemma {:induction false} KeepingJoined(l: Limits, all: Buckets, a: seq<Call>, b: seq<Call>)
    ensures RepliesKeeping(l, all, a + b) == RepliesKeeping(l, all, a) + RepliesKeeping(l, FinalKeeping(l, all, a), b)
    decreases |a|
  {
    hide TakenFrom, AnswerFrom;
    if a == [] {
      assert a + b == b;
    } else {
      assert (a + b)[1..] == a[1..] + b;
      KeepingJoined(l, TakenFrom(l, all, a[0]), a[1..], b);
    }
  }

  lemma {:induction false} StaysFullAside(l: Limits, bs: Buckets, all: Buckets, calls: seq<Call>, now: Time)
    requires 1.0 <= l.burst && 0.0 <= l.refill
    requires InOrder(calls) && (calls != [] ==> now <= calls[0].now)
    requires FullAside(l, bs, all, now) && NeverEvicts(l, bs, calls)
    ensures FullAside(l, Final(l, bs, calls), FinalKeeping(l, all, calls),
                      if calls == [] then now else calls[|calls| - 1].now)
    decreases |calls|
  {
    if calls != [] {
      var c, rest := calls[0], calls[1..];
      FullAsideStep(l, bs, all, c, now);
      hide Next, TakenFrom, FullAside, Evicts;
      assert rest != [] ==> rest[0] == calls[1] && rest[|rest| - 1] == calls[|calls| - 1];
      StaysFullAside(l, Next(l, bs, c), TakenFrom(l, all, c), rest, c.now);
    }
  }

  lemma EvictionTells(l: Limits, bs: Buckets, all: Buckets, c: Call, next: Key, n: nat)
    requires 0 < n && l.burst == n as real
    requires bs.Keys <= all.Keys && forall k :: k in bs ==> all[k] == bs[k]
    requires Evicts(l, bs, c) && 0 < l.capacity && CanFall(ForgetFull(l, bs, c.now), c.victim)
    ensures var calls := [c] + Asks(c.victim, c.now, next, n); Replies(l, bs, calls) != RepliesKeeping(l, all, calls)
  {
    var v, bs', all' := c.victim, Next(l, bs, c), TakenFrom(l, all, c);
    assert v in ForgetFull(l, bs, c.now) && v != c.key;
    assert v !in bs' && v in all' && all'[v] == bs[v];
    hide Next, TakenFrom, Reply, AnswerFrom, ForgetFull;
    MissingTells(l, bs', all', v, c.now, next, n);
    var rest := Asks(v, c.now, next, n);
    assert ([c] + rest)[1..] == rest;
    assert Replies(l, bs, [c] + rest)[1..] == Replies(l, bs', rest);
    assert RepliesKeeping(l, all, [c] + rest)[1..] == RepliesKeeping(l, all', rest);
  }

  /**
   Over a run from nothing, in lock order: the first eviction there is can always be told, at the
   instant it happens, by asking for a burst for the key that fell, whoever falls next.
   */
  lemma EvictionIsNeverHarmless(l: Limits, calls: seq<Call>, c: Call, next: Key, n: nat)
    requires 0 < n && l.burst == n as real && 0.0 <= l.refill && 0 < l.capacity
    requires InOrder(calls + [c]) && NeverEvicts(l, map[], calls)
    requires var bs := Final(l, map[], calls); Evicts(l, bs, c) && CanFall(ForgetFull(l, bs, c.now), c.victim)
    ensures var longer := calls + ([c] + Asks(c.victim, c.now, next, n));
      InOrder(longer) && Replies(l, map[], longer) != RepliesKeeping(l, map[], longer)
  {
    var more := [c] + Asks(c.victim, c.now, next, n);
    AsksAre(c.victim, c.now, next, n);
    SoonerOnly(calls, c, more);
    assert InOrder(calls) by { forall i, j | 0 <= i < j < |calls| ensures calls[i].now <= calls[j].now {
      assert (calls + [c])[i] == calls[i] && (calls + [c])[j] == calls[j];
    } }
    StaysFullAside(l, map[], map[], calls, if calls == [] then 0.0 else calls[0].now);
    EvictionTells(l, Final(l, map[], calls), FinalKeeping(l, map[], calls), c, next, n);
    RepliesJoined(l, map[], calls, more);
    KeepingJoined(l, map[], calls, more);
    LengthsAgree(l, map[], map[], calls);
    hide Replies, RepliesKeeping, Final, FinalKeeping, Asks;
    assert forall a: seq<Answer>, b: seq<Answer>, x: seq<Answer>, y: seq<Answer> ::
      |a| == |b| && a + x == b + y ==> (a + x)[|a|..] == x && (b + y)[|b|..] == y;
  }

  lemma SoonerOnly(calls: seq<Call>, c: Call, more: seq<Call>)
    requires InOrder(calls + [c]) && forall i :: 0 <= i < |more| ==> more[i].now == c.now
    ensures InOrder(calls + more)
  {
    var both, long := calls + [c], calls + more;
    forall i, j | 0 <= i < j < |long| ensures long[i].now <= long[j].now {
      var last := |calls|;
      assert both[last] == c;
      assert i < last ==> long[i] == both[i];
      assert j < last ==> long[j] == both[j];
    }
  }

  lemma {:induction false} LengthsAgree(l: Limits, bs: Buckets, all: Buckets, calls: seq<Call>)
    ensures |Replies(l, bs, calls)| == |calls| == |RepliesKeeping(l, all, calls)|
    decreases |calls|
  {
    hide Next, TakenFrom, Reply, AnswerFrom;
    if calls != [] {
      LengthsAgree(l, Next(l, bs, calls[0]), TakenFrom(l, all, calls[0]), calls[1..]);
    }
  }

  // ------------------------------------------------------------------ reached from nothing

  /** A burst of a whole number of tokens, a refill that is none or more, and room for two. */
  ghost predicate Usual(l: Limits, burst: nat) {
    0 < burst && l.burst == burst as real && 0.0 <= l.refill && 2 <= l.capacity
  }

  /** The relay's own limits are such: twenty, refilled in two minutes, for 8192 keys. */
  lemma AsConfigured()
    ensures Usual(PUSH_LIMITS, 20) && PUSH_LIMITS.burst == 20.0 == 120.0 * PUSH_LIMITS.refill
    ensures PUSH_LIMITS.capacity == 8192
  {
  }

  /** A key for each number. */
  function Named(n: nat): Key {
    seq(n + 1, i => 'k')
  }

  /** So many keys, one after another, each spending a whole burst at the same instant. */
  function Spending(n: nat, burst: nat): seq<Call> {
    if n == 0 then [] else Spending(n - 1, burst) + Asks(Named(n - 1), 0.0, "", burst)
  }

  /** So many buckets, and every one of them spent. */
  ghost predicate Spent(bs: Buckets, n: nat) {
    && |bs| == n
    && (0 < n ==> Named(0) in bs) && (1 < n ==> Named(1) in bs)
    && forall k :: k in bs ==> bs[k] == Bucket(0.0, 0.0, false) && 1 <= |k| <= n
  }

  lemma {:induction false} NeverEvictsJoined(l: Limits, bs: Buckets, a: seq<Call>, b: seq<Call>)
    requires NeverEvicts(l, bs, a) && NeverEvicts(l, Final(l, bs, a), b)
    ensures NeverEvicts(l, bs, a + b) && Final(l, bs, a + b) == Final(l, Final(l, bs, a), b)
    decreases |a|
  {
    hide Next, Evicts;
    if a == [] {
      assert a + b == b;
    } else {
      assert (a + b)[1..] == a[1..] + b;
      NeverEvictsJoined(l, Next(l, bs, a[0]), a[1..], b);
    }
  }

  lemma {:induction false} FinalKeepingJoined(l: Limits, all: Buckets, a: seq<Call>, b: seq<Call>)
    ensures FinalKeeping(l, all, a + b) == FinalKeeping(l, FinalKeeping(l, all, a), b)
    decreases |a|
  {
    hide TakenFrom;
    if a == [] {
      assert a + b == b;
    } else {
      assert (a + b)[1..] == a[1..] + b;
      FinalKeepingJoined(l, TakenFrom(l, all, a[0]), a[1..], b);
    }
  }

  lemma {:induction false} SpendingAtOnce(n: nat, burst: nat)
    ensures forall i :: 0 <= i < |Spending(n, burst)| ==> Spending(n, burst)[i].now == 0.0
  {
    if n > 0 {
      SpendingAtOnce(n - 1, burst);
      AsksAre(Named(n - 1), 0.0, "", burst);
    }
  }

  lemma OneMoreSpent(bs: Buckets, n: nat)
    requires Spent(bs, n)
    ensures Named(n) !in bs && Spent(bs[Named(n) := Bucket(0.0, 0.0, false)], n + 1)
  {
    assert |Named(n)| == n + 1;
    hide Named;
    var more := bs[Named(n) := Bucket(0.0, 0.0, false)];
    assert more.Keys == bs.Keys + {Named(n)} && |more| == |more.Keys| && |bs| == |bs.Keys|;
  }

  /** From nothing, up to the capacity, such a map is reached without an eviction. */
  lemma {:induction false} SpendingSpends(l: Limits, n: nat, burst: nat)
    requires Usual(l, burst) && n <= l.capacity
    ensures var calls := Spending(n, burst);
      && NeverEvicts(l, map[], calls) && Spent(Final(l, map[], calls), n)
      && Final(l, map[], calls) == FinalKeeping(l, map[], calls)
  {
    if n > 0 {
      var before, more := Spending(n - 1, burst), Asks(Named(n - 1), 0.0, "", burst);
      SpendingSpends(l, n - 1, burst);
      var bs := Final(l, map[], before);
      OneMoreSpent(bs, n - 1);
      SpendsABurst(l, bs, Named(n - 1), 0.0, "", burst);
      hide NeverEvicts, Final, FinalKeeping, Asks, Named;
      NeverEvictsJoined(l, map[], before, more);
      FinalKeepingJoined(l, map[], before, more);
    }
  }

  /** A spent bucket answers no at the instant it was spent, and says so for the first time. */
  lemma SpentRefuses(l: Limits, all: Buckets, c: Call)
    requires c.key in all && all[c.key] == Bucket(0.0, c.now, false) && 1.0 <= l.burst
    ensures AnswerFrom(l, all, c) == Answer(false, true)
  {
    NoTime(l, all[c.key], c.now);
    hide Refilled;
  }

  /** With everything touched at this instant and nothing full, nothing is forgotten but the victim. */
  lemma MakesRoomFor(l: Limits, bs: Buckets, c: Call)
    requires |bs| == l.capacity && c.key !in bs && c.victim in bs
    requires forall k :: k in bs ==> bs[k].last == c.now && bs[k].tokens < l.burst
    ensures Evicts(l, bs, c) && CanFall(ForgetFull(l, bs, c.now), c.victim) && MakeRoom(l, bs, c) == bs - {c.victim}
  {
    forall k | k in bs ensures !Full(l, bs[k], c.now) {
      NoTime(l, bs[k], c.now);
    }
    assert ForgetFull(l, bs, c.now) == bs;
  }

  lemma EvictionForgivesOver(l: Limits, bs: Buckets, a: Key, b: Key, next: Key)
    requires 1.0 <= l.burst && Spent(bs, l.capacity) && a in bs && next in bs && a != next && b !in bs
    ensures var c0, c1 := Call(b, 0.0, a), Call(a, 0.0, next);
      && Evicts(l, bs, c0) && CanFall(ForgetFull(l, bs, 0.0), a)
      && Evicts(l, Next(l, bs, c0), c1) && CanFall(ForgetFull(l, Next(l, bs, c0), 0.0), next)
      && Reply(l, Next(l, bs, c0), c1) == Answer(true, false)
      && AnswerFrom(l, TakenFrom(l, bs, c0), c1) == Answer(false, true)
  {
    var c0, c1 := Call(b, 0.0, a), Call(a, 0.0, next);
    var room, then' := bs - {a}, (bs - {a})[b := Bucket(l.burst - 1.0, 0.0, false)];
    hide Named, Evicts, ForgetFull, CanFall, TakenFrom, AnswerFrom, MakeRoom;
    MakesRoomFor(l, bs, c0);
    TakesOne(l, room, c0, l.burst);
    TakesOne(l, bs, c0, l.burst);
    assert Next(l, bs, c0) == then';
    assert then'.Keys == (bs.Keys - {a}) + {b} && |then'| == |then'.Keys| && |bs| == |bs.Keys|;
    MakesRoomFor(l, then', c1);
    TakesOne(l, then' - {next}, c1, l.burst);
    SpentRefuses(l, bs[b := Bucket(l.burst - 1.0, 0.0, false)], c1);
  }

  /** The last of two more answers. */
  lemma LastOfTwo(l: Limits, calls: seq<Call>, c0: Call, c1: Call)
    ensures var both, bs, all := calls + [c0, c1], Final(l, map[], calls), FinalKeeping(l, map[], calls);
      && |Replies(l, map[], both)| == |both| == |RepliesKeeping(l, map[], both)|
      && Replies(l, map[], both)[|both| - 1] == Reply(l, Next(l, bs, c0), c1)
      && RepliesKeeping(l, map[], both)[|both| - 1] == AnswerFrom(l, TakenFrom(l, all, c0), c1)
  {
    RepliesJoined(l, map[], calls, [c0, c1]);
    KeepingJoined(l, map[], calls, [c0, c1]);
    LengthsAgree(l, map[], map[], calls);
    hide Next, TakenFrom, Reply, AnswerFrom;
    var bs, all := Final(l, map[], calls), FinalKeeping(l, map[], calls);
    assert [c0, c1][1..] == [c1] && [c1][1..] == [];
    assert Replies(l, Next(l, bs, c0), [c1]) == [Reply(l, Next(l, bs, c0), c1)];
    assert RepliesKeeping(l, TakenFrom(l, all, c0), [c1]) == [AnswerFrom(l, TakenFrom(l, all, c0), c1)];
  }

  /**
   From nothing: every bucket there is room for is spent, a new key comes, one bucket falls, and
   its key is at once allowed what it would have been refused.
   */
  lemma EvictionForgives(l: Limits, burst: nat)
    requires Usual(l, burst)
    ensures var spend := Spending(l.capacity, burst);
      var c0, c1 := Call(Named(l.capacity), 0.0, Named(0)), Call(Named(0), 0.0, Named(1));
      var both, bs := spend + [c0, c1], Final(l, map[], spend);
      && InOrder(both) && NeverEvicts(l, map[], spend)
      && Evicts(l, bs, c0) && CanFall(ForgetFull(l, bs, 0.0), c0.victim)
      && Evicts(l, Next(l, bs, c0), c1) && CanFall(ForgetFull(l, Next(l, bs, c0), 0.0), c1.victim)
      && |Replies(l, map[], both)| == |both| == |RepliesKeeping(l, map[], both)|
      && Replies(l, map[], both)[|both| - 1] == Answer(true, false)
      && RepliesKeeping(l, map[], both)[|both| - 1] == Answer(false, true)
  {
    var spend := Spending(l.capacity, burst);
    var c0, c1 := Call(Named(l.capacity), 0.0, Named(0)), Call(Named(0), 0.0, Named(1));
    var bs := Final(l, map[], spend);
    assert |Named(0)| == 1 && |Named(1)| == 2;
    SpendingAtOnce(l.capacity, burst);
    assert InOrder(spend + [c0, c1]) && 1.0 <= l.burst;
    SpendingSpends(l, l.capacity, burst);
    assert Named(0) in bs && Named(1) in bs;
    hide *;
    OneMoreSpent(bs, l.capacity);
    LastOfTwo(l, spend, c0, c1);
    EvictionForgivesOver(l, bs, Named(0), Named(l.capacity), Named(1));
  }

  /** Spent buckets, every one full again by `later`. */
  lemma FullByThen(l: Limits, bs: Buckets, n: nat, later: Time)
    requires Spent(bs, n) && l.burst <= later * l.refill
    ensures ForgetFull(l, bs, later) == map[]
  {
    hide Named;
    forall k | k in bs ensures Full(l, bs[k], later) {
      var waited := later - bs[k].last;
      assert waited == later && Refilled(l, bs[k], later) == 0.0 + waited * l.refill;
    }
  }

  lemma DisorderForgivesOver(l: Limits, bs: Buckets, a: Key, b: Key, later: Time)
    requires 1.0 <= l.burst && 2 <= l.capacity && l.burst <= later * l.refill
    requires Spent(bs, l.capacity) && a in bs && b !in bs
    ensures var c0, c1 := Call(b, later, ""), Call(a, 0.0, "");
      && !Evicts(l, bs, c0) && !Evicts(l, Next(l, bs, c0), c1)
      && Reply(l, Next(l, bs, c0), c1) == Answer(true, false)
      && AnswerFrom(l, TakenFrom(l, bs, c0), c1) == Answer(false, true)
  {
    var c0, c1 := Call(b, later, ""), Call(a, 0.0, "");
    var none: Buckets := map[];
    FullByThen(l, bs, l.capacity, later);
    hide Named, ForgetFull, TakenFrom, AnswerFrom;
    assert MakeRoom(l, bs, c0) == none && !Evicts(l, bs, c0);
    TakesOne(l, none, c0, l.burst);
    TakesOne(l, bs, c0, l.burst);
    var then' := none[b := Bucket(l.burst - 1.0, later, false)];
    assert Next(l, bs, c0) == then' && then'.Keys == {b} && |then'| == |then'.Keys| == 1;
    assert MakeRoom(l, then', c1) == then' && !Evicts(l, then', c1);
    TakesOne(l, then', c1, l.burst);
    SpentRefuses(l, bs[b := Bucket(l.burst - 1.0, later, false)], c1);
  }

  /**
   From nothing, with nobody evicted: every bucket there is room for is spent; once they have had
   the time to refill, a new key has them all forgotten as full; and a call by one of them that
   read the clock before all that is allowed what it would have been refused.
   */
  lemma DisorderForgives(l: Limits, burst: nat, later: Time)
    requires Usual(l, burst) && 0.0 <= later && l.burst <= later * l.refill
    ensures var spend := Spending(l.capacity, burst);
      var c0, c1 := Call(Named(l.capacity), later, ""), Call(Named(0), 0.0, "");
      var both := spend + [c0, c1];
      && NeverEvicts(l, map[], both) && InOrder(spend + [c0])
      && |Replies(l, map[], both)| == |both| == |RepliesKeeping(l, map[], both)|
      && Replies(l, map[], both)[|both| - 1] == Answer(true, false)
      && RepliesKeeping(l, map[], both)[|both| - 1] == Answer(false, true)
  {
    var spend := Spending(l.capacity, burst);
    var c0, c1 := Call(Named(l.capacity), later, ""), Call(Named(0), 0.0, "");
    var bs := Final(l, map[], spend);
    SpendingAtOnce(l.capacity, burst);
    assert InOrder(spend + [c0]) && 1.0 <= l.burst;
    SpendingSpends(l, l.capacity, burst);
    assert Named(0) in bs;
    TwoMore(l, bs, c0, c1);
    hide *;
    OneMoreSpent(bs, l.capacity);
    LastOfTwo(l, spend, c0, c1);
    DisorderForgivesOver(l, bs, Named(0), Named(l.capacity), later);
    NeverEvictsJoined(l, map[], spend, [c0, c1]);
  }

  lemma TwoMore(l: Limits, bs: Buckets, c0: Call, c1: Call)
    ensures NeverEvicts(l, bs, [c0, c1]) <==> !Evicts(l, bs, c0) && !Evicts(l, Next(l, bs, c0), c1)
  {
    hide Evicts, Next;
    assert [c0, c1][1..] == [c1] && [c1][1..] == [];
    assert NeverEvicts(l, Next(l, bs, c0), [c1]) <==> !Evicts(l, Next(l, bs, c0), c1);
  }
}
