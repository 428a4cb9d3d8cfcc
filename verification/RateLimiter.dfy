/** The limiter as the relay holds it: buckets updated in place, and two loops that forget. */
module RateLimiter {
  import opened Types
  import L = Limiter

  class Bucket {
    var tokens: real
    var last: Time
    var announced: bool

    constructor (tokens: real, last: Time)
      ensures this.tokens == tokens && this.last == last && !announced
    {
      this.tokens := tokens;
      this.last := last;
      announced := false;
    }

    ghost function View(): L.Bucket
      reads this
    {
      L.Bucket(tokens, last, announced)
    }
  }

  class RateLimiter {
    const limits: L.Limits
    var buckets: map<L.Key, Bucket>

    ghost predicate Valid()
      reads this
    {
      forall j, k :: j in buckets && k in buckets && buckets[j] == buckets[k] ==> j == k
    }

    ghost function View(): L.Buckets
      reads this, buckets.Values
    {
      map k | k in buckets :: buckets[k].View()
    }

    constructor (limits: L.Limits)
      ensures Valid() && this.limits == limits && View() == map[] && buckets == map[]
    {
      this.limits := limits;
      buckets := map[];
    }

    /** Takes a token for `key` if there is one; `victim` is the bucket evicted, if one is. */
    method Allow(key: L.Key, now: Time) returns (allowed: bool, firstRefusal: bool, ghost victim: L.Key)
      requires Valid()
      modifies this, buckets.Values
      ensures Valid() && fresh(buckets.Values - old(buckets.Values))
      ensures View() == L.Next(limits, old(View()), L.Call(key, now, victim))
      ensures L.Answer(allowed, firstRefusal) == L.Reply(limits, old(View()), L.Call(key, now, victim))
      ensures L.Evicts(limits, old(View()), L.Call(key, now, victim)) ==>
        L.CanFall(L.ForgetFull(limits, old(View()), now), victim)
    {
      victim := BucketFor(key, now);
      hide L.TakenFrom, L.AnswerFrom, L.MakeRoom, L.Evicts, L.CanFall, L.ForgetFull;
      ghost var call := L.Call(key, now, victim);
      ghost var room := L.MakeRoom(limits, old(View()), call);
      var b := buckets[key];
      allowed, firstRefusal := Take(key, b, now, call, room);
    }

    /** Makes sure the key has a bucket, and room for it. */
    method BucketFor(key: L.Key, now: Time) returns (ghost victim: L.Key)
      requires Valid()
      modifies this`buckets
      ensures Valid() && fresh(buckets.Values - old(buckets.Values)) && key in buckets
      ensures var room := L.MakeRoom(limits, old(View()), L.Call(key, now, victim));
        View() == if key in room then room else room[key := L.Bucket(limits.burst, now, false)]
      ensures L.Evicts(limits, old(View()), L.Call(key, now, victim)) ==>
        L.CanFall(L.ForgetFull(limits, old(View()), now), victim)
    {
      victim := "";
      ghost var was := View();
      SameSize();
      if key !in buckets {
        hide L.ForgetFull, L.CanFall;
        if |buckets| >= limits.capacity {
          victim := ForgetFull(now);
        }
        assert View() == L.MakeRoom(limits, was, L.Call(key, now, victim));
        Add(key, now);
      }
    }

    method Add(key: L.Key, now: Time)
      requires Valid() && key !in buckets
      modifies this`buckets
      ensures Valid() && key in buckets && buckets.Values <= old(buckets.Values) + {buckets[key]}
      ensures fresh(buckets[key])
      ensures View() == old(View())[key := L.Bucket(limits.burst, now, false)]
    {
      var made := new Bucket(limits.burst, now);
      buckets := buckets[key := made];
    }

    method Drop(key: L.Key)
      requires Valid()
      modifies this`buckets
      ensures Valid() && buckets.Keys <= old(buckets.Keys) && buckets.Values <= old(buckets.Values)
      ensures View() == old(View()) - {key}
    {
      buckets := buckets - {key};
    }

    /** Tops the bucket up to now, then takes a token or refuses. */
    method Take(key: L.Key, b: Bucket, now: Time, ghost call: L.Call, ghost room: L.Buckets)
      returns (allowed: bool, firstRefusal: bool)
      requires Valid() && key in buckets && buckets[key] == b && call.key == key && call.now == now
      requires View() == if key in room then room else room[key := L.Bucket(limits.burst, now, false)]
      modifies b
      ensures View() == L.TakenFrom(limits, room, call)
      ensures L.Answer(allowed, firstRefusal) == L.AnswerFrom(limits, room, call)
    {
      ghost var view, was := View(), b.View();
      assert was == view[key];
      hide View, Bucket.View;
      TopUp(key, b, now);
      ghost var topped := b.View();
      BucketIs(b);
      allowed, firstRefusal := Spend(key, b);
      BucketIs(b);
      hide Valid;
      TakenIs(limits, room, call, view, topped, b.View());
    }

    lemma BucketIs(b: Bucket)
      ensures b.View() == L.Bucket(b.tokens, b.last, b.announced)
    {
    }

    /** Takes a token from a bucket that is at most full, or refuses and remembers having said so. */
    method Spend(key: L.Key, b: Bucket) returns (allowed: bool, firstRefusal: bool)
      requires Valid() && key in buckets && buckets[key] == b && b.tokens <= limits.burst
      modifies b`tokens, b`announced
      ensures allowed == (1.0 <= old(b.tokens)) && firstRefusal == (!allowed && !old(b.announced))
      ensures b.View() == if allowed then L.Bucket(old(b.tokens) - 1.0, b.last, false)
                          else L.Bucket(old(b.tokens), b.last, true)
      ensures View() == old(View())[key := b.View()]
    {
      if b.tokens < 1.0 {
        allowed, firstRefusal := false, !b.announced;
        b.announced := true;
      } else {
        b.tokens := b.tokens - 1.0;
        b.announced := false;
        if b.tokens >= limits.burst {
          // The source deletes the bucket here; but one that was at most full, less the token
          // just taken, is not.
          assert false;
        }
        allowed, firstRefusal := true, false;
      }
    }

    method TopUp(key: L.Key, b: Bucket, now: Time)
      requires Valid() && key in buckets && buckets[key] == b
      modifies b`tokens, b`last
      ensures var tokens := L.Refilled(limits, old(b.View()), now);
        b.View() == L.Bucket(if tokens > limits.burst then limits.burst else tokens, now, old(b.announced))
      ensures View() == old(View())[key := b.View()]
    {
      b.tokens := b.tokens + (now - b.last) * limits.refill;
      assert b.tokens == L.Refilled(limits, old(b.View()), now);
      if b.tokens > limits.burst {
        b.tokens := limits.burst;
      }
      b.last := now;
    }

    lemma SameSize()
      ensures |View()| == |buckets| && View().Keys == buckets.Keys
    {
      assert View().Keys == buckets.Keys && |View()| == |View().Keys| && |buckets| == |buckets.Keys|;
    }

    /** Forgets every full bucket, and when that frees nothing, one of the others. */
    method ForgetFull(now: Time) returns (ghost victim: L.Key)
      requires Valid()
      modifies this`buckets
      ensures Valid() && buckets.Keys <= old(buckets.Keys) && buckets.Values <= old(buckets.Values)
      ensures var kept := L.ForgetFull(limits, old(View()), now);
        && View() == (if |kept| < limits.capacity then kept else kept - {victim})
        && (|kept| >= limits.capacity ==> L.CanFall(kept, victim))
    {
      hide Valid, View, L.ForgetFull, L.CanFall;
      DropFull(now);
      victim := "";
      SameSize();
      if |buckets| < limits.capacity {
        return;
      }
      var oldest := Oldest();
      Drop(oldest);
      victim := oldest;
    }

    method DropFull(now: Time)
      requires Valid()
      modifies this`buckets
      ensures Valid() && buckets.Keys <= old(buckets.Keys) && buckets.Values <= old(buckets.Values)
      ensures View() == L.ForgetFull(limits, old(View()), now)
    {
      ghost var was := View();
      ghost var before := buckets;
      var left := buckets.Keys;
      while left != {}
        invariant left <= buckets.Keys <= before.Keys
        invariant forall k :: k in buckets ==> buckets[k] == before[k]
        invariant forall k :: k in before ==>
          (k in buckets <==> k in left || !L.Full(limits, was[k], now))
        decreases left
      {
        var key :| key in left;
        var b := buckets[key];
        assert b.View() == was[key];
        left := left - {key};
        assert L.Refilled(limits, was[key], now) == b.tokens + (now - b.last) * limits.refill;
        hide L.Refilled;
        if b.tokens + (now - b.last) * limits.refill >= limits.burst {
          buckets := buckets - {key};
        }
      }
      assert View().Keys == L.ForgetFull(limits, was, now).Keys;
      forall b | b in buckets.Values ensures b in before.Values {
        var k :| k in buckets && buckets[k] == b;
        assert before[k] == b;
      }
    }

    /** The scan for a victim: take the first, then whatever is older. */
    method Oldest() returns (victim: L.Key)
      ensures L.CanFall(View(), victim)
      ensures buckets != map[] ==> victim in buckets
      ensures "" !in buckets ==>
        forall k :: k in buckets ==> victim in buckets && buckets[victim].last <= buckets[k].last
    {
      victim := "";
      var oldest := ZERO_TIME;
      var left := buckets.Keys;
      ghost var view := View();
      while left != {}
        invariant left <= buckets.Keys
        invariant victim == "" || (victim in buckets && oldest == buckets[victim].last)
        invariant left != buckets.Keys ==> victim in buckets
        invariant "" !in buckets ==> (victim == "" <==> left == buckets.Keys)
        invariant "" !in buckets ==> forall k :: k in buckets && k !in left ==> oldest <= buckets[k].last
        decreases left
      {
        var key :| key in left;
        left := left - {key};
        if victim == "" || buckets[key].last < oldest {
          victim, oldest := key, buckets[key].last;
        }
      }
      assert forall k :: k in view ==> view[k].last == buckets[k].last;
      if buckets == map[] {
        assert view == map[];
      }
    }
  }

  /** What topping up and spending leave of the bucket is what a call leaves of it in the model. */
  lemma TakenIs(l: L.Limits, room: L.Buckets, call: L.Call, view: L.Buckets, topped: L.Bucket, after: L.Bucket)
    requires view == if call.key in room then room else room[call.key := L.Bucket(l.burst, call.now, false)]
    requires var b := view[call.key];
      var tokens := L.Refilled(l, b, call.now);
      topped == L.Bucket(if tokens > l.burst then l.burst else tokens, call.now, b.announced)
    requires after == if 1.0 <= topped.tokens then L.Bucket(topped.tokens - 1.0, topped.last, false)
                      else topped.(announced := true)
    ensures view[call.key := topped][call.key := after] == L.TakenFrom(l, room, call)
    ensures L.AnswerFrom(l, room, call) == L.Answer(1.0 <= topped.tokens, topped.tokens < 1.0 && !topped.announced)
  {
    hide L.Refilled;
    assert L.ToppedUp(l, room, call) == topped;
  }
}
