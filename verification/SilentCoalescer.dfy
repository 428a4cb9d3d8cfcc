/** The coalescer as the relay holds it: slots updated in place, each step under the lock. */
module SilentCoalescer {
  import opened Types
  import opened Coalescer

  /** The scheduler: a clock, and the timers whose callback has not run. */
  class Timers {
    var clock: Time
    var live: map<TimerId, Timer>
    var next: TimerId

    constructor (clock: Time)
      ensures this.clock == clock && live == map[] && next == 0
    {
      this.clock := clock;
      live := map[];
      next := 0;
    }

    method After(wait: Time, key: Key) returns (stop: TimerId)
      modifies this
      ensures stop == old(next) && next == stop + 1 && clock == old(clock)
      ensures live == old(live)[stop := Timer(key, clock + wait, false)]
    {
      stop := next;
      live := live[stop := Timer(key, clock + wait, false)];
      next := next + 1;
    }

    /** Reports whether it prevented the run: a timer that has fired cannot be called back. */
    method Stop(t: TimerId) returns (prevented: bool)
      modifies this`live
      ensures prevented == (t in old(live) && !old(live)[t].fired)
      ensures live == if prevented then old(live) - {t} else old(live)
    {
      prevented := t in live && !live[t].fired;
      if prevented {
        live := live - {t};
      }
    }
  }

  class SilentSlot {
    var held: Option<Push>
    var stop: TimerId

    constructor (stop: TimerId)
      ensures held == None && this.stop == stop
    {
      held := None;
      this.stop := stop;
    }
  }

  class SilentCoalescer {
    const window: Time
    const after: Timers
    var slots: map<Key, SilentSlot>
    var closed: bool

    /** No two keys share a slot object, so updating one window in place touches no other. */
    ghost predicate Valid()
      reads this
    {
      forall j, k :: j in slots && k in slots && slots[j] == slots[k] ==> j == k
    }

    ghost function Windows(): map<Key, Slot>
      reads this, slots.Values
    {
      map k | k in slots :: Slot(slots[k].held, slots[k].stop)
    }

    ghost function View(): State
      reads this, after, slots.Values
    {
      State(window, after.clock, Windows(), closed, after.live, after.next)
    }

    constructor (window: Time, after: Timers)
      ensures Valid() && this.window == window && this.after == after
      ensures slots == map[] && !closed
      ensures after.live == map[] && after.next == 0 ==> View() == Init(window, after.clock)
    {
      this.window := window;
      this.after := after;
      slots := map[];
      closed := false;
    }

    /** Reports whether the push was held; what is to be sent at once is returned instead. */
    method Offer(key: Key, push: Push) returns (held: bool, send: seq<Commit>)
      requires Valid()
      modifies this`slots, after, slots.Values
      ensures Valid() && fresh(slots.Values - old(slots.Values))
      ensures View() == Next(old(View()), Event.Offer(key, push))
      ensures send == Out(old(View()), Event.Offer(key, push))
      ensures held == (!old(closed) && key in old(slots))
    {
      if closed {
        return false, [Commit(key, push, after.clock)];
      }
      if key in slots {
        var slot := slots[key];
        slot.held := Some(push);
        assert Windows() == old(Windows())[key := Slot(Some(push), slot.stop)];
        return true, [];
      }
      var stop := after.After(window, key);
      var slot := new SilentSlot(stop);
      slots := slots[key := slot];
      assert Windows() == old(Windows())[key := Slot(None, stop)];
      return false, [Commit(key, push, after.clock)];
    }

    /** The callback of timer `t`, when it takes the lock. */
    method Expire(t: TimerId, key: Key) returns (send: seq<Commit>)
      requires Valid()
      requires Enabled(View(), Event.Expire(t, key))
      modifies this`slots, after, slots.Values
      ensures Valid() && slots.Values <= old(slots.Values)
      ensures View() == Next(old(View()), Event.Expire(t, key))
      ensures send == Out(old(View()), Event.Expire(t, key))
    {
      after.live := after.live - {t};
      if closed || key !in slots {
        return [];
      }
      var slot := slots[key];
      if slot.held == None {
        slots := slots - {key};
        assert Windows() == old(Windows()) - {key};
        return [];
      }
      var push := slot.held.value;
      slot.held := None;
      slot.stop := after.After(window, key);
      assert Windows() == old(Windows())[key := Slot(None, slot.stop)];
      return [Commit(key, push, after.clock)];
    }

    /** Stops every window and returns what was held, in the order the slots were met. */
    method Flush() returns (send: seq<Commit>, ghost order: seq<Key>)
      requires Valid()
      modifies this, after`live
      ensures Valid() && slots.Values <= old(slots.Values)
      ensures Enabled(old(View()), Event.Flush(order))
      ensures View() == Next(old(View()), Event.Flush(order))
      ensures send == Out(old(View()), Event.Flush(order))
    {
      if closed {
        return [], Listing(slots.Keys);
      }
      ghost var was := View();
      closed := true;
      assert View() == was.(closed := true) && View().(closed := false) == was;
      send, order := StopAll();
      slots := map[];
      assert Windows() == map[];
    }

    /** The loop of a flush: every slot's timer is stopped, and what it holds is taken. */
    method StopAll() returns (send: seq<Commit>, ghost order: seq<Key>)
      requires Valid()
      modifies after`live
      ensures Lists(order, slots.Keys)
      ensures send == HeldInOrder(old(View()).(closed := false), order)
      ensures after.live == Stopped(old(View()).slots, old(after.live))
    {
      ghost var was := View().(closed := false);
      send, order := [], [];
      var left := slots.Keys;
      ghost var met: set<Key> := {};
      while left != {}
        invariant Windows() == was.slots && met + left == slots.Keys && met !! left
        invariant Lists(order, met)
        invariant send == HeldInOrder(was, order)
        invariant after.live == StoppedFor(was, met)
        decreases left
      {
        var key :| key in left;
        var slot := slots[key];
        assert Windows()[key] == Slot(slot.held, slot.stop);
        hide Windows, HeldInOrder, Lists, StoppedFor;
        var _ := after.Stop(slot.stop);
        if slot.held.Some? {
          send := send + [Commit(key, slot.held.value, after.clock)];
        }
        HeldJoined(was, order, key);
        ListsOneMore(order, met, key);
        StoppedForOneMore(was, met, key);
        order := order + [key];
        met, left := met + {key}, left - {key};
      }
      StoppedForAll(was);
    }

    method OpenWindows() returns (n: nat)
      ensures n == |View().slots.Keys|
    {
      n := |slots.Keys|;
      assert slots.Keys == View().slots.Keys;
    }
  }

  // ------------------------------------------------------------------ the loop of a flush

  ghost function Listing(keys: set<Key>): (order: seq<Key>)
    ensures Lists(order, keys)
  {
    if keys == {} then []
    else
      var k :| k in keys;
      Listing(keys - {k}) + [k]
  }

  lemma ListsOneMore(order: seq<Key>, keys: set<Key>, key: Key)
    requires Lists(order, keys) && key !in keys
    ensures Lists(order + [key], keys + {key})
  {
  }

  /** What is live once the timers of the slots under `keys` were stopped. */
  ghost function StoppedFor(s: State, keys: set<Key>): map<TimerId, Timer> {
    map t | t in s.timers
      && (s.timers[t].fired || forall k :: k in keys && k in s.slots ==> s.slots[k].stop != t)
      :: s.timers[t]
  }

  lemma StoppedForOneMore(s: State, keys: set<Key>, key: Key)
    requires key in s.slots
    ensures var live, t := StoppedFor(s, keys), s.slots[key].stop;
      StoppedFor(s, keys + {key}) == if t in live && !live[t].fired then live - {t} else live
  {
  }

  lemma StoppedForAll(s: State)
    ensures StoppedFor(s, s.slots.Keys) == Stopped(s.slots, s.timers)
  {
  }

  lemma {:induction false} HeldJoined(s: State, order: seq<Key>, key: Key)
    ensures HeldInOrder(s, order + [key]) == HeldInOrder(s, order)
      + if key in s.slots && s.slots[key].held.Some?
        then [Commit(key, s.slots[key].held.value, s.clock)] else []
  {
    if order == [] {
      assert ([] + [key])[1..] == [];
    } else {
      assert (order + [key])[1..] == order[1..] + [key];
      HeldJoined(s, order[1..], key);
    }
  }
}
