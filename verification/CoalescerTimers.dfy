/** Slots and timers come and go together, and every burst ends. */
module CoalescerTimers {
  import opened Types
  import opened Coalescer

  ghost predicate HasTimer(s: State, key: Key) {
    exists t :: t in s.timers && s.timers[t].key == key
  }

  /** In any run: while open, a key has a slot exactly when it has a live timer, and never two. */
  lemma OneTimerPerOpenSlot(window: Time, clock: Time, es: seq<Event>, key: Key)
    requires Possible(Init(window, clock), es)
    ensures var s := Final(Init(window, clock), es);
      && (!s.closed ==> (key in s.slots <==> HasTimer(s, key)))
      && (!s.closed ==> forall t, u ::
            t in s.timers && u in s.timers && s.timers[t].key == s.timers[u].key ==> t == u)
      && (s.closed ==> s.slots == map[] && forall t :: t in s.timers ==> s.timers[t].fired)
  {
    PairedAlways(Init(window, clock), es);
    var s := Final(Init(window, clock), es);
    if !s.closed && key in s.slots {
      assert s.slots[key].stop in s.timers;
    }
  }

  /** What opens a window arms its timer for a window from now, and an expiry that sends does so again. */
  lemma AWindowFromNow(s: State, e: Event)
    requires Paired(s) && Enabled(s, e) && (e.Offer? || e.Expire?) && Out(s, e) != [] && !s.closed
    ensures var s' := Next(s, e);
      && e.key in s'.slots && s'.slots[e.key].held == None && s'.slots[e.key].stop in s'.timers
      && s'.timers[s'.slots[e.key].stop] == Timer(e.key, s.clock + s.window, false)
  {
  }

  ghost predicate DueWithin(s: State) {
    forall t :: t in s.timers ==> s.timers[t].due <= s.clock + s.window
  }

  /** In any run no timer is due later than a window from now, so nothing is held for longer than one. */
  lemma {:induction false} NoneDueLater(s: State, es: seq<Event>)
    requires DueWithin(s) && Possible(s, es)
    ensures DueWithin(Final(s, es)) && Final(s, es).window == s.window
    decreases |es|
  {
    if es != [] {
      DueStep(s, es[0]);
      hide Next, Enabled, DueWithin;
      NoneDueLater(Next(s, es[0]), es[1..]);
    }
  }

  lemma DueStep(s: State, e: Event)
    requires DueWithin(s) && Enabled(s, e)
    ensures DueWithin(Next(s, e)) && Next(s, e).window == s.window
  {
  }

  /** What a slot holds, while it is open, is under a timer that fires within a window from now. */
  lemma HeldNoLongerThanAWindow(window: Time, clock: Time, es: seq<Event>, key: Key)
    requires Possible(Init(window, clock), es)
    ensures var s := Final(Init(window, clock), es);
      key in s.slots ==> s.slots[key].stop in s.timers && s.timers[s.slots[key].stop].due <= s.clock + window
  {
    PairedAlways(Init(window, clock), es);
    NoneDueLater(Init(window, clock), es);
  }

  ghost predicate OfferedIn(es: seq<Event>, c: Commit) {
    exists j :: 0 <= j < |es| && es[j] == Offer(c.key, c.push)
  }

  /** Once closed, a run opens no slot, arms no timer, and sends only what is newly offered. */
  lemma {:induction false} ClosedForGood(s: State, es: seq<Event>)
    requires Paired(s) && s.closed && Possible(s, es)
    ensures var s' := Final(s, es);
      && s'.closed && s'.slots == map[] && s'.timers.Keys <= s.timers.Keys
    ensures forall c :: c in Commits(s, es) ==> OfferedIn(es, c)
    decreases |es|
  {
    if es != [] {
      var s1 := Next(s, es[0]);
      PairedStep(s, es[0]);
      ClosedForGood(s1, es[1..]);
      forall c | c in Commits(s, es) ensures OfferedIn(es, c) {
        if c in Out(s, es[0]) {
          assert es[0] == Offer(c.key, c.push);
        } else {
          assert OfferedIn(es[1..], c);
          var j :| 0 <= j < |es[1..]| && es[1..][j] == Offer(c.key, c.push);
          assert es[j + 1] == Offer(c.key, c.push);
        }
      }
    }
  }

  // ------------------------------------------------------------------ every burst ends

  ghost function Holding(slots: map<Key, Slot>): set<Key> {
    set k | k in slots && slots[k].held.Some?
  }

  /** Two for a slot that holds, one for a slot that does not. */
  ghost function Work(s: State): nat {
    |s.slots.Keys| + |Holding(s.slots)|
  }

  ghost predicate Quiet(es: seq<Event>) {
    forall i :: 0 <= i < |es| ==> es[i].Tick? || es[i].Fire? || es[i].Expire?
  }

  ghost function Expiries(es: seq<Event>): nat {
    if es == [] then 0 else (if es[0].Expire? then 1 else 0) + Expiries(es[1..])
  }

  lemma WorkOfASlot(slots: map<Key, Slot>, key: Key, slot: Slot)
    requires key in slots && slot.held.None?
    ensures slots[key].held.Some? ==> slots[key := slot].Keys == slots.Keys
                                      && |Holding(slots[key := slot])| == |Holding(slots)| - 1
    ensures slots[key].held.None? ==> |(slots - {key}).Keys| == |slots.Keys| - 1
                                      && Holding(slots - {key}) == Holding(slots)
  {
    if slots[key].held.Some? {
      assert Holding(slots[key := slot]) == Holding(slots) - {key};
    } else {
      assert (slots - {key}).Keys == slots.Keys - {key};
    }
  }

  /** An expiry either sends what is held and opens an empty window, or closes the slot. */
  lemma ExpiryShape(s: State, e: Event)
    requires Paired(s) && !s.closed && Enabled(s, e) && e.Expire?
    ensures e.key in s.slots && !Next(s, e).closed
    ensures Next(s, e).slots == if s.slots[e.key].held.Some? then s.slots[e.key := Slot(None, s.next)]
                                else s.slots - {e.key}
  {
    assert s.timers[e.timer].key in s.slots;
  }

  lemma ExpiryWorks(s: State, e: Event)
    requires Paired(s) && !s.closed && Enabled(s, e)
    requires e.Tick? || e.Fire? || e.Expire?
    ensures !Next(s, e).closed
    ensures Work(Next(s, e)) == Work(s) - (if e.Expire? then 1 else 0)
  {
    if e.Expire? {
      ExpiryShape(s, e);
      hide Next, Enabled, Paired, Holding;
      WorkOfASlot(s.slots, e.key, Slot(None, s.next));
    } else {
      assert Next(s, e).slots == s.slots;
    }
  }

  /** With no further offers, each expiry uses up one unit of work, so there are only so many. */
  lemma {:induction false} ExpiriesUseUpWork(s: State, es: seq<Event>)
    requires Paired(s) && !s.closed && Quiet(es) && Possible(s, es)
    ensures !Final(s, es).closed
    ensures Work(Final(s, es)) + Expiries(es) == Work(s)
    decreases |es|
  {
    if es != [] {
      assert es[0].Tick? || es[0].Fire? || es[0].Expire?;
      ExpiryWorks(s, es[0]);
      PairedStep(s, es[0]);
      assert forall i :: 0 <= i < |es[1..]| ==> es[1..][i] == es[i + 1];
      ExpiriesUseUpWork(Next(s, es[0]), es[1..]);
    }
  }

  lemma {:induction false} Joined(s: State, a: seq<Event>, b: seq<Event>)
    requires Possible(s, a) && Possible(Final(s, a), b)
    ensures Possible(s, a + b) && Final(s, a + b) == Final(Final(s, a), b)
    decreases |a|
  {
    if a == [] {
      assert a + b == b;
    } else {
      assert (a + b)[1..] == a[1..] + b;
      Joined(Next(s, a[0]), a[1..], b);
    }
  }

  /** A slot can always be expired: wait for its timer, let it fire, run the callback. */
  lemma ExpireSlot(s: State, key: Key) returns (es: seq<Event>)
    requires Paired(s) && !s.closed && key in s.slots
    ensures Quiet(es) && Possible(s, es) && Paired(Final(s, es)) && !Final(s, es).closed
    ensures Work(Final(s, es)) < Work(s)
  {
    var t := s.slots[key].stop;
    var wait := if s.timers[t].due > s.clock then s.timers[t].due - s.clock else 0.0;
    var expire := Expire(t, key);
    var s1 := Next(s, Tick(wait));
    if s.timers[t].fired {
      es := [Tick(wait), expire];
      assert es[1..] == [expire];
      assert Possible(s1, [expire]) && [expire][1..] == [];
    } else {
      var s2 := Next(s1, Fire(t));
      es := [Tick(wait), Fire(t), expire];
      assert es[1..] == [Fire(t), expire];
      assert [Fire(t), expire][1..] == [expire];
      assert [expire][1..] == [];
      assert Enabled(s2, expire);
      assert Possible(s2, [expire]);
      assert Possible(s1, [Fire(t), expire]);
    }
    assert es[|es| - 1] == expire;
    SomeExpiry(es, |es| - 1);
    PairedAlways(s, es);
    ExpiriesUseUpWork(s, es);
  }

  lemma {:induction false} SomeExpiry(es: seq<Event>, i: nat)
    requires i < |es| && es[i].Expire?
    ensures Expiries(es) > 0
  {
    if i > 0 {
      SomeExpiry(es[1..], i - 1);
    }
  }

  /**
   Nothing is stuck either: from every reachable open state the clock and the timers alone can
   run everything out, to no slot and no timer, in exactly as many expiries as there was work.
   */
  lemma {:induction false} EveryBurstEnds(s: State) returns (es: seq<Event>)
    requires Paired(s) && !s.closed
    ensures Quiet(es) && Possible(s, es)
    ensures Final(s, es).slots == map[] && Final(s, es).timers == map[]
    ensures Expiries(es) == Work(s)
    decreases Work(s)
  {
    if s.slots == map[] {
      assert s.timers == map[] by {
        if t :| t in s.timers {
          assert s.timers[t].key in s.slots;
        }
      }
      es := [];
    } else {
      var key :| key in s.slots;
      var lead := ExpireSlot(s, key);
      var rest := EveryBurstEnds(Final(s, lead));
      es := lead + rest;
      Joined(s, lead, rest);
    }
    ExpiriesUseUpWork(s, es);
  }
}
