/**
 The silent-push coalescer as a step system: the slots behind its lock, a clock, and every timer
 that is live, that is, pending or fired with its callback still to take the lock.

 A step that sends a push does so after the lock is released. What is recorded here is the
 commit, the moment under the lock at which the push is chosen; handing it over is a later step
 of the pipeline.
 */
module Coalescer {
  import opened Types

  type Key = string

  type TimerId = nat

  datatype Timer = Timer(key: Key, due: Time, fired: bool)

  /** One open window: what it holds, and the timer that will close it. */
  datatype Slot = Slot(held: Option<Push>, stop: TimerId)

  datatype State = State(
    window: Time,
    clock: Time,
    slots: map<Key, Slot>,
    closed: bool,
    timers: map<TimerId, Timer>,
    next: TimerId)

  /** `Expire` is a callback taking the lock; `order` is the order a flush meets the slots in. */
  datatype Event =
    | Tick(elapsed: Time)
    | Offer(key: Key, push: Push)
    | Fire(timer: TimerId)
    | Expire(timer: TimerId, key: Key)
    | Flush(order: seq<Key>)

  datatype Commit = Commit(key: Key, push: Push, at: Time)

  function Init(window: Time, clock: Time): State {
    State(window, clock, map[], false, map[], 0)
  }

  /** A listing of a set: every member once, in some order. */
  ghost predicate Lists(order: seq<Key>, keys: set<Key>) {
    && (forall i, j :: 0 <= i < j < |order| ==> order[i] != order[j])
    && (forall k :: k in keys <==> k in order)
  }

  ghost predicate Enabled(s: State, e: Event) {
    match e
    case Tick(elapsed) => 0.0 <= elapsed
    case Offer(_, _) => true
    case Fire(t) => t in s.timers && !s.timers[t].fired && s.timers[t].due <= s.clock
    case Expire(t, key) => t in s.timers && s.timers[t].fired && s.timers[t].key == key
    case Flush(order) => Lists(order, s.slots.Keys)
  }

  /** Open a window: an empty slot and a new timer, due a window from now. */
  function Arm(s: State, key: Key): State {
    s.(slots := s.slots[key := Slot(None, s.next)],
       timers := s.timers[s.next := Timer(key, s.clock + s.window, false)],
       next := s.next + 1)
  }

  /** What is live once every slot's timer was stopped: only callbacks already on their way. */
  function Stopped(slots: map<Key, Slot>, timers: map<TimerId, Timer>): map<TimerId, Timer> {
    var stops := set k | k in slots :: slots[k].stop;
    map t | t in timers && (t !in stops || timers[t].fired) :: timers[t]
  }

  function Next(s: State, e: Event): State {
    match e
    case Tick(elapsed) => s.(clock := s.clock + elapsed)
    case Offer(key, push) =>
      if s.closed then s
      else if key in s.slots then s.(slots := s.slots[key := s.slots[key].(held := Some(push))])
      else Arm(s, key)
    case Fire(t) =>
      if t in s.timers then s.(timers := s.timers[t := s.timers[t].(fired := true)]) else s
    case Expire(t, key) =>
      var ran := s.(timers := s.timers - {t});
      if s.closed || key !in s.slots then ran
      else if s.slots[key].held.None? then ran.(slots := ran.slots - {key})
      else Arm(ran, key)
    case Flush(_) =>
      if s.closed then s
      else s.(closed := true, slots := map[], timers := Stopped(s.slots, s.timers))
  }

  /** The pushes held in `slots`, in the order the keys are met. */
  function HeldInOrder(s: State, order: seq<Key>): seq<Commit> {
    if order == [] then []
    else
      var rest := HeldInOrder(s, order[1..]);
      if order[0] in s.slots && s.slots[order[0]].held.Some?
      then [Commit(order[0], s.slots[order[0]].held.value, s.clock)] + rest
      else rest
  }

  /** What a step commits to sending. */
  function Out(s: State, e: Event): seq<Commit> {
    match e
    case Tick(_) => []
    case Offer(key, push) => if s.closed || key !in s.slots then [Commit(key, push, s.clock)] else []
    case Fire(_) => []
    case Expire(_, key) =>
      if s.closed || key !in s.slots || s.slots[key].held.None? then []
      else [Commit(key, s.slots[key].held.value, s.clock)]
    case Flush(order) => if s.closed then [] else HeldInOrder(s, order)
  }

  // ------------------------------------------------------------------ runs

  ghost predicate Possible(s: State, es: seq<Event>)
    decreases |es|
  {
    es == [] || (Enabled(s, es[0]) && Possible(Next(s, es[0]), es[1..]))
  }

  function Final(s: State, es: seq<Event>): State
    decreases |es|
  {
    if es == [] then s else Final(Next(s, es[0]), es[1..])
  }

  function Commits(s: State, es: seq<Event>): seq<Commit>
    decreases |es|
  {
    if es == [] then [] else Out(s, es[0]) + Commits(Next(s, es[0]), es[1..])
  }

  // ------------------------------------------------------------------ timers

  /**
   Until closed, slots and live timers are two views of one thing: each slot's timer is live and
   names it, and each live timer is some slot's. After it, no slot is left and every live timer
   is a callback that had already fired.
   */
  ghost predicate Paired(s: State) {
    && (forall t :: t in s.timers ==> t < s.next)
    && (s.closed ==> s.slots == map[] && forall t :: t in s.timers ==> s.timers[t].fired)
    && (!s.closed ==>
          && (forall k :: k in s.slots ==>
                s.slots[k].stop in s.timers && s.timers[s.slots[k].stop].key == k)
          && (forall t :: t in s.timers ==>
                s.timers[t].key in s.slots && s.slots[s.timers[t].key].stop == t))
  }

  lemma PairedStep(s: State, e: Event)
    requires Paired(s) && Enabled(s, e)
    ensures Paired(Next(s, e))
  {
    match e
    case Flush(order) =>
      if !s.closed {
        forall t | t in Stopped(s.slots, s.timers) ensures s.timers[t].fired {
          assert s.slots[s.timers[t].key].stop == t;
        }
      }
    case _ =>
  }

  lemma {:induction false} PairedAlways(s: State, es: seq<Event>)
    requires Paired(s) && Possible(s, es)
    ensures Paired(Final(s, es))
    decreases |es|
  {
    if es != [] {
      PairedStep(s, es[0]);
      PairedAlways(Next(s, es[0]), es[1..]);
    }
  }
}
