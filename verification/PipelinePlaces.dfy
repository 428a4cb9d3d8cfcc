/** Every push that entered is in exactly one place, in every interleaving. */
module PipelinePlaces {
  import opened Types
  import opened Pipeline
  import C = Coalescer
  import Q = DeliveryQueue
  import L = Limiter
  import S = Store

  /** Where a push can be; a queued one is known by its number in the order of acceptance. */
  datatype Place =
    | Held(key: string)
    | Carried(id: nat)
    | ToSend(closer: nat, i: nat)
    | Adding
    | Queued(n: nat)
    | Working(worker: nat)
    | Over(id: nat)

  predicate Undecided(stage: Stage) {
    stage == Limiting || stage == Checking || stage == Pushing
  }

  /** The push at a place, if there is one. */
  function At(s: State, p: Place): Option<Push> {
    match p
    case Held(key) => if key in s.co.slots then s.co.slots[key].held else None
    case Carried(id) => if id in s.local then Some(PushOf(s.local[id])) else None
    case ToSend(c, i) =>
      if c in s.closers && s.closers[c].sent <= i < |s.closers[c].out| then Some(s.closers[c].out[i]) else None
    case Adding => if s.q.adding.Some? then Some(s.q.adding.value.push) else None
    case Queued(n) =>
      if s.q.taken <= n < s.q.taken + |s.q.jobs| then Some(s.q.jobs[n - s.q.taken].push) else None
    case Working(w) =>
      if w in s.q.running && w in s.stages && Undecided(s.stages[w]) then Some(s.q.running[w].job.push) else None
    case Over(id) => if id in s.ended then Some(s.ended[id].push) else None
  }

  ghost predicate IsThere(s: State, p: Place, id: nat) {
    At(s, p).Some? && At(s, p).value.id == id
  }

  /** Nothing is anywhere that did not enter, as it entered. */
  ghost predicate AllEntered(s: State) {
    forall p :: At(s, p).Some? ==>
      && At(s, p).value.id < |s.arrivals|
      && At(s, p).value == AsEntered(s.arrivals[At(s, p).value.id], At(s, p).value.id)
  }

  ghost predicate NoneTwice(s: State) {
    forall p, r :: At(s, p).Some? && At(s, r).Some? && At(s, p).value.id == At(s, r).value.id ==> p == r
  }

  ghost predicate Somewhere(s: State, id: nat) {
    exists p :: IsThere(s, p, id)
  }

  ghost predicate NoneLost(s: State) {
    forall id: nat :: id < |s.arrivals| ==> Somewhere(s, id)
  }

  /** Every push that entered is in exactly one place. */
  ghost predicate Placed(s: State) {
    AllEntered(s) && NoneTwice(s) && NoneLost(s)
  }

  /** A carried push is under its own number, and so is one that is over. */
  ghost predicate Filed(s: State) {
    && (forall id :: id in s.local ==> PushOf(s.local[id]).id == id)
    && (forall id :: id in s.ended ==> s.ended[id].push.id == id)
  }

  ghost predicate Whole(s: State) {
    Placed(s) && Filed(s) && Q.Counted(s.q)
  }

  // ------------------------------------------------------------------ moving one push

  /** One push goes from one place to another, and nothing else moves. */
  ghost predicate MovesOne(s: State, s': State, p: Place, r: Place) {
    && s'.arrivals == s.arrivals && p != r
    && At(s, p).Some? && At(s, r).None?
    && At(s', p).None? && At(s', r) == At(s, p)
    && forall x :: x != p && x != r ==> At(s', x) == At(s, x)
  }

  ghost predicate MovesNone(s: State, s': State) {
    s'.arrivals == s.arrivals && forall x :: At(s', x) == At(s, x)
  }

  lemma Moved(s: State, s': State, p: Place, r: Place)
    requires Placed(s) && MovesOne(s, s', p, r)
    ensures Placed(s')
  {
    hide At;
    forall x | At(s', x).Some?
      ensures At(s', x).value.id < |s'.arrivals|
      ensures At(s', x).value == AsEntered(s'.arrivals[At(s', x).value.id], At(s', x).value.id)
    {
      var y := if x == r then p else x;
      assert At(s', x) == At(s, y);
    }
    forall x, z | At(s', x).Some? && At(s', z).Some? && At(s', x).value.id == At(s', z).value.id
      ensures x == z
    {
      var y := if x == r then p else x;
      var u := if z == r then p else z;
      assert At(s', x) == At(s, y) && At(s', z) == At(s, u);
      assert y == u;
    }
    forall id: nat | id < |s'.arrivals| ensures Somewhere(s', id) {
      assert Somewhere(s, id);
      var y :| IsThere(s, y, id);
      assert IsThere(s', if y == p then r else y, id);
    }
  }

  lemma Still(s: State, s': State)
    requires Placed(s) && MovesNone(s, s')
    ensures Placed(s')
  {
    hide At;
    forall id: nat | id < |s'.arrivals| ensures Somewhere(s', id) {
      assert Somewhere(s, id);
      var y :| IsThere(s, y, id);
      assert IsThere(s', y, id);
    }
  }

  /** Whoever is somewhere else is neither carried nor over. */
  lemma Elsewhere(s: State, p: Place)
    requires Placed(s) && Filed(s) && At(s, p).Some?
    ensures At(s, p).value.id in s.local ==> p == Carried(At(s, p).value.id)
    ensures At(s, p).value.id in s.ended ==> p == Over(At(s, p).value.id)
  {
    var id := At(s, p).value.id;
    if id in s.local {
      assert At(s, Carried(id)).value.id == id;
    }
    if id in s.ended {
      assert At(s, Over(id)).value.id == id;
    }
  }

  // ------------------------------------------------------------------ step by step

  lemma EnterKeepsPlaced(s: State, a: Arrival, now: Time)
    requires Placed(s) && Filed(s)
    ensures Placed(AfterEnter(s, a, now)) && Filed(AfterEnter(s, a, now))
  {
    var s', id := AfterEnter(s, a, now), |s.arrivals|;
    var to := Carried(id);
    assert At(s, to).Some? ==> At(s, to).value.id == id;
    assert At(s', to) == Some(AsEntered(a, id));
    assert forall x :: x != to ==> At(s', x) == At(s, x);
    forall n: nat | n < |s'.arrivals| ensures Somewhere(s', n) {
      if n == id {
        assert IsThere(s', to, n);
      } else {
        assert Somewhere(s, n);
        var y :| IsThere(s, y, n);
        assert IsThere(s', y, n);
      }
    }
  }

  /** The held push of a slot superseded, with nothing yet in its place. */
  function Dropped(s: State, key: string): State
    requires At(s, Held(key)).Some?
  {
    s.(co := s.co.(slots := s.co.slots[key := s.co.slots[key].(held := None)]),
       ended := Ended(s.ended, s.co.slots[key].held.value, Superseded))
  }

  lemma DroppedMoves(s: State, key: string)
    requires Filed(s) && At(s, Held(key)).Some? && At(s, Held(key)).value.id !in s.ended
    ensures MovesOne(s, Dropped(s, key), Held(key), Over(At(s, Held(key)).value.id))
    ensures Filed(Dropped(s, key))
  {
  }

  lemma HeldMoves(s: State, s': State, id: nat, key: string)
    requires Filed(s) && id in s.local && key in s.co.slots && s.co.slots[key].held.None?
    requires s'.arrivals == s.arrivals && s'.closers == s.closers && s'.q == s.q && s'.stages == s.stages
    requires s'.ended == s.ended && s'.local == s.local - {id}
    requires s'.co.slots == s.co.slots[key := s.co.slots[key].(held := Some(PushOf(s.local[id])))]
    ensures MovesOne(s, s', Carried(id), Held(key)) && Filed(s')
  {
  }

  lemma SupersedeKeepsPlaced(s: State, s': State, id: nat, key: string)
    requires Placed(s) && Filed(s) && id in s.local && At(s, Held(key)).Some?
    requires s'.arrivals == s.arrivals && s'.closers == s.closers && s'.q == s.q && s'.stages == s.stages
    requires s'.ended == Dropped(s, key).ended && s'.local == s.local - {id}
    requires s'.co.slots == s.co.slots[key := s.co.slots[key].(held := Some(PushOf(s.local[id])))]
    ensures Placed(s') && Filed(s')
  {
    // The newer push takes the place of the one held, which is over.
    hide Placed;
    var s1, was := Dropped(s, key), At(s, Held(key)).value;
    Elsewhere(s, Held(key));
    DroppedMoves(s, key);
    Moved(s, s1, Held(key), Over(was.id));
    HeldMoves(s1, s', id, key);
    Moved(s1, s', Carried(id), Held(key));
  }

  /** An offer that sends nothing at once was held. */
  lemma OfferHolds(s: State, push: Push, key: string)
    requires C.Out(s.co, C.Offer(key, push)) == []
    ensures var s' := AfterOffer(s, push, key);
      && key in s.co.slots
      && s'.arrivals == s.arrivals && s'.closers == s.closers && s'.q == s.q && s'.stages == s.stages
      && s'.local == s.local - {push.id}
      && s'.co.slots == s.co.slots[key := s.co.slots[key].(held := Some(push))]
      && s'.ended == match s.co.slots[key].held
                     case None => s.ended
                     case Some(was) => s.ended[was.id := End(was, Superseded)]
  {
  }

  lemma OfferKeepsPlaced(s: State, id: nat, push: Push, key: string)
    requires Placed(s) && Filed(s) && id in s.local && s.local[id] == Offering(push, key)
    ensures Placed(AfterOffer(s, push, key)) && Filed(AfterOffer(s, push, key))
  {
    var s' := AfterOffer(s, push, key);
    assert push.id == id;
    if C.Out(s.co, C.Offer(key, push)) != [] {
      LeadMoves(s, id, push, key);
      Still(s, s');
    } else {
      OfferHolds(s, push, key);
      hide Placed, Filed, MovesOne, AfterOffer, C.Next, C.Out;
      if s.co.slots[key].held.Some? {
        SupersedeKeepsPlaced(s, s', id, key);
      } else {
        HeldMoves(s, s', id, key);
        Moved(s, s', Carried(id), Held(key));
      }
    }
  }

  /** The newer push is in the slot, the one it held is over as superseded, and nothing else moved. */
  lemma OfferSupersedes(s: State, id: nat, push: Push, key: string)
    requires Placed(s) && Filed(s) && id in s.local && s.local[id] == Offering(push, key)
    requires At(s, Held(key)).Some? && !s.co.closed
    ensures var s', was := AfterOffer(s, push, key), At(s, Held(key)).value;
      && At(s', Held(key)) == Some(push) && At(s', Carried(id)) == None
      && was.id in s'.ended && s'.ended[was.id] == End(was, Superseded) && was.id !in s.ended
      && forall x :: x != Held(key) && x != Carried(id) && x != Over(was.id) ==> At(s', x) == At(s, x)
  {
    Elsewhere(s, Held(key));
    hide Placed;
  }

  lemma LeadMoves(s: State, id: nat, push: Push, key: string)
    requires Filed(s) && id in s.local && s.local[id] == Offering(push, key)
    requires C.Out(s.co, C.Offer(key, push)) != []
    ensures MovesNone(s, AfterOffer(s, push, key)) && Filed(AfterOffer(s, push, key))
  {
  }

  lemma ExpireMoves(s: State, t: C.TimerId, key: string)
    requires Filed(s) && C.Out(s.co, C.Expire(t, key)) != []
    requires s.co.slots[key].held.value.id !in s.local
    ensures var s', push := AfterExpire(s, t, key), s.co.slots[key].held.value;
      MovesOne(s, s', Held(key), Carried(push.id)) && Filed(s')
  {
  }

  lemma ExpireKeepsPlaced(s: State, t: C.TimerId, key: string)
    requires Placed(s) && Filed(s) && Enabled(s, Event.Expire(t, key))
    ensures Placed(AfterExpire(s, t, key)) && Filed(AfterExpire(s, t, key))
  {
    hide Placed;
    var s' := AfterExpire(s, t, key);
    if C.Out(s.co, C.Expire(t, key)) == [] {
      assert MovesNone(s, s');
      Still(s, s');
    } else {
      Elsewhere(s, Held(key));
      ExpireMoves(s, t, key);
      Moved(s, s', Held(key), Carried(s.co.slots[key].held.value.id));
    }
  }

  lemma EndMoves(s: State, s': State, id: nat, outcome: Outcome)
    requires Filed(s) && id in s.local && id !in s.ended
    requires s' == s.(local := s.local - {id}, ended := Ended(s.ended, PushOf(s.local[id]), outcome))
    ensures MovesOne(s, s', Carried(id), Over(id)) && Filed(s')
  {
  }

  lemma HandKeepsPlaced(s: State, id: nat, push: Push)
    requires Placed(s) && Filed(s) && id in s.local && s.local[id] == Handing(push)
    ensures Placed(AfterHand(s, push)) && Filed(AfterHand(s, push))
  {
    hide Placed;
    var s' := AfterHand(s, push);
    if push.registration.token in s.store.table {
      assert MovesNone(s, s');
      Still(s, s');
    } else {
      Elsewhere(s, Carried(id));
      EndMoves(s, s', id, RowGone);
      Moved(s, s', Carried(id), Over(id));
    }
  }

  lemma AddMoves(s: State, id: nat, job: Job)
    requires Filed(s) && id in s.local && s.local[id] == Submitting(job) && s.q.adding.None? && !s.q.closed
    ensures MovesOne(s, AfterSubmit(s, job), Carried(id), Adding) && Filed(AfterSubmit(s, job))
  {
  }

  lemma SubmitKeepsPlaced(s: State, id: nat, job: Job)
    requires Placed(s) && Filed(s) && id in s.local && s.local[id] == Submitting(job) && s.q.adding.None?
    ensures Placed(AfterSubmit(s, job)) && Filed(AfterSubmit(s, job))
  {
    hide Placed;
    if s.q.closed {
      Elsewhere(s, Carried(id));
      EndMoves(s, AfterSubmit(s, job), id, QueueClosed);
      Moved(s, AfterSubmit(s, job), Carried(id), Over(id));
    } else {
      AddMoves(s, id, job);
      Moved(s, AfterSubmit(s, job), Carried(id), Adding);
    }
  }

  lemma SettleMoves(s: State)
    requires Filed(s) && s.q.adding.Some? && s.q.adding.value.push.id !in s.ended
    ensures var to := if Q.HasRoom(s.q) then Queued(s.q.taken + |s.q.jobs|) else Over(s.q.adding.value.push.id);
      MovesOne(s, AfterSettle(s, s.q.adding.value), Adding, to) && Filed(AfterSettle(s, s.q.adding.value))
  {
  }

  lemma SettleKeepsPlaced(s: State)
    requires Placed(s) && Filed(s) && Enabled(s, Event.Settle)
    ensures Placed(AfterSettle(s, s.q.adding.value)) && Filed(AfterSettle(s, s.q.adding.value))
  {
    hide Placed;
    Elsewhere(s, Adding);
    SettleMoves(s);
    Moved(s, AfterSettle(s, s.q.adding.value), Adding,
          if Q.HasRoom(s.q) then Queued(s.q.taken + |s.q.jobs|) else Over(s.q.adding.value.push.id));
  }

  lemma TakeMoves(s: State, w: nat)
    requires w !in s.q.running && s.q.jobs != []
    ensures var s' := s.(q := Q.Next(s.q, Q.Take(w)), stages := s.stages[w := Limiting]);
      MovesOne(s, s', Queued(s.q.taken), Working(w))
  {
  }

  /** A worker decides about its push: it is over, or the worker goes on with it. */
  lemma WorkerKeepsPlaced(s: State, s': State, w: nat, stage: Stage, outcome: Outcome)
    requires Placed(s) && Filed(s) && w in s.q.running && w in s.stages && Undecided(s.stages[w])
    requires s'.arrivals == s.arrivals && s'.co == s.co && s'.local == s.local && s'.closers == s.closers
    requires s'.q == s.q && s'.stages == s.stages[w := stage]
    requires s'.ended == if Undecided(stage) then s.ended
                         else s.ended[JobOf(s, w).push.id := End(JobOf(s, w).push, outcome)]
    ensures Placed(s') && Filed(s')
  {
    hide Placed;
    var push := JobOf(s, w).push;
    Elsewhere(s, Working(w));
    if Undecided(stage) {
      assert MovesNone(s, s');
      Still(s, s');
    } else {
      assert MovesOne(s, s', Working(w), Over(push.id));
      Moved(s, s', Working(w), Over(push.id));
    }
  }

  /** Steps that touch nothing a push is in. */
  lemma NothingMoves(s: State, s': State)
    requires s'.arrivals == s.arrivals && s'.co.slots == s.co.slots && s'.local == s.local && s'.ended == s.ended
    requires s'.q.adding == s.q.adding && s'.q.jobs == s.q.jobs && s'.q.taken == s.q.taken
    requires s'.closers.Keys == s.closers.Keys
    requires forall c :: c in s.closers ==>
      s'.closers[c].out == s.closers[c].out && s'.closers[c].sent == s.closers[c].sent
    requires forall w :: At(s', Working(w)) == At(s, Working(w))
    ensures MovesNone(s, s')
    ensures Filed(s) ==> Filed(s')
  {
  }

  lemma SendMoves(s: State, c: nat)
    requires Filed(s) && c in s.closers && s.closers[c].sent < |s.closers[c].out|
    requires s.closers[c].out[s.closers[c].sent].id !in s.local
    ensures var s', i := AfterCloserSends(s, c, s.closers[c]), s.closers[c].sent;
      MovesOne(s, s', ToSend(c, i), Carried(s.closers[c].out[i].id)) && Filed(s')
  {
  }

  lemma CloserSendsKeepsPlaced(s: State, c: nat)
    requires Placed(s) && Filed(s) && Enabled(s, Event.CloserSends(c))
    ensures Placed(AfterCloserSends(s, c, s.closers[c])) && Filed(AfterCloserSends(s, c, s.closers[c]))
  {
    hide Placed;
    var i := s.closers[c].sent;
    assert At(s, ToSend(c, i)) == Some(s.closers[c].out[i]);
    Elsewhere(s, ToSend(c, i));
    SendMoves(s, c);
    Moved(s, AfterCloserSends(s, c, s.closers[c]), ToSend(c, i), Carried(s.closers[c].out[i].id));
  }

  // ------------------------------------------------------------------ a flush moves many at once

  /** A flush takes each held push once: its commits are under different keys, and miss none. */
  ghost predicate TakesEachOnce(co: C.State, order: seq<string>, out: seq<C.Commit>) {
    && (forall i :: 0 <= i < |out| ==>
          out[i].key in order && out[i].key in co.slots && co.slots[out[i].key].held == Some(out[i].push))
    && (forall i, j :: 0 <= i < j < |out| ==> out[i].key != out[j].key)
    && (forall k :: k in order && k in co.slots && co.slots[k].held.Some? ==> IsTaken(out, k))
  }

  ghost predicate IsTaken(out: seq<C.Commit>, key: string) {
    exists i :: 0 <= i < |out| && out[i].key == key
  }

  lemma {:induction false} FlushTakesEachOnce(co: C.State, order: seq<string>)
    requires forall i, j :: 0 <= i < j < |order| ==> order[i] != order[j]
    ensures TakesEachOnce(co, order, C.HeldInOrder(co, order))
  {
    if order != [] {
      var key, rest := order[0], order[1..];
      FlushTakesEachOnce(co, rest);
      var later := C.HeldInOrder(co, rest);
      assert key !in rest && order == [key] + rest;
      if key in co.slots && co.slots[key].held.Some? {
        OneMoreTaken(co, key, rest, later);
      }
    }
  }

  lemma OneMoreTaken(co: C.State, key: string, rest: seq<string>, later: seq<C.Commit>)
    requires key in co.slots && co.slots[key].held.Some? && key !in rest
    requires TakesEachOnce(co, rest, later)
    ensures TakesEachOnce(co, [key] + rest, [C.Commit(key, co.slots[key].held.value, co.clock)] + later)
  {
    var out := [C.Commit(key, co.slots[key].held.value, co.clock)] + later;
    forall i | 0 < i < |out| ensures out[i] == later[i - 1] && out[i].key in rest {
    }
    forall k | k in [key] + rest && k in co.slots && co.slots[k].held.Some? ensures IsTaken(out, k) {
      if k == key {
        assert out[0].key == k;
      } else {
        assert IsTaken(later, k);
        var i :| 0 <= i < |later| && later[i].key == k;
        assert out[i + 1].key == k;
      }
    }
  }

  /** Where a push was before the flush that is at `x` after it. */
  function Origin(c: nat, out: seq<C.Commit>, x: Place): Place {
    if x.ToSend? && x.closer == c && x.i < |out| then Held(out[x.i].key) else x
  }

  /** What a flush makes of the places: the slots are gone, and a closer has it all to send. */
  ghost predicate Flushed(s: State, s': State, c: nat, order: seq<string>, out: seq<C.Commit>) {
    && TakesEachOnce(s.co, order, out) && c !in s.closers && s'.co.slots == map[]
    && s' == s.(co := s'.co, closers := s.closers[c := Closer(Pushes(out), 0, false)])
  }

  lemma CameFrom(s: State, s': State, c: nat, order: seq<string>, out: seq<C.Commit>, x: Place)
    requires Flushed(s, s', c, order, out) && At(s', x).Some?
    ensures !x.Held? && At(s, Origin(c, out, x)) == At(s', x)
  {
    if x.ToSend? && x.closer == c {
      assert s'.closers[c].out[x.i] == out[x.i].push;
    }
  }

  lemma WentTo(s: State, s': State, c: nat, order: seq<string>, out: seq<C.Commit>, y: Place)
    requires Flushed(s, s', c, order, out) && At(s, y).Some? && !y.Held?
    ensures At(s', y) == At(s, y)
  {
  }

  lemma FlushMoves(s: State, s': State, c: nat, order: seq<string>, out: seq<C.Commit>)
    requires Flushed(s, s', c, order, out)
    ensures forall x :: At(s', x).Some? ==> !x.Held? && At(s, Origin(c, out, x)) == At(s', x)
    ensures forall y :: At(s, y).Some? && !y.Held? ==> At(s', y) == At(s, y)
    ensures forall i :: 0 <= i < |out| ==> At(s', ToSend(c, i)) == At(s, Held(out[i].key))
  {
    assert forall i :: 0 <= i < |out| ==> At(s', ToSend(c, i)) == At(s, Held(out[i].key));
    hide At, Flushed;
    forall x | At(s', x).Some? ensures !x.Held? && At(s, Origin(c, out, x)) == At(s', x) {
      CameFrom(s, s', c, order, out, x);
    }
    forall y | At(s, y).Some? && !y.Held? ensures At(s', y) == At(s, y) {
      WentTo(s, s', c, order, out, y);
    }
  }

  lemma OriginIsUnique(c: nat, out: seq<C.Commit>, x: Place, z: Place)
    requires forall i, j :: 0 <= i < j < |out| ==> out[i].key != out[j].key
    requires !x.Held? && !z.Held? && Origin(c, out, x) == Origin(c, out, z)
    ensures x == z
  {
  }

  ghost predicate WasHeld(s: State, push: Push) {
    exists key :: At(s, Held(key)) == Some(push)
  }

  ghost predicate IsToSend(s: State, c: nat, push: Push) {
    exists i :: At(s, ToSend(c, i)) == Some(push)
  }

  /** What the slots held, all of it and no more, is the closer's to send; nothing else moved. */
  ghost predicate HandsOver(s: State, s': State, c: nat) {
    && (forall key :: At(s', Held(key)) == None)
    && (forall key :: At(s, Held(key)).Some? ==> IsToSend(s', c, At(s, Held(key)).value))
    && (forall i :: At(s', ToSend(c, i)).Some? ==> WasHeld(s, At(s', ToSend(c, i)).value))
    && (forall x: Place :: !x.Held? && !(x.ToSend? && x.closer == c) ==> At(s', x) == At(s, x))
  }

  lemma FlushHandsOver(s: State, s': State, c: nat, order: seq<string>, out: seq<C.Commit>)
    requires Flushed(s, s', c, order, out)
    requires forall k :: At(s, Held(k)).Some? ==> k in order
    ensures HandsOver(s, s', c)
  {
    FlushMoves(s, s', c, order, out);
    assert forall i: nat :: At(s, ToSend(c, i)) == None;
    assert forall key :: At(s, Held(key)).Some? ==> key in s.co.slots && s.co.slots[key].held.Some?;
    assert TakesEachOnce(s.co, order, out);
    hide At, Flushed;
    forall x: Place | !x.Held? && !(x.ToSend? && x.closer == c) ensures At(s', x) == At(s, x) {
      assert Origin(c, out, x) == x;
    }
    forall key | At(s, Held(key)).Some? ensures IsToSend(s', c, At(s, Held(key)).value) {
      assert IsTaken(out, key);
      var i :| 0 <= i < |out| && out[i].key == key;
      assert At(s', ToSend(c, i)) == At(s, Held(key));
    }
    forall i: nat | At(s', ToSend(c, i)).Some? ensures WasHeld(s, At(s', ToSend(c, i)).value) {
      assert At(s, Origin(c, out, ToSend(c, i))) == At(s', ToSend(c, i));
      assert At(s, Held(out[i].key)) == At(s', ToSend(c, i));
    }
  }

  lemma FlushKeepsPlaced(s: State, c: nat, order: seq<string>)
    requires Placed(s) && s.coalesces && !s.co.closed && Enabled(s, Event.CloseBegin(c, order))
    ensures Placed(AfterCloseBegin(s, c, order)) && HandsOver(s, AfterCloseBegin(s, c, order), c)
  {
    var s', out := AfterCloseBegin(s, c, order), C.HeldInOrder(s.co, order);
    FlushTakesEachOnce(s.co, order);
    assert forall k :: At(s, Held(k)).Some? ==> k in order;
    hide AfterCloseBegin, C.HeldInOrder, C.Next, Pushes;
    FlushMoves(s, s', c, order, out);
    FlushHandsOver(s, s', c, order, out);
    RelocatedKeepsPlaced(s, s', c, order, out);
  }

  lemma RelocatedKeepsPlaced(s: State, s': State, c: nat, order: seq<string>, out: seq<C.Commit>)
    requires Placed(s) && s'.arrivals == s.arrivals && TakesEachOnce(s.co, order, out)
    requires forall k :: At(s, Held(k)).Some? ==> k in order && k in s.co.slots && s.co.slots[k].held.Some?
    requires forall x :: At(s', x).Some? ==> !x.Held? && At(s, Origin(c, out, x)) == At(s', x)
    requires forall y :: At(s, y).Some? && !y.Held? ==> At(s', y) == At(s, y)
    requires forall i :: 0 <= i < |out| ==> At(s', ToSend(c, i)) == At(s, Held(out[i].key))
    ensures Placed(s')
  {
    hide At;
    forall x, z | At(s', x).Some? && At(s', z).Some? && At(s', x).value.id == At(s', z).value.id
      ensures x == z
    {
      assert At(s, Origin(c, out, x)) == At(s', x) && At(s, Origin(c, out, z)) == At(s', z);
      OriginIsUnique(c, out, x, z);
    }
    forall id: nat | id < |s'.arrivals| ensures Somewhere(s', id) {
      assert Somewhere(s, id);
      var y :| IsThere(s, y, id);
      if y.Held? {
        assert IsTaken(out, y.key);
        var i :| 0 <= i < |out| && out[i].key == y.key;
        assert IsThere(s', ToSend(c, i), id);
      } else {
        assert IsThere(s', y, id);
      }
    }
  }

  lemma CloseBeginKeepsPlaced(s: State, c: nat, order: seq<string>)
    requires Placed(s) && Filed(s) && Enabled(s, Event.CloseBegin(c, order))
    ensures Placed(AfterCloseBegin(s, c, order)) && Filed(AfterCloseBegin(s, c, order))
  {
    hide Placed;
    if s.coalesces && !s.co.closed {
      FlushKeepsPlaced(s, c, order);
    } else {
      assert MovesNone(s, AfterCloseBegin(s, c, order));
      Still(s, AfterCloseBegin(s, c, order));
    }
  }

  // ------------------------------------------------------------------ every run

  lemma RestKeepsPlaced(s: State, e: Event)
    requires Placed(s) && Filed(s) && Enabled(s, e)
    requires e.Tick? || e.Fire? || e.Forget? || e.Done? || e.Change? || e.CloseQueue?
    ensures Placed(Next(s, e)) && Filed(Next(s, e))
  {
    hide Placed, Filed, MovesNone, S.Next, L.Next, C.Enabled, Q.Enabled;
    NothingMoves(s, Next(s, e));
    Still(s, Next(s, e));
  }

  lemma LimitKeepsPlaced(s: State, w: nat, now: Time, victim: L.Key)
    requires Placed(s) && Filed(s) && IsAt(s, w, Limiting)
    ensures var s' := AfterLimit(s, w, JobOf(s, w), now, victim); Placed(s') && Filed(s')
  {
    hide Placed, Filed, L.Next, L.Reply;
    var s' := AfterLimit(s, w, JobOf(s, w), now, victim);
    WorkerKeepsPlaced(s, s', w, s'.stages[w], RateLimited);
  }

  lemma CheckKeepsPlaced(s: State, w: nat, now: Time)
    requires Placed(s) && Filed(s) && IsAt(s, w, Checking)
    ensures var s' := AfterCheck(s, w, JobOf(s, w), now); Placed(s') && Filed(s')
  {
    hide Placed, Filed;
    var s' := AfterCheck(s, w, JobOf(s, w), now);
    WorkerKeepsPlaced(s, s', w, s'.stages[w], Outcome.Lapsed);
  }

  lemma AttemptKeepsPlaced(s: State, w: nat, result: Result)
    requires Placed(s) && Filed(s) && IsAt(s, w, Pushing)
    ensures var s' := AfterAttempt(s, w, JobOf(s, w), result); Placed(s') && Filed(s')
  {
    hide Placed, Filed;
    var s' := AfterAttempt(s, w, JobOf(s, w), result);
    WorkerKeepsPlaced(s, s', w, s'.stages[w], Attempted(result));
  }

  lemma PlacedStep(s: State, e: Event)
    requires Placed(s) && Filed(s) && Enabled(s, e)
    ensures Placed(Next(s, e)) && Filed(Next(s, e))
  {
    hide Placed, Filed, AfterEnter, AfterOffer, AfterExpire, AfterHand, AfterSubmit, AfterSettle,
      AfterLimit, AfterCheck, AfterAttempt, AfterCloseBegin, AfterCloserSends;
    match e
    case Enter(a, now) => EnterKeepsPlaced(s, a, now);
    case Offer(id) => OfferKeepsPlaced(s, id, s.local[id].push, s.local[id].key);
    case Expire(t, key) => ExpireKeepsPlaced(s, t, key);
    case Hand(id) => HandKeepsPlaced(s, id, s.local[id].push);
    case Submit(id) => SubmitKeepsPlaced(s, id, s.local[id].job);
    case Settle => SettleKeepsPlaced(s);
    case Take(w) => TakeKeepsPlaced(s, w);
    case Limit(w, now, victim) => LimitKeepsPlaced(s, w, now, victim);
    case Check(w, now) => CheckKeepsPlaced(s, w, now);
    case Attempt(w, result) => AttemptKeepsPlaced(s, w, result);
    case CloseBegin(c, order) => CloseBeginKeepsPlaced(s, c, order);
    case CloserSends(c) => CloserSendsKeepsPlaced(s, c);
    case _ => RestKeepsPlaced(s, e);
  }

  lemma TakeKeepsPlaced(s: State, w: nat)
    requires Placed(s) && Filed(s) && Enabled(s, Event.Take(w))
    ensures Placed(Next(s, Event.Take(w))) && Filed(Next(s, Event.Take(w)))
  {
    hide Placed;
    TakeMoves(s, w);
    Moved(s, Next(s, Event.Take(w)), Queued(s.q.taken), Working(w));
  }

  /** What a step is to the queue, if it is anything to it. */
  ghost function QueueEvent(s: State, e: Event): Option<Q.Event> {
    match e
    case Submit(id) =>
      if s.q.closed || id !in s.local || !s.local[id].Submitting? then None else Some(Q.Add(s.local[id].job))
    case Settle => Some(Q.Settle)
    case Take(w) => Some(Q.Take(w))
    case Done(w) => Some(Q.Done(w))
    case CloseQueue(_) => Some(Q.Close)
    case _ => None
  }

  /** Projecting a step onto the queue gives a step of the queue, or nothing. */
  lemma StepOfTheQueue(s: State, e: Event)
    requires Enabled(s, e)
    ensures match QueueEvent(s, e)
            case None => Next(s, e).q == s.q
            case Some(qe) => Q.Enabled(s.q, qe) && Next(s, e).q == Q.Next(s.q, qe)
  {
    hide Q.Next, L.Next, L.Reply, L.Evicts, C.Next, C.Out, C.Enabled, S.Next;
  }

  lemma CountedStep(s: State, e: Event)
    requires Q.Counted(s.q) && Enabled(s, e)
    ensures Q.Counted(Next(s, e).q)
  {
    StepOfTheQueue(s, e);
    hide Next, Enabled;
    match QueueEvent(s, e)
    case None =>
    case Some(qe) => Q.CountedStep(s.q, qe);
  }

  lemma {:induction false} WholeAlways(s: State, es: seq<Event>)
    requires Whole(s) && Possible(s, es)
    ensures Whole(Final(s, es))
    decreases |es|
  {
    hide Placed, Filed, Q.Counted, Next, Enabled;
    if es != [] {
      PlacedStep(s, es[0]);
      CountedStep(s, es[0]);
      WholeAlways(Next(s, es[0]), es[1..]);
    }
  }

  /**
   In every interleaving of pushes, timers, registrations, workers and shutdown, each push that
   entered is in exactly one place, and nothing else is anywhere.
   */
  lemma ExactlyOnePlace(window: Time, clock: Time, limits: S.Limits, es: seq<Event>)
    requires Possible(Init(window, clock, limits), es)
    ensures Placed(Final(Init(window, clock, limits), es))
  {
    var s := Init(window, clock, limits);
    assert forall p :: At(s, p).None?;
    WholeAlways(s, es);
  }
}
