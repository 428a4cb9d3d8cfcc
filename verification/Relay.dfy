/**
 The relay as it is held: a coalescer, a queue, a limiter and a store, each behind its own lock,
 and the methods that pass pushes between them. A method here runs uninterrupted. Its contract
 is the steps it adds to a run of the pipeline, so whatever holds of every run holds of it.
 */
module Relay {
  import opened Types
  import opened Pipeline
  import opened RelayRuns
  import C = Coalescer
  import L = Limiter
  import Q = DeliveryQueue
  import S = Store
  import Lanes
  import Listing
  import SilentCoalescer
  import WorkerQueue
  import RateLimiter
  import RegistrationStore
  import StoreOperations
  import opened Text

  class Relay {
    const coalesces: bool
    const coalescer: SilentCoalescer.SilentCoalescer
    const timers: SilentCoalescer.Timers
    const deliveries: WorkerQueue.WorkerQueue
    const pushes: RateLimiter.RateLimiter
    const store: RegistrationStore.RegistrationStore
    var entered: nat

    ghost predicate CoalescerIs(co: C.State)
      reads coalescer, timers, coalescer.slots.Values
    {
      coalescer.Valid() && coalescer.after == timers && coalescer.View() == co
    }

    ghost predicate QueueIs(q: Q.State)
      reads deliveries
    {
      deliveries.Valid() && deliveries.View() == q
    }

    ghost predicate LimiterIs(limits: L.Limits, buckets: L.Buckets)
      reads pushes, pushes.buckets.Values
    {
      pushes.Valid() && pushes.limits == limits && pushes.View() == buckets
    }

    ghost predicate StoreIs(st: S.State)
      reads store
    {
      store.Valid() && store.View() == st
    }

    /** The parts are as a state of the pipeline has them. */
    ghost predicate Holds(s: State)
      reads this`entered, coalescer, timers, coalescer.slots.Values, deliveries, pushes, pushes.buckets.Values, store
    {
      && s.coalesces == coalesces && entered == |s.arrivals|
      && CoalescerIs(s.co) && QueueIs(s.q) && LimiterIs(s.limits, s.buckets) && StoreIs(s.store)
    }

    constructor (window: Time, clock: Time, limits: S.Limits, hash: string -> string)
      ensures Holds(Init(window, clock, limits))
      ensures fresh(coalescer) && fresh(timers) && fresh(deliveries) && fresh(pushes) && fresh(store)
      ensures coalescer.slots == map[] && pushes.buckets == map[] && (coalesces <==> 0.0 < window)
    {
      coalesces := window > 0.0;
      var after := new SilentCoalescer.Timers(clock);
      timers := after;
      coalescer := new SilentCoalescer.SilentCoalescer(window, after);
      deliveries := new WorkerQueue.WorkerQueue(WORKERS, QUEUE_DEPTH);
      pushes := new RateLimiter.RateLimiter(L.PUSH_LIMITS);
      store := new RegistrationStore.RegistrationStore(limits, hash, S.Missing);
      entered := 0;
    }

    /** Where a push that has its row is queued, if there is room and the queue is still open. */
    method Submit(job: Job, ghost s: State)
      requires Holds(s) && job.push.id in s.local && s.local[job.push.id] == Submitting(job)
      modifies deliveries
      ensures Possible(s, SubmitSteps(s, job.push.id)) && Holds(Final(s, SubmitSteps(s, job.push.id)))
    {
      SubmitRuns(s, job);
      PutOnQueue(job, s);
      hide *;
      QueuedHolds(s, Final(s, SubmitSteps(s, job.push.id)), job);
    }

    method PutOnQueue(job: Job, ghost s: State)
      requires Holds(s)
      modifies deliveries
      ensures Holds(s.(q := Q.Final(s.q, WorkerQueue.SubmitSteps(s.q.closed, job))))
    {
      hide CoalescerIs, LimiterIs, StoreIs, Q.Final, Q.Counted, WorkerQueue.SubmitSteps;
      var _ := deliveries.Submit(job);
    }

    lemma QueuedHolds(s: State, t: State, job: Job)
      requires Holds(s.(q := t.q)) && OnlyQueued(s, t, job.push.id)
      ensures Holds(t)
    {
      hide CoalescerIs, LimiterIs, QueueIs, StoreIs;
    }

    /** Nobody else holds the queue's lock while a method here runs. */
    lemma NothingIsBeingAdded(s: State)
      requires Holds(s)
      ensures s.q.adding.None? && s.coalesces == coalesces
    {
    }

    /** What the coalescer lets go of is sent for the row as it stands now, or not at all. */
    method SendHeld(push: Push, ghost s: State)
      requires Holds(s) && push.id in s.local && s.local[push.id] == Handing(push)
      modifies deliveries
      ensures Possible(s, HandSteps(s, push)) && Holds(Final(s, HandSteps(s, push)))
    {
      hide *;
      NothingIsBeingAdded(s);
      var row := RowFor(push.registration.token, s);
      HandBegins(s, push);
      HandRuns(s, push);
      ghost var s1 := Next(s, Hand(push.id));
      StillHolds(s, s1);
      if row.Some? {
        HeldJobIs(s, push);
        Submit(Job(push, row.value.(mode := Background)), s1);
      }
    }

    method RowFor(token: string, ghost s: State) returns (row: Option<Registration>)
      requires Holds(s)
      ensures row.Some? <==> token in s.store.table
      ensures row.Some? ==> row.value == s.store.table[token]
    {
      assert StoreIs(s.store);
      row := store.Get(token);
    }

    lemma StillHolds(s: State, t: State)
      requires Holds(s) && t == s.(local := t.local, ended := t.ended)
      ensures Holds(t)
    {
      hide CoalescerIs, LimiterIs, QueueIs, StoreIs;
    }

    /** In at one end: held, or sent on, or past the coalescer. */
    method EnqueueSilently(registration: Registration, payload: Payload, silent: bool, lane: string, now: Time,
                           ghost s: State)
      requires Holds(s)
      modifies this`entered, coalescer`slots, timers, coalescer.slots.Values, deliveries
      ensures fresh(coalescer.slots.Values - old(coalescer.slots.Values))
      ensures var es := EnterSteps(s, Arrival(registration, payload, silent, lane), now);
        Possible(s, es) && Holds(Final(s, es))
      ensures var es := EnterSteps(s, Arrival(registration, payload, silent, lane), now);
        && |es| > 1
        && (es[1].Offer? <==> coalesces && (silent || registration.mode == Background)
                              && (lane != "" || 120.0 <= now - registration.seenAt))
        && (es[1].Offer? || es[1].Submit?)
    {
      OfferedExactlyIf(s, Arrival(registration, payload, silent, lane), now);
      hide Possible, Final, EnterSteps, Holds, AfterEnter, Offered, Entered, OnlyQueued;
      ghost var a := Arrival(registration, payload, silent, lane);
      ghost var s1 := AfterEnter(s, a, now);
      NothingIsBeingAdded(s);
      EnterRuns(s, a, now);
      CarriedIn(s, a, now);
      var push := Begin(if silent then registration.(mode := Background) else registration, payload, a, now, s);
      if coalesces && push.registration.mode == Background
         && !(lane == Lanes.JMAP_LANE && now - registration.seenAt < FRESH_REGISTRATION) {
        Offer(Lanes.SlotKey(registration.token, lane), push, s1);
      } else {
        Submit(Job(push, push.registration), s1);
      }
    }

    /** Gives a push its number. */
    method Begin(registration: Registration, payload: Payload, ghost a: Arrival, ghost now: Time, ghost s: State)
      returns (push: Push)
      requires Holds(s) && payload == a.payload
      requires registration == if a.silent then a.registration.(mode := Background) else a.registration
      modifies this`entered
      ensures push == AsEntered(a, |s.arrivals|) && Holds(AfterEnter(s, a, now))
    {
      hide CoalescerIs, LimiterIs, StoreIs, QueueIs;
      push := Push(entered, registration, payload);
      entered := entered + 1;
    }

    method Offer(key: string, push: Push, ghost s: State)
      requires Holds(s) && push.id in s.local && s.local[push.id] == Offering(push, key)
      modifies coalescer`slots, timers, coalescer.slots.Values, deliveries
      ensures fresh(coalescer.slots.Values - old(coalescer.slots.Values))
      ensures Possible(s, OfferSteps(s, push, key)) && Holds(Final(s, OfferSteps(s, push, key)))
    {
      NothingIsBeingAdded(s);
      OfferBegins(s, push, key);
      OfferRuns(s, push, key);
      hide Holds, Possible, Final, OfferSteps, AfterOffer, C.Next, Next, Enabled;
      var send := OfferToSlot(key, push, s);
      assert |send| <= 1 && forall i :: 0 <= i < |send| ==> send[i].push == push;
      hide C.Out;
      if send != [] {
        SendHeld(send[0].push, AfterOffer(s, push, key));
      }
    }

    method OfferToSlot(key: string, push: Push, ghost s: State) returns (send: seq<C.Commit>)
      requires Holds(s) && push.id in s.local && s.local[push.id] == Offering(push, key)
      modifies coalescer`slots, timers, coalescer.slots.Values
      ensures fresh(coalescer.slots.Values - old(coalescer.slots.Values))
      ensures send == C.Out(s.co, C.Offer(key, push)) && Holds(AfterOffer(s, push, key))
    {
      hide LimiterIs, StoreIs, QueueIs, C.Next, C.Out;
      var _, out := coalescer.Offer(key, push);
      send := out;
      assert QueueIs(s.q) && StoreIs(s.store);
      assert LimiterIs(s.limits, s.buckets);
      assert CoalescerIs(C.Next(s.co, C.Offer(key, push)));
    }

    /** The callback of a window's timer. */
    method WindowEnds(t: C.TimerId, key: string, ghost s: State)
      requires Holds(s) && C.Enabled(s.co, C.Expire(t, key))
      modifies coalescer`slots, timers, coalescer.slots.Values, deliveries
      ensures coalescer.slots.Values <= old(coalescer.slots.Values)
      ensures Possible(s, ExpireSteps(s, t, key)) && Holds(Final(s, ExpireSteps(s, t, key)))
    {
      NothingIsBeingAdded(s);
      ExpireRuns(s, t, key);
      assert |C.Out(s.co, C.Expire(t, key))| <= 1;
      hide Holds, Possible, Final, ExpireSteps, C.Next, C.Enabled;
      var send := ExpireSlot(t, key, s);
      hide C.Out;
      if send != [] {
        SendHeld(send[0].push, AfterExpire(s, t, key));
      }
    }

    method ExpireSlot(t: C.TimerId, key: string, ghost s: State) returns (send: seq<C.Commit>)
      requires Holds(s) && C.Enabled(s.co, C.Expire(t, key))
      modifies coalescer`slots, timers, coalescer.slots.Values
      ensures coalescer.slots.Values <= old(coalescer.slots.Values)
      ensures send == C.Out(s.co, C.Expire(t, key)) && Holds(AfterExpire(s, t, key))
    {
      hide LimiterIs, StoreIs, QueueIs, C.Next, C.Out, C.Enabled;
      send := coalescer.Expire(t, key);
      assert QueueIs(s.q) && StoreIs(s.store);
      assert LimiterIs(s.limits, s.buckets);
      assert CoalescerIs(C.Next(s.co, C.Expire(t, key)));
    }

    /** A worker's turn: it takes the first job that waits, delivers it, and counts down. */
    method Work(w: nat, asked: Time, checked: Time, result: Result, diskTakes: bool, ghost s: State)
      returns (sent: Option<Attempt>, ghost victim: L.Key)
      requires Holds(s) && s.q.jobs != [] && Q.Enabled(s.q, Q.Take(w))
      modifies deliveries, pushes, pushes.buckets.Values, store
      ensures fresh(pushes.buckets.Values - old(pushes.buckets.Values))
      ensures var es := WorkSteps(s, w, asked, victim, checked, result, diskTakes);
        Possible(s, es) && Holds(Final(s, es))
      ensures sent == Sent(s, s.q.jobs[0], asked, victim, checked)
    {
      hide *;
      TakeBegins(s, w);
      ghost var s1 := Started(s, w);
      var job := TakeJob(w, s);
      sent, victim := Deliver(w, job, asked, checked, result, diskTakes, s1);
      ghost var t := Final(s1, DeliverSteps(s1, job, w, asked, victim, checked, result, diskTakes));
      WorkRuns(s, w, asked, victim, checked, result, diskTakes);
      FinishJob(w, t);
    }

    method TakeJob(w: nat, ghost s: State) returns (job: Job)
      requires Holds(s) && Q.Enabled(s.q, Q.Take(w))
      modifies deliveries
      ensures Holds(Started(s, w)) && job == s.q.jobs[0]
    {
      hide CoalescerIs, LimiterIs, StoreIs, Q.Counted;
      job := deliveries.Take(w);
    }

    method FinishJob(w: nat, ghost s: State)
      requires Holds(s) && w in s.q.running
      modifies deliveries
      ensures Holds(Stopped(s, w))
    {
      hide CoalescerIs, LimiterIs, StoreIs, Q.Counted;
      deliveries.Done(w);
    }

    /**
     One job, by the worker that took it. `result` is what Apple would answer; what was put to
     Apple, if anything was, is returned.
     */
    method Deliver(w: nat, job: Job, asked: Time, checked: Time, result: Result, diskTakes: bool, ghost s: State)
      returns (sent: Option<Attempt>, ghost victim: L.Key)
      requires Holds(s) && IsAt(s, w, Limiting) && JobOf(s, w) == job
      modifies pushes, pushes.buckets.Values, store
      ensures fresh(pushes.buckets.Values - old(pushes.buckets.Values))
      ensures var es := DeliverSteps(s, job, w, asked, victim, checked, result, diskTakes);
        Possible(s, es) && Holds(Final(s, es))
      ensures sent == Sent(s, job, asked, victim, checked)
      ensures Enabled(s, Limit(w, asked, victim))
      ensures sent.Some? ==>
        && (job.registration.expiresAt == 0.0 || checked < job.registration.expiresAt)
        && sent.value == Attempt.Attempt(job.push, job.registration, job.registration.mode == Background)
    {
      hide *;
      var allowed;
      allowed, victim := Ask(w, job, asked, s);
      sent := None;
      ghost var spent := Spent(s, job, asked, victim);
      SentIs(s, job, asked, victim, checked);
      AttemptedExactlyIf(s, job, asked, victim, checked);
      if allowed && !job.registration.Lapsed(checked) {
        sent := Some(AttemptOf(job));
      }
      if sent.Some? && result == Unregistered {
        Forget(job, diskTakes, spent);
      } else {
        KeepsStore(spent, job, diskTakes);
      }
      DeliveredHolds(s, w, asked, victim, checked, result, diskTakes);
    }

    /** With the limiter spent from and the row deleted if it is to be, the delivery is done. */
    lemma DeliveredHolds(s: State, w: nat, asked: Time, victim: L.Key, checked: Time, result: Result, diskTakes: bool)
      requires Enabled(s, Limit(w, asked, victim))
      requires var job := JobOf(s, w);
        var spent, tried := Spent(s, job, asked, victim), Sent(s, job, asked, victim, checked).Some?;
        Holds(spent.(store := StoreAfter(spent.store, job, tried && result == Unregistered, diskTakes)))
      ensures var es := DeliverSteps(s, JobOf(s, w), w, asked, victim, checked, result, diskTakes);
        Possible(s, es) && Holds(Final(s, es))
    {
      var job := JobOf(s, w);
      var spent, tried := Spent(s, job, asked, victim), Sent(s, job, asked, victim, checked).Some?;
      SentIs(s, job, asked, victim, checked);
      DeliverRuns(s, w, asked, victim, checked, result, diskTakes);
      assert spent.store == s.store;
      hide *;
      WorkedHolds(spent, Final(s, DeliverSteps(s, job, w, asked, victim, checked, result, diskTakes)), w,
                  tried, tried && result == Unregistered, job, diskTakes);
    }

    lemma KeepsStore(s: State, job: Job, diskTakes: bool)
      requires Holds(s)
      ensures Holds(s.(store := StoreAfter(s.store, job, false, diskTakes)))
    {
    }

    method Ask(w: nat, job: Job, now: Time, ghost s: State) returns (allowed: bool, ghost victim: L.Key)
      requires Holds(s) && IsAt(s, w, Limiting) && JobOf(s, w) == job
      modifies pushes, pushes.buckets.Values
      ensures fresh(pushes.buckets.Values - old(pushes.buckets.Values))
      ensures allowed == Allows(s, job, now, victim) && Enabled(s, Limit(w, now, victim))
      ensures Holds(Spent(s, job, now, victim))
    {
      hide CoalescerIs, StoreIs, QueueIs, L.Next, L.Reply, L.Evicts, L.CanFall, L.ForgetFull;
      var firstRefusal;
      allowed, firstRefusal, victim := pushes.Allow(job.registration.token, now);
    }

    method Forget(job: Job, diskTakes: bool, ghost s: State)
      requires Holds(s)
      modifies store
      ensures Holds(s.(store := StoreAfter(s.store, job, true, diskTakes)))
    {
      hide CoalescerIs, LimiterIs, QueueIs, S.Next;
      var _ := store.Delete(job.registration.token, diskTakes);
    }

    lemma WorkedHolds(s: State, t: State, w: nat, tried: bool, forget: bool, job: Job, diskTakes: bool)
      requires Worked(s, t, w, tried) && t.store == StoreAfter(s.store, job, forget, diskTakes)
      requires Holds(s.(store := StoreAfter(s.store, job, forget, diskTakes)))
      ensures Holds(t)
    {
      hide CoalescerIs, LimiterIs, QueueIs, StoreIs, StoreAfter;
    }

    /** Shutdown: what the slots hold is handed on, one after another, before the queue closes. */
    method Close(ghost c: nat, ghost s: State) returns (ghost order: seq<string>)
      requires Holds(s) && c !in s.closers
      modifies coalescer, timers`live, deliveries
      ensures C.Enabled(s.co, C.Flush(order))
      ensures Possible(s, CloseSteps(s, c, order)) && Holds(Final(s, CloseSteps(s, c, order)))
    {
      NothingIsBeingAdded(s);
      var send;
      send, order := TakeHeld(c, s);
      CloseBegins(s, c, order);
      ghost var out, s1 := TakenBy(s, order), AfterCloseBegin(s, c, order);
      ghost var m := s1;
      hide Holds, Possible, Final, AfterCloseBegin, AfterCloseQueue, CloseSteps, HandSteps, TakenBy, C.Enabled,
        Next, Enabled, Sending;
      assert SendSteps(s1, c, out[..0]) == [];
      Nowhere(s1);
      var i := 0;
      while i < |send|
        invariant 0 <= i <= |send|
        invariant Possible(s1, SendSteps(s1, c, out[..i])) && Final(s1, SendSteps(s1, c, out[..i])) == m
        invariant Holds(m) && Sending(s1, m, c, out, i)
      {
        SendsOneMore(s1, SendSteps(s1, c, out[..i]), m, c, out, i);
        SendStepsOneMore(s1, c, out, i);
        hide SendSteps;
        ghost var m1 := Next(m, CloserSends(c));
        SendingHolds(s1, m, c, out, i);
        SendHeld(send[i].push, m1);
        m := Final(m1, HandSteps(m1, out[i]));
        i := i + 1;
      }
      assert out[..i] == out;
      CloseEnds(s, c, order, m);
      Shut(c, m);
    }

    lemma SendingHolds(s: State, m: State, c: nat, out: seq<Push>, n: nat)
      requires Holds(m) && Sending(s, m, c, out, n) && n < |out|
      ensures var m1 := Next(m, CloserSends(c));
        Holds(m1) && out[n].id in m1.local && m1.local[out[n].id] == Handing(out[n])
    {
      SendBegins(s, m, c, out, n);
      hide Next, CoalescerIs, QueueIs, LimiterIs, StoreIs;
    }

    method TakeHeld(ghost c: nat, ghost s: State) returns (send: seq<C.Commit>, ghost order: seq<string>)
      requires Holds(s) && c !in s.closers
      modifies coalescer, timers`live
      ensures C.Enabled(s.co, C.Flush(order)) && Pushes(send) == TakenBy(s, order)
      ensures Holds(AfterCloseBegin(s, c, order))
    {
      hide LimiterIs, StoreIs, QueueIs, C.Next, C.Out;
      if coalesces {
        send, order := coalescer.Flush();
        assert QueueIs(s.q) && StoreIs(s.store);
        assert LimiterIs(s.limits, s.buckets);
        assert CoalescerIs(C.Next(s.co, C.Flush(order)));
      } else {
        send, order := [], SilentCoalescer.Listing(s.co.slots.Keys);
      }
    }

    method Shut(ghost c: nat, ghost s: State)
      requires Holds(s) && c in s.closers
      modifies deliveries
      ensures Holds(AfterCloseQueue(s, c, s.closers[c]))
    {
      hide CoalescerIs, LimiterIs, StoreIs, Q.Next, Q.Counted;
      deliveries.Close();
    }

    /** The Gmail fan-out: each row watching the address, in order of token, with its own tag. */
    method FanOutGmail(address: string, historyId: string, now: Time, ghost s: State)
      returns (ghost rows: seq<Registration>)
      requires Holds(s)
      modifies this`entered, coalescer`slots, timers, coalescer.slots.Values, deliveries
      ensures fresh(coalescer.slots.Values - old(coalescer.slots.Values))
      ensures Listing.Lists(rows, S.Watching(s.store.table, address))
      ensures var es := FanOutSteps(s, rows, address, historyId, now);
        && Possible(s, es) && Holds(Final(s, es))
        && Final(s, es).arrivals == s.arrivals + FanOut(rows, address, historyId)
      ensures forall i :: 0 <= i < |rows| ==> Told(FanOut(rows, address, historyId)[i], rows[i], address, historyId)
      ensures forall r: Registration :: r in rows <==>
        && Normalise(address) != "" && r.token in s.store.table && s.store.table[r.token] == r
        && StoreOperations.Names(r, Normalise(address))
    {
      hide *;
      var found := Watchers(address, s);
      rows := found;
      NoRows(s, address, historyId, now);
      assert found[..0] == [];
      ghost var m := s;
      var i := 0;
      while i < |found|
        invariant 0 <= i <= |found|
        invariant fresh(coalescer.slots.Values - old(coalescer.slots.Values))
        invariant var es := FanOutSteps(s, found[..i], address, historyId, now); Possible(s, es) && Final(s, es) == m
        invariant Holds(m) && m.arrivals == s.arrivals + FanOut(found[..i], address, historyId)
      {
        ghost var es := FanOutSteps(s, found[..i], address, historyId, now);
        NothingIsBeingAdded(m);
        FanOutOneMore(s, es, m, found, i, address, historyId, now);
        FanOutStepsOneMore(s, found, i, address, historyId, now);
        Tell(found[i], address, historyId, now, m);
        m := Final(m, EnterSteps(m, GmailArrival(found[i], address, historyId), now));
        i := i + 1;
      }
      assert found[..i] == found;
      EachIsTold(found, address, historyId);
    }

    method Watchers(address: string, ghost s: State) returns (found: seq<Registration>)
      requires Holds(s)
      ensures Listing.Lists(found, S.Watching(s.store.table, address))
      ensures forall r: Registration :: r in found <==>
        && Normalise(address) != "" && r.token in s.store.table && s.store.table[r.token] == r
        && StoreOperations.Names(r, Normalise(address))
    {
      assert StoreIs(s.store);
      found := store.ByGmail(address);
    }

    /** One device of the fan-out. */
    method Tell(registration: Registration, address: string, historyId: string, now: Time, ghost s: State)
      requires Holds(s)
      modifies this`entered, coalescer`slots, timers, coalescer.slots.Values, deliveries
      ensures fresh(coalescer.slots.Values - old(coalescer.slots.Values))
      ensures Holds(Final(s, EnterSteps(s, GmailArrival(registration, address, historyId), now)))
    {
      hide Holds, Possible, Final, EnterSteps;
      var tag := RegistrationStore.TagFor(registration.gmailAccounts, address);
      var payload := Gmail(historyId, if tag == "" then None else Some(tag));
      EnqueueSilently(registration, payload, true, Lanes.GmailLane(address), now, s);
    }
  }
}
