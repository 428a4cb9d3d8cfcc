/** What is put to Apple: once each, as silent as it arrived, and under its own token. */
module PipelineAttempts {
  import opened Types
  import opened Pipeline
  import opened PipelinePlaces
  import C = Coalescer
  import L = Limiter
  import Q = DeliveryQueue
  import S = Store
  import Listing

  // ------------------------------------------------------------------ what is over stays over

  datatype Ending = NoEnd | EndAt(place: Place, outcome: Outcome)

  /** Which push a step brings to an end, and to which. */
  function EndOf(s: State, e: Event): Ending {
    match e
    case Offer(id) =>
      if id in s.local && s.local[id].Offering? && At(s, Held(s.local[id].key)).Some? && !s.co.closed
      then EndAt(Held(s.local[id].key), Superseded) else NoEnd
    case Hand(id) =>
      if id in s.local && s.local[id].Handing? && s.local[id].push.registration.token !in s.store.table
      then EndAt(Carried(id), RowGone) else NoEnd
    case Submit(id) =>
      if id in s.local && s.local[id].Submitting? && s.q.closed then EndAt(Carried(id), QueueClosed) else NoEnd
    case Settle => if s.q.adding.Some? && !Q.HasRoom(s.q) then EndAt(Adding, QueueFull) else NoEnd
    case Limit(w, now, victim) =>
      if w in s.q.running && !L.Reply(s.limits, s.buckets, LimiterCall(JobOf(s, w), now, victim)).allowed
      then EndAt(Working(w), RateLimited) else NoEnd
    case Check(w, now) =>
      if w in s.q.running && JobOf(s, w).registration.Lapsed(now) then EndAt(Working(w), Outcome.Lapsed) else NoEnd
    case Attempt(w, result) => if w in s.q.running then EndAt(Working(w), Attempted(result)) else NoEnd
    case _ => NoEnd
  }

  ghost predicate EndsSo(s: State, s': State, end: Ending) {
    match end
    case NoEnd => s'.ended == s.ended
    case EndAt(p, outcome) =>
      At(s, p).Some? && !p.Over? && s'.ended == s.ended[At(s, p).value.id := End(At(s, p).value, outcome)]
  }

  lemma EndsByCarrier(s: State, e: Event)
    requires Enabled(s, e) && (e.Offer? || e.Hand? || e.Submit? || e.Settle?)
    ensures EndsSo(s, Next(s, e), EndOf(s, e))
  {
  }

  lemma EndsByWorker(s: State, e: Event)
    requires Enabled(s, e) && (e.Limit? || e.Check? || e.Attempt?)
    ensures EndsSo(s, Next(s, e), EndOf(s, e))
  {
    hide L.Next, L.Reply, L.Evicts;
  }

  lemma EndedIs(s: State, e: Event)
    requires Enabled(s, e)
    ensures EndsSo(s, Next(s, e), EndOf(s, e))
  {
    if e.Offer? || e.Hand? || e.Submit? || e.Settle? {
      EndsByCarrier(s, e);
    } else if e.Limit? || e.Check? || e.Attempt? {
      EndsByWorker(s, e);
    } else {
      hide L.Next, L.Evicts, S.Next, Q.Next, C.Next, C.Out, C.Enabled, Q.Enabled, At;
    }
  }

  /** An end is for good. */
  lemma EndedGrows(s: State, e: Event)
    requires Placed(s) && Filed(s) && Enabled(s, e)
    ensures forall id :: id in s.ended ==> id in Next(s, e).ended && Next(s, e).ended[id] == s.ended[id]
    ensures EndOf(s, e).EndAt? ==> At(s, EndOf(s, e).place).Some? && At(s, EndOf(s, e).place).value.id !in s.ended
  {
    EndedIs(s, e);
    hide Placed, Filed, Next, Enabled;
    if EndOf(s, e).EndAt? {
      Elsewhere(s, EndOf(s, e).place);
    }
  }

  // ------------------------------------------------------------------ modes and tokens

  /** A background push stays one whatever its row says; an alert goes as it arrived. */
  predicate Fits(job: Job) {
    && job.registration.token == job.push.registration.token
    && (if job.push.registration.mode == Background then job.registration.mode == Background
        else job.registration == job.push.registration)
  }

  predicate Silent(push: Push) {
    push.registration.mode == Background
  }

  predicate LocalFits(l: Local) {
    if l.Submitting? then Fits(l.job) else Silent(l.push)
  }

  ghost predicate LocalsFit(local: map<nat, Local>) {
    forall id :: id in local ==> LocalFits(local[id])
  }

  ghost predicate SlotsFit(slots: map<string, C.Slot>) {
    forall k :: k in slots && slots[k].held.Some? ==> Silent(slots[k].held.value)
  }

  ghost predicate ClosersFit(closers: map<nat, Closer>) {
    forall c, i :: c in closers && 0 <= i < |closers[c].out| ==> Silent(closers[c].out[i])
  }

  /** Only background pushes meet the coalescer, and every job fits its push. */
  ghost predicate AllFit(s: State) {
    && LocalsFit(s.local) && SlotsFit(s.co.slots) && ClosersFit(s.closers)
    && QueueFits(s.q) && Listing.Keyed(s.store.table)
  }

  ghost predicate QueueFits(q: Q.State) {
    && (q.adding.Some? ==> Fits(q.adding.value))
    && (forall i :: 0 <= i < |q.jobs| ==> Fits(q.jobs[i]))
    && (forall w :: w in q.running ==> Fits(q.running[w].job))
  }

  lemma KeyedStep(s: S.State, op: S.Event)
    requires Listing.Keyed(s.table) && !op.Reopen?
    ensures Listing.Keyed(S.Next(s, op).table)
  {
  }

  lemma SlotsStepFit(co: C.State, e: C.Event)
    requires SlotsFit(co.slots) && (e.Offer? ==> Silent(e.push)) && !e.Flush?
    ensures SlotsFit(C.Next(co, e).slots)
    ensures forall i :: 0 <= i < |C.Out(co, e)| ==> Silent(C.Out(co, e)[i].push)
  {
  }

  lemma LocalsPut(local: map<nat, Local>, id: nat, l: Local)
    requires LocalsFit(local) && LocalFits(l)
    ensures LocalsFit(local[id := l]) && LocalsFit(local - {id})
  {
  }

  lemma OfferShape(s: State, push: Push, key: string)
    ensures var s' := AfterOffer(s, push, key);
      && s'.co == C.Next(s.co, C.Offer(key, push))
      && (s'.local == s.local[push.id := Handing(push)] || s'.local == s.local - {push.id})
      && s'.q == s.q && s'.closers == s.closers && s'.store == s.store
  {
    hide C.Next, C.Out;
  }

  lemma OfferKeepsFit(s: State, push: Push, key: string)
    requires AllFit(s) && Silent(push)
    ensures AllFit(AfterOffer(s, push, key))
  {
    SlotsStepFit(s.co, C.Offer(key, push));
    LocalsPut(s.local, push.id, Handing(push));
    OfferShape(s, push, key);
    hide QueueFits, ClosersFit, SlotsFit, LocalsFit, Listing.Keyed, C.Next, C.Out, AfterOffer;
  }

  lemma ExpireKeepsFit(s: State, t: C.TimerId, key: string)
    requires AllFit(s)
    ensures AllFit(AfterExpire(s, t, key))
  {
    SlotsStepFit(s.co, C.Expire(t, key));
    hide QueueFits, ClosersFit, SlotsFit, Listing.Keyed, C.Next, C.Out;
  }

  lemma FlushKeepsFit(s: State, c: nat, order: seq<string>)
    requires AllFit(s) && C.Enabled(s.co, C.Flush(order))
    ensures AllFit(AfterCloseBegin(s, c, order))
  {
    hide QueueFits, LocalsFit, Listing.Keyed;
    FlushTakesEachOnce(s.co, order);
    var commits := C.HeldInOrder(s.co, order);
    assert forall i :: 0 <= i < |commits| ==> Silent(commits[i].push);
    hide C.HeldInOrder;
  }

  lemma EnterKeepsFit(s: State, a: Arrival, now: Time)
    requires AllFit(s)
    ensures AllFit(AfterEnter(s, a, now))
  {
    hide QueueFits, SlotsFit, ClosersFit, Listing.Keyed;
  }

  lemma HandKeepsFit(s: State, push: Push)
    requires AllFit(s) && Silent(push)
    ensures AllFit(AfterHand(s, push))
  {
    hide QueueFits, SlotsFit, ClosersFit, LocalsFit;
    var token := push.registration.token;
    if token in s.store.table {
      LocalsPut(s.local, push.id, Submitting(Job(push, s.store.table[token].(mode := Background))));
    } else {
      LocalsPut(s.local, push.id, Handing(push));
    }
  }

  lemma CloserSendsKeepsFit(s: State, c: nat)
    requires AllFit(s) && c in s.closers
    ensures AllFit(AfterCloserSends(s, c, s.closers[c]))
  {
    hide QueueFits, SlotsFit, Listing.Keyed;
  }

  lemma SubmitKeepsFit(s: State, job: Job)
    requires AllFit(s) && Fits(job)
    ensures AllFit(AfterSubmit(s, job))
  {
    hide SlotsFit, ClosersFit, Listing.Keyed;
  }

  lemma QueueStepFits(q: Q.State, e: Q.Event)
    requires QueueFits(q) && (e.Add? ==> Fits(e.job))
    ensures QueueFits(Q.Next(q, e))
  {
  }

  lemma QueueKeepsFit(s: State, e: Event)
    requires AllFit(s) && Enabled(s, e)
    requires e.Settle? || e.Take? || e.Done?
    ensures AllFit(Next(s, e))
  {
    QueueStepFits(s.q, if e.Settle? then Q.Settle else if e.Take? then Q.Take(e.worker) else Q.Done(e.worker));
    hide SlotsFit, LocalsFit, ClosersFit, QueueFits, Listing.Keyed, Q.Next;
  }

  lemma CloseQueueKeepsFit(s: State, c: nat)
    requires AllFit(s) && c in s.closers
    ensures AllFit(AfterCloseQueue(s, c, s.closers[c]))
  {
    QueueStepFits(s.q, Q.Close);
    hide SlotsFit, LocalsFit, QueueFits, Listing.Keyed;
  }

  lemma StoreKeepsFit(s: State, e: Event)
    requires AllFit(s) && Enabled(s, e)
    requires e.Forget? || e.Change?
    ensures AllFit(Next(s, e))
  {
    KeyedStep(s.store, if e.Forget? then S.Delete(JobOf(s, e.worker).registration.token, e.diskTakes) else e.op);
    hide SlotsFit, LocalsFit, ClosersFit, QueueFits, Listing.Keyed, S.Next;
  }

  lemma RestKeepsFit(s: State, e: Event)
    requires AllFit(s) && Enabled(s, e)
    requires e.Tick? || e.Fire? || e.Limit? || e.Check? || e.Attempt?
    ensures AllFit(Next(s, e))
  {
    hide S.Next, L.Next, L.Reply, L.Evicts, QueueFits, SlotsFit, LocalsFit, ClosersFit, Listing.Keyed;
  }

  lemma FitStep(s: State, e: Event)
    requires AllFit(s) && Enabled(s, e)
    ensures AllFit(Next(s, e))
  {
    hide AllFit, AfterEnter, AfterOffer, AfterExpire, AfterHand, AfterSubmit, AfterCloseBegin, AfterCloserSends,
      AfterCloseQueue;
    match e
    case Offer(id) =>
      assert Silent(s.local[id].push) by { OfferedAreSilent(s, id); }
      OfferKeepsFit(s, s.local[id].push, s.local[id].key);
    case Expire(t, key) => ExpireKeepsFit(s, t, key);
    case CloseBegin(c, order) => FlushKeepsFit(s, c, order);
    case Enter(a, now) => EnterKeepsFit(s, a, now);
    case Hand(id) =>
      assert Silent(s.local[id].push) by { OfferedAreSilent(s, id); }
      HandKeepsFit(s, s.local[id].push);
    case CloserSends(c) => CloserSendsKeepsFit(s, c);
    case Submit(id) =>
      assert Fits(s.local[id].job) by { SubmittedFit(s, id); }
      SubmitKeepsFit(s, s.local[id].job);
    case Settle => QueueKeepsFit(s, e);
    case Take(_) => QueueKeepsFit(s, e);
    case Done(_) => QueueKeepsFit(s, e);
    case CloseQueue(c) => CloseQueueKeepsFit(s, c);
    case Forget(_, _) => StoreKeepsFit(s, e);
    case Change(_) => StoreKeepsFit(s, e);
    case _ => RestKeepsFit(s, e);
  }

  lemma SubmittedFit(s: State, id: nat)
    requires AllFit(s) && id in s.local && s.local[id].Submitting?
    ensures Fits(s.local[id].job)
  {
  }

  lemma OfferedAreSilent(s: State, id: nat)
    requires AllFit(s) && id in s.local && !s.local[id].Submitting?
    ensures Silent(s.local[id].push)
  {
  }

  // ------------------------------------------------------------------ the log of attempts

  ghost predicate IsLogged(attempts: seq<Attempt>, id: nat) {
    exists i :: 0 <= i < |attempts| && attempts[i].push.id == id
  }

  /** Attempts and attempted ends are one to one, and each attempt is of a job that fits. */
  ghost predicate Logged(ended: map<nat, End>, attempts: seq<Attempt>) {
    && (forall i :: 0 <= i < |attempts| ==>
          && attempts[i].push.id in ended && ended[attempts[i].push.id].push == attempts[i].push
          && ended[attempts[i].push.id].outcome.Attempted?
          && Fits(Job(attempts[i].push, attempts[i].registration))
          && attempts[i].background == (attempts[i].registration.mode == Background))
    && (forall i, j :: 0 <= i < j < |attempts| ==> attempts[i].push.id != attempts[j].push.id)
    && (forall id :: id in ended && ended[id].outcome.Attempted? ==> IsLogged(attempts, id))
  }

  lemma LoggedAttempt(ended: map<nat, End>, attempts: seq<Attempt>, job: Job, result: Result)
    requires Logged(ended, attempts) && job.push.id !in ended && Fits(job)
    ensures Logged(ended[job.push.id := End(job.push, Attempted(result))],
                   attempts + [AttemptOf(job)])
  {
    var a := AttemptOf(job);
    forall id | id == job.push.id || IsLogged(attempts, id) ensures IsLogged(attempts + [a], id) {
      if id == job.push.id {
        assert (attempts + [a])[|attempts|].push.id == id;
      } else {
        var i :| 0 <= i < |attempts| && attempts[i].push.id == id;
        assert (attempts + [a])[i].push.id == id;
      }
    }
  }

  lemma LoggedOther(ended: map<nat, End>, attempts: seq<Attempt>, id: nat, end: End)
    requires Logged(ended, attempts) && id !in ended && !end.outcome.Attempted?
    ensures Logged(ended[id := end], attempts)
  {
  }

  lemma AttemptsAre(s: State, e: Event)
    requires Enabled(s, e)
    ensures if e.Attempt? then
              var job := JobOf(s, e.worker);
              Next(s, e).attempts == s.attempts + [AttemptOf(job)]
            else Next(s, e).attempts == s.attempts
  {
    hide L.Next, L.Reply, L.Evicts, S.Next, Q.Next, C.Next, C.Out, C.Enabled, Q.Enabled;
  }

  lemma LoggedStep(s: State, e: Event)
    requires Placed(s) && Filed(s) && AllFit(s) && Enabled(s, e)
    requires Logged(s.ended, s.attempts)
    ensures Logged(Next(s, e).ended, Next(s, e).attempts)
  {
    EndedGrows(s, e);
    EndedIs(s, e);
    AttemptsAre(s, e);
    if e.Attempt? {
      assert EndOf(s, e) == EndAt(Working(e.worker), Attempted(e.result));
      assert QueueFits(s.q);
      hide Placed, Filed, AllFit, Next, Logged;
      LoggedAttempt(s.ended, s.attempts, JobOf(s, e.worker), e.result);
    } else if EndOf(s, e).EndAt? {
      assert !EndOf(s, e).outcome.Attempted?;
      hide Placed, Filed, AllFit, Next, Logged, Enabled;
      var push := At(s, EndOf(s, e).place).value;
      LoggedOther(s.ended, s.attempts, push.id, End(push, EndOf(s, e).outcome));
    }
  }

  lemma {:induction false} AttemptsAlways(s: State, es: seq<Event>)
    requires Whole(s) && AllFit(s) && Logged(s.ended, s.attempts) && Possible(s, es)
    ensures var s' := Final(s, es); Whole(s') && AllFit(s') && Logged(s'.ended, s'.attempts)
    decreases |es|
  {
    hide Placed, Filed, AllFit, Logged, Next, Enabled, Q.Counted;
    if es != [] {
      PlacedStep(s, es[0]);
      CountedStep(s, es[0]);
      FitStep(s, es[0]);
      LoggedStep(s, es[0]);
      AttemptsAlways(Next(s, es[0]), es[1..]);
    }
  }

  /** What the log shows of one attempt, against the arrival it was made for. */
  ghost predicate AsItArrived(a: Attempt, from: Arrival) {
    && (a.background <==> from.silent || from.registration.mode == Background)
    && (!a.background ==> a.registration == from.registration)
    && a.registration.token == from.registration.token
    && a.push.payload == from.payload
  }

  lemma LoggedAsItArrived(s: State, i: nat)
    requires AllEntered(s) && Logged(s.ended, s.attempts) && i < |s.attempts|
    ensures s.attempts[i].push.id < |s.arrivals|
    ensures AsItArrived(s.attempts[i], s.arrivals[s.attempts[i].push.id])
  {
    assert At(s, Over(s.attempts[i].push.id)) == Some(s.attempts[i].push);
  }

  /**
   In every interleaving: no push is attempted twice; a push is attempted as background exactly
   if it arrived silent, as every Gmail push does, or from a background registration, whatever
   its row is or has become; an alert goes to the registration as it was when it arrived; and
   each goes under its own delivery token, with the payload it arrived with.
   */
  lemma AttemptedOnceAndAsSilentAsItArrived(window: Time, clock: Time, limits: S.Limits, es: seq<Event>)
    requires Possible(Init(window, clock, limits), es)
    ensures var s := Final(Init(window, clock, limits), es);
      && (forall i, j :: 0 <= i < j < |s.attempts| ==> s.attempts[i].push.id != s.attempts[j].push.id)
      && (forall i :: 0 <= i < |s.attempts| ==>
            && s.attempts[i].push.id < |s.arrivals|
            && AsItArrived(s.attempts[i], s.arrivals[s.attempts[i].push.id]))
  {
    var s0 := Init(window, clock, limits);
    assert forall p :: At(s0, p).None?;
    AttemptsAlways(s0, es);
    var s := Final(s0, es);
    hide Next, Enabled, AllFit, AllEntered, NoneTwice, NoneLost, AsItArrived, Filed, Q.Counted;
    forall i | 0 <= i < |s.attempts|
      ensures s.attempts[i].push.id < |s.arrivals|
      ensures AsItArrived(s.attempts[i], s.arrivals[s.attempts[i].push.id])
    {
      LoggedAsItArrived(s, i);
    }
  }
}
