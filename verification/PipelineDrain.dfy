/**
 Nothing is ever stuck and nothing goes round for ever: the relay can make only so many steps for
 each push, and can always make one until all that entered has come to its end.
 */
module PipelineDrain {
  import opened Types
  import opened Pipeline
  import opened PipelinePlaces
  import opened PipelineShutdown
  import PipelineComposition
  import C = Coalescer
  import L = Limiter
  import Q = DeliveryQueue
  import S = Store
  import opened Totals

  /** The relay's own steps: no push comes in, no row is changed by a handler, nobody closes. */
  predicate OwnStep(e: Event) {
    !e.Enter? && !e.Change? && !e.CloseBegin?
  }

  ghost predicate OwnSteps(es: seq<Event>) {
    forall i :: 0 <= i < |es| ==> OwnStep(es[i])
  }

  // ------------------------------------------------------------------ what every state keeps

  /** The workers running are those somewhere in a job. */
  ghost predicate Staffed(s: State) {
    s.q.running.Keys == s.stages.Keys
  }

  /** Nobody has sent more than there was, and whoever is done has sent it all. */
  ghost predicate ClosersInOrder(s: State) {
    forall c :: c in s.closers ==>
      && s.closers[c].sent <= |s.closers[c].out|
      && (s.closers[c].done ==> s.closers[c].sent == |s.closers[c].out|)
  }

  ghost predicate Ready(s: State) {
    Whole(s) && C.Paired(s.co) && Staffed(s) && ClosersInOrder(s) && 0 < s.q.crew && 0 < s.limits.capacity
  }

  lemma StaffedStep(s: State, e: Event)
    requires Staffed(s) && Enabled(s, e)
    ensures Staffed(Next(s, e))
  {
    hide L.Next, L.Reply, L.Evicts, C.Next, C.Out, C.Enabled, S.Next, Q.HasRoom;
  }

  lemma ClosersStep(s: State, e: Event)
    requires ClosersInOrder(s) && Enabled(s, e)
    ensures ClosersInOrder(Next(s, e))
  {
    if e.CloseBegin? || e.CloserSends? || e.CloseQueue? {
      hide C.Next, C.Out, C.Enabled, Q.Next, Free;
    } else {
      ClosersFollow(s, e);
      hide Next, Enabled;
    }
  }

  lemma CrewStays(s: State, e: Event)
    requires Q.Counted(s.q) && Enabled(s, e)
    ensures Next(s, e).q.crew == s.q.crew
  {
    StepOfTheQueue(s, e);
    hide Next, Enabled, Q.Next, Q.Counted;
    match QueueEvent(s, e)
    case None =>
    case Some(qe) => Q.CountedStep(s.q, qe);
  }

  lemma ReadyStep(s: State, e: Event)
    requires Ready(s) && Enabled(s, e)
    ensures Ready(Next(s, e))
  {
    hide Next, Enabled, Placed, Filed, Q.Counted, C.Paired, Staffed, ClosersInOrder;
    PlacedStep(s, e);
    PipelinePlaces.CountedStep(s, e);
    PipelineShutdown.PairedStep(s, e);
    StaffedStep(s, e);
    ClosersStep(s, e);
    CrewStays(s, e);
    PipelineComposition.StepOfTheLimiter(s, e);
  }

  lemma {:induction false} ReadyAlways(s: State, es: seq<Event>)
    requires Ready(s) && Possible(s, es)
    ensures Ready(Final(s, es))
    decreases |es|
  {
    hide Next, Enabled, Ready;
    if es != [] {
      ReadyStep(s, es[0]);
      ReadyAlways(Next(s, es[0]), es[1..]);
    }
  }

  // ------------------------------------------------------------------ effort

  /** What may still be to do for a push that is carried; an offer may yet be held. */
  function LocalWeight(l: Local): nat {
    match l
    case Offering(_, _) => 13
    case Handing(_) => 9
    case Submitting(_) => 8
  }

  /** For what a slot holds. */
  function SlotWeight(slot: C.Slot): nat {
    if slot.held.Some? then 12 else 0
  }

  function TimerWeight(timer: C.Timer): nat {
    if timer.fired then 1 else 2
  }

  /** For what is left to send, and for closing the queue. */
  function CloserWeight(closer: Closer): nat {
    (if closer.sent < |closer.out| then 10 * (|closer.out| - closer.sent) else 0) + if closer.done then 0 else 1
  }

  function StageWeight(stage: Stage): nat {
    match stage
    case Limiting => 5
    case Checking => 4
    case Pushing => 3
    case Deleting => 2
    case Finishing => 1
  }

  function QueueEffort(q: Q.State): nat {
    6 * |q.jobs| + if q.adding.Some? then 7 else 0
  }

  ghost function CoalescerEffort(co: C.State): nat {
    Total(co.slots, SlotWeight) + Total(co.timers, TimerWeight)
  }

  /** How many steps the relay can still make at most, if nothing more is asked of it. */
  ghost function Effort(s: State): nat {
    Total(s.local, LocalWeight) + CoalescerEffort(s.co) + Total(s.closers, CloserWeight)
    + QueueEffort(s.q) + Total(s.stages, StageWeight)
  }

  /** A step of the relay's own that is not just time going by. */
  predicate Works(e: Event) {
    OwnStep(e) && !e.Tick?
  }

  /** What has been asked of the relay: thirteen steps for each push, one for each closer. */
  ghost function Asked(s: State): nat {
    13 * |s.arrivals| + |s.closers.Keys|
  }

  // ------------------------------------------------------------------ the coalescer's part

  lemma OfferCosts(co: C.State, key: string, push: Push)
    ensures var e := C.Offer(key, push);
      CoalescerEffort(C.Next(co, e)) <= CoalescerEffort(co) + if C.Out(co, e) == [] then 12 else 2
  {
    if !co.closed {
      if key in co.slots {
        With(co.slots, SlotWeight, key, co.slots[key].(held := Some(push)));
      } else {
        With(co.slots, SlotWeight, key, C.Slot(None, co.next));
        With(co.timers, TimerWeight, co.next, C.Timer(key, co.clock + co.window, false));
      }
    }
    hide Total;
  }

  lemma FireCosts(co: C.State, t: C.TimerId)
    requires C.Enabled(co, C.Fire(t))
    ensures CoalescerEffort(C.Next(co, C.Fire(t))) + 1 == CoalescerEffort(co)
  {
    With(co.timers, TimerWeight, t, co.timers[t].(fired := true));
    hide Total;
  }

  lemma ExpireCosts(co: C.State, t: C.TimerId, key: string)
    requires C.Enabled(co, C.Expire(t, key))
    ensures var e := C.Expire(t, key);
      CoalescerEffort(C.Next(co, e)) + (if C.Out(co, e) == [] then 1 else 11) <= CoalescerEffort(co)
  {
    var timers := co.timers - {t};
    Without(co.timers, TimerWeight, t);
    if !co.closed && key in co.slots {
      Without(co.slots, SlotWeight, key);
      With(co.slots, SlotWeight, key, C.Slot(None, co.next));
      With(timers, TimerWeight, co.next, C.Timer(key, co.clock + co.window, false));
    }
    hide Total;
  }

  lemma FlushCosts(co: C.State, order: seq<string>)
    requires C.Enabled(co, C.Flush(order))
    ensures var e := C.Flush(order);
      CoalescerEffort(C.Next(co, e)) + 12 * |C.Out(co, e)| <= CoalescerEffort(co)
  {
    if !co.closed {
      HeldWeighs(co, order, co.slots);
      Part(C.Stopped(co.slots, co.timers), co.timers, TimerWeight);
    }
  }

  lemma {:induction false} HeldWeighs(co: C.State, order: seq<string>, slots: map<string, C.Slot>)
    requires forall i, j :: 0 <= i < j < |order| ==> order[i] != order[j]
    requires forall k :: k in order && k in co.slots ==> k in slots && slots[k] == co.slots[k]
    ensures 12 * |C.HeldInOrder(co, order)| <= Total(slots, SlotWeight)
  {
    if order != [] {
      Without(slots, SlotWeight, order[0]);
      HeldWeighs(co, order[1..], slots - {order[0]});
    }
  }

  // ------------------------------------------------------------------ each step is paid for

  /** What a step uses up, and what it asks for more, are no less than what it leaves to do. */
  ghost predicate Paid(s: State, e: Event) {
    Effort(Next(s, e)) + Asked(s) + (if Works(e) then 1 else 0) <= Effort(s) + Asked(Next(s, e))
  }

  lemma TakingUp(local: map<nat, Local>, id: nat, l: Local)
    ensures Total(local[id := l], LocalWeight) <= Total(local, LocalWeight) + 13
  {
    With(local, LocalWeight, id, l);
    assert LocalWeight(l) <= 13;
  }

  lemma EnterIsPaid(s: State, a: Arrival, now: Time)
    ensures Paid(s, Enter(a, now))
  {
    var s', id := AfterEnter(s, a, now), |s.arrivals|;
    var l := s'.local[id];
    assert Next(s, Enter(a, now)) == s' && s'.local == s.local[id := l] && |s'.arrivals| == id + 1;
    TakingUp(s.local, id, l);
    hide Next, IsCoalesced, Total, CoalescerEffort, QueueEffort;
  }

  lemma OfferIsPaid(s: State, id: nat)
    requires Filed(s) && Enabled(s, Offer(id))
    ensures Paid(s, Offer(id))
  {
    var push, key := s.local[id].push, s.local[id].key;
    assert Next(s, Offer(id)) == AfterOffer(s, push, key) && push.id == id;
    OfferCosts(s.co, key, push);
    With(s.local, LocalWeight, id, Handing(push));
    Without(s.local, LocalWeight, id);
    hide Next, Enabled, Total, CoalescerEffort, QueueEffort, C.Next, C.Out;
  }

  lemma ExpireIsPaid(s: State, t: C.TimerId, key: string)
    requires Enabled(s, Expire(t, key))
    ensures Paid(s, Expire(t, key))
  {
    ExpireCosts(s.co, t, key);
    var out := C.Out(s.co, C.Expire(t, key));
    assert Next(s, Expire(t, key)) == AfterExpire(s, t, key);
    if out != [] {
      With(s.local, LocalWeight, out[0].push.id, Handing(out[0].push));
    }
    hide Next, Enabled, Total, CoalescerEffort, QueueEffort, C.Next, C.Out;
  }

  /** A carried push is put down, or goes on as something for which there is less to do. */
  ghost predicate CarriedOn(local: map<nat, Local>, local': map<nat, Local>, id: nat) {
    && id in local
    && (local' == local - {id}
        || (id in local' && local' == local[id := local'[id]] && LocalWeight(local'[id]) < LocalWeight(local[id])))
  }

  lemma CarryingCosts(local: map<nat, Local>, local': map<nat, Local>, id: nat)
    requires CarriedOn(local, local', id)
    ensures Total(local', LocalWeight) < Total(local, LocalWeight)
  {
    Without(local, LocalWeight, id);
    assert LocalWeight(local[id]) > 0;
    if id in local' {
      With(local, LocalWeight, id, local'[id]);
    }
    hide Total;
  }

  lemma HandIsPaid(s: State, id: nat)
    requires Filed(s) && Enabled(s, Hand(id))
    ensures Paid(s, Hand(id))
  {
    var s' := AfterHand(s, s.local[id].push);
    assert Next(s, Hand(id)) == s' && s.local[id].push.id == id;
    assert CarriedOn(s.local, s'.local, id) && s' == s.(local := s'.local, ended := s'.ended);
    CarryingCosts(s.local, s'.local, id);
    hide Next, Enabled, AfterHand, CarriedOn, Total, CoalescerEffort, QueueEffort;
  }

  lemma SubmitIsPaid(s: State, id: nat)
    requires Filed(s) && Enabled(s, Submit(id))
    ensures Paid(s, Submit(id))
  {
    assert Next(s, Submit(id)) == AfterSubmit(s, s.local[id].job) && s.local[id].job.push.id == id;
    assert s.q.adding.None?;
    Without(s.local, LocalWeight, id);
    hide Next, Enabled, Total, CoalescerEffort;
  }

  lemma SettleIsPaid(s: State)
    requires Enabled(s, Settle)
    ensures Paid(s, Settle)
  {
    assert Next(s, Settle) == AfterSettle(s, s.q.adding.value);
    hide Next, Enabled, Total, CoalescerEffort, Ended;
  }

  lemma TakeIsPaid(s: State, w: nat)
    requires Enabled(s, Take(w))
    ensures Paid(s, Take(w))
  {
    With(s.stages, StageWeight, w, Limiting);
    assert Next(s, Take(w)) == s.(q := Q.Next(s.q, Q.Take(w)), stages := s.stages[w := Limiting]);
    assert QueueEffort(Q.Next(s.q, Q.Take(w))) == QueueEffort(s.q) - 6;
    hide Next, Enabled, Total, CoalescerEffort, QueueEffort, Q.Next;
  }

  predicate Further(a: Stage, b: Stage) {
    StageWeight(b) < StageWeight(a)
  }

  /** A worker's step takes its own job further, or ends it, and touches nobody's push or slot. */
  lemma WorkerMoves(s: State, e: Event)
    requires Enabled(s, e) && (e.Limit? || e.Check? || e.Attempt? || e.Forget? || e.Done?)
    ensures var s', w := Next(s, e), e.worker;
      && s'.co == s.co && s'.closers == s.closers && s'.local == s.local && s'.arrivals == s.arrivals
      && QueueEffort(s'.q) == QueueEffort(s.q) && w in s.stages
      && if e.Done? then s'.stages == s.stages - {w}
         else w in s'.stages && Further(s.stages[w], s'.stages[w]) && s'.stages == s.stages[w := s'.stages[w]]
  {
    hide L.Next, L.Reply, L.Evicts, L.CanFall, S.Next;
  }

  lemma WorkCosts(stages: map<nat, Stage>, w: nat, stage: Stage)
    requires w in stages
    ensures Total(stages - {w}, StageWeight) < Total(stages, StageWeight)
    ensures Further(stages[w], stage) ==> Total(stages[w := stage], StageWeight) < Total(stages, StageWeight)
  {
    Without(stages, StageWeight, w);
    With(stages, StageWeight, w, stage);
    hide Total;
  }

  lemma WorkerIsPaid(s: State, e: Event)
    requires Enabled(s, e) && (e.Limit? || e.Check? || e.Attempt? || e.Forget? || e.Done?)
    ensures Paid(s, e)
  {
    WorkerMoves(s, e);
    var s', w := Next(s, e), e.worker;
    WorkCosts(s.stages, w, if e.Done? then Finishing else s'.stages[w]);
    hide Next, Enabled, Total, CoalescerEffort, QueueEffort, Further, LocalWeight, CloserWeight, StageWeight;
  }

  /** What a closer takes on is no more than what its flush leaves the coalescer without, and the closing. */
  lemma TakingOver(s: State, co: C.State, c: nat, closer: Closer)
    requires c !in s.closers && CoalescerEffort(co) + 12 * |closer.out| <= CoalescerEffort(s.co)
    ensures var s' := s.(co := co, closers := s.closers[c := closer]);
      Effort(s') + Asked(s) <= Effort(s) + Asked(s')
  {
    With(s.closers, CloserWeight, c, closer);
    assert CloserWeight(closer) <= 1 + 12 * |closer.out|;
    assert s.closers[c := closer].Keys == s.closers.Keys + {c};
    hide Total, CoalescerEffort, QueueEffort, CloserWeight;
  }

  lemma CloseBeginIsPaid(s: State, c: nat, order: seq<string>)
    requires Enabled(s, CloseBegin(c, order))
    ensures Paid(s, CloseBegin(c, order))
  {
    var s' := AfterCloseBegin(s, c, order);
    assert Next(s, CloseBegin(c, order)) == s' == s.(co := s'.co, closers := s.closers[c := s'.closers[c]]);
    FlushCosts(s.co, order);
    assert CoalescerEffort(s'.co) + 12 * |s'.closers[c].out| <= CoalescerEffort(s.co);
    TakingOver(s, s'.co, c, s'.closers[c]);
    hide Next, Enabled, AfterCloseBegin, Effort, Asked, CoalescerEffort;
  }

  lemma CloserIsPaid(s: State, e: Event)
    requires Enabled(s, e) && (e.CloserSends? || e.CloseQueue?)
    ensures Paid(s, e)
  {
    var s', c := Next(s, e), e.closer;
    With(s.closers, CloserWeight, c, s'.closers[c]);
    assert s'.closers.Keys == s.closers.Keys;
    if e.CloserSends? {
      var push := s.closers[c].out[s.closers[c].sent];
      With(s.local, LocalWeight, push.id, Handing(push));
    }
    hide Total, CoalescerEffort, L.Next, L.Reply, C.Next, C.Out, C.Enabled, S.Next, Free;
  }

  lemma StepIsPaid(s: State, e: Event)
    requires Filed(s) && Enabled(s, e)
    ensures Paid(s, e)
  {
    hide Filed, Enabled, Next, Effort, Asked;
    match e
    case Enter(a, now) => EnterIsPaid(s, a, now);
    case Offer(id) => OfferIsPaid(s, id);
    case Fire(t) => FireIsPaid(s, t);
    case Expire(t, key) => ExpireIsPaid(s, t, key);
    case Hand(id) => HandIsPaid(s, id);
    case Submit(id) => SubmitIsPaid(s, id);
    case CloseBegin(c, order) => CloseBeginIsPaid(s, c, order);
    case Settle => SettleIsPaid(s);
    case Take(w) => TakeIsPaid(s, w);
    case Tick(elapsed) => OthersArePaid(s, e);
    case Change(op) => OthersArePaid(s, e);
    case _ =>
      if e.CloserSends? || e.CloseQueue? {
        CloserIsPaid(s, e);
      } else {
        WorkerIsPaid(s, e);
      }
  }

  lemma FireIsPaid(s: State, t: C.TimerId)
    requires Enabled(s, Fire(t))
    ensures Paid(s, Fire(t))
  {
    FireCosts(s.co, t);
    hide Total, CoalescerEffort, QueueEffort, L.Next, L.Reply, C.Next, C.Out, S.Next;
  }

  lemma OthersArePaid(s: State, e: Event)
    requires e.Tick? || e.Change?
    ensures Paid(s, e)
  {
    hide Total, S.Next;
  }

  ghost function StepsMade(es: seq<Event>): nat {
    if es == [] then 0 else (if Works(es[0]) then 1 else 0) + StepsMade(es[1..])
  }

  /**
   In every interleaving the relay makes at most thirteen steps for each push that enters and one
   for each caller of Close, waiting aside; what is left of that bounds what it can still make.
   */
  lemma {:induction false} StepsAreBounded(s: State, es: seq<Event>)
    requires Whole(s) && Possible(s, es)
    ensures StepsMade(es) + Effort(Final(s, es)) + Asked(s) <= Effort(s) + Asked(Final(s, es))
    decreases |es|
  {
    hide Placed, Filed, Q.Counted, Enabled, Next, Effort, Asked;
    if es != [] {
      StepIsPaid(s, es[0]);
      PlacedStep(s, es[0]);
      PipelinePlaces.CountedStep(s, es[0]);
      StepsAreBounded(Next(s, es[0]), es[1..]);
    }
  }

  // ------------------------------------------------------------------ what can still be done

  /** No push is carried, held, queued or with a worker; every window has run out, every closer is done. */
  ghost predicate AllOver(s: State) {
    && PipelineComposition.NobodyCarries(s) && s.co.timers == map[] && s.stages == map[]
    && (forall c :: c in s.closers ==> s.closers[c].done)
    && s.q.jobs == [] && s.q.adding.None?
  }

  lemma NoEffortLeft(s: State)
    ensures Effort(s) == 0 <==> AllOver(s)
  {
    NothingWeighs(s.local, LocalWeight);
    NothingWeighs(s.co.slots, SlotWeight);
    NothingWeighs(s.co.timers, TimerWeight);
    NothingWeighs(s.closers, CloserWeight);
    NothingWeighs(s.stages, StageWeight);
    hide Total;
  }

  /** After some wait or none, some step of the relay's own can be made. */
  ghost predicate CanGoOn(s: State) {
    exists wait, e :: 0.0 <= wait && Works(e) && Enabled(Next(s, Tick(wait)), e)
  }

  lemma {:induction false} Oldest(bs: L.Buckets) returns (victim: string)
    requires bs != map[]
    ensures victim in bs && forall k :: k in bs ==> bs[victim].last <= bs[k].last
    decreases |bs.Keys|
  {
    var k :| k in bs;
    var rest := bs - {k};
    if rest == map[] {
      victim := k;
      assert forall j :: j in bs && j != k ==> j in rest;
    } else {
      assert rest.Keys == bs.Keys - {k};
      var v := Oldest(rest);
      victim := if bs[v].last <= bs[k].last then v else k;
      assert forall j :: j in bs && j != k ==> j in rest && rest[j] == bs[j];
    }
  }

  lemma SomeVictim(bs: L.Buckets) returns (victim: string)
    ensures L.CanFall(bs, victim)
  {
    if bs == map[] {
      victim := "";
    } else {
      victim := Oldest(bs);
    }
  }

  /** The step a worker is ready to make, whatever stage it is at. */
  lemma WorkerStep(s: State, w: nat) returns (e: Event)
    requires Staffed(s) && w in s.q.running
    ensures Enabled(s, e) && Works(e)
  {
    match s.stages[w]
    case Limiting =>
      var victim := SomeVictim(L.ForgetFull(s.limits, s.buckets, 0.0));
      e := Limit(w, 0.0, victim);
    case Checking => e := Check(w, 0.0);
    case Pushing => e := Event.Attempt(w, Accepted);
    case Deleting => e := Forget(w, true);
    case Finishing => e := Done(w);
  }

  /** With no worker at work, what the queue or a carried push is ready for. */
  lemma HandlingStep(s: State) returns (e: Event)
    requires Ready(s) && s.q.running == map[]
    requires s.q.jobs != [] || s.q.adding.Some? || s.local != map[]
    ensures Enabled(s, e) && Works(e)
  {
    if s.q.jobs != [] {
      e := Take(0);
    } else if s.q.adding.Some? {
      e := Settle;
    } else {
      var id :| id in s.local;
      e := if s.local[id].Offering? then Offer(id) else if s.local[id].Handing? then Hand(id) else Submit(id);
    }
  }

  /** With nothing carried either, a closer not done is free to send or to close. */
  lemma CloserStep(s: State, c: nat) returns (e: Event)
    requires ClosersInOrder(s) && s.local == map[] && s.q.adding.None? && c in s.closers && !s.closers[c].done
    ensures Enabled(s, e) && Works(e)
  {
    e := if s.closers[c].sent < |s.closers[c].out| then CloserSends(c) else CloseQueue(c);
  }

  /** Once it is due a timer fires, and once fired its callback can run. */
  lemma TimerStep(s: State, t: C.TimerId) returns (wait: Time, e: Event)
    requires t in s.co.timers
    ensures 0.0 <= wait && Enabled(Next(s, Tick(wait)), e) && Works(e)
  {
    var timer := s.co.timers[t];
    wait := if timer.due <= s.co.clock then 0.0 else timer.due - s.co.clock;
    e := if timer.fired then Expire(t, timer.key) else Fire(t);
    Waited(s, wait);
    hide Next, C.Next;
  }

  lemma Waited(s: State, wait: Time)
    ensures Next(s, Tick(wait)).co == s.co.(clock := s.co.clock + wait)
    ensures wait == 0.0 ==> Next(s, Tick(wait)) == s
  {
  }

  /** Unless all is over, the relay can go on. */
  lemma Advance(s: State) returns (wait: Time, e: Event)
    requires Ready(s) && !AllOver(s)
    ensures 0.0 <= wait && Works(e) && Enabled(Next(s, Tick(wait)), e)
  {
    wait := 0.0;
    Waited(s, 0.0);
    assert s.q.running == map[] ==> s.stages == map[];
    hide Enabled, Next;
    if w :| w in s.q.running {
      e := WorkerStep(s, w);
    } else if s.q.jobs != [] || s.q.adding.Some? || s.local != map[] {
      assert s.q.running == map[];
      e := HandlingStep(s);
    } else if c :| c in s.closers && !s.closers[c].done {
      e := CloserStep(s, c);
    } else if t :| t in s.co.timers {
      wait, e := TimerStep(s, t);
    }
  }

  /** The relay can make no step more exactly when all is over, and exactly when no effort is left. */
  lemma StuckExactlyWhenOver(s: State)
    requires Ready(s)
    ensures CanGoOn(s) <==> Effort(s) > 0
    ensures CanGoOn(s) <==> !AllOver(s)
  {
    NoEffortLeft(s);
    hide Effort, AllOver, Enabled, Next;
    if CanGoOn(s) {
      var wait, e :| 0.0 <= wait && Works(e) && Enabled(Next(s, Tick(wait)), e);
      TakesEffort(s, wait, e);
    }
    if !AllOver(s) {
      var wait, e := Advance(s);
    }
  }

  lemma TakesEffort(s: State, wait: Time, e: Event)
    requires Ready(s) && 0.0 <= wait && Works(e) && Enabled(Next(s, Tick(wait)), e)
    ensures Possible(s, [Tick(wait), e])
    ensures Ready(Final(s, [Tick(wait), e])) && Final(s, [Tick(wait), e]).arrivals == s.arrivals
    ensures Effort(Final(s, [Tick(wait), e])) < Effort(s)
  {
    assert OwnStep(e);
    hide *;
    var s1 := Next(s, Tick(wait));
    var s2 := Next(s1, e);
    TickIsEnabled(s, wait);
    TakesOne(s, Tick(wait));
    TakesOne(s1, e);
    TwoSteps(s, Tick(wait), e);
  }

  lemma TakesOne(s: State, e: Event)
    requires Ready(s) && OwnStep(e) && Enabled(s, e)
    ensures Ready(Next(s, e)) && Next(s, e).arrivals == s.arrivals
    ensures Effort(Next(s, e)) + (if Works(e) then 1 else 0) <= Effort(s)
  {
    ReadyStep(s, e);
    StepIsPaid(s, e);
    NothingAsked(s, e);
    hide Next, Enabled, Effort, Asked;
  }

  lemma TickIsEnabled(s: State, wait: Time)
    requires 0.0 <= wait
    ensures Enabled(s, Tick(wait)) && OwnStep(Tick(wait)) && !Works(Tick(wait))
  {
  }

  lemma NothingAsked(s: State, e: Event)
    requires OwnStep(e) && Enabled(s, e)
    ensures Asked(Next(s, e)) == Asked(s) && Next(s, e).arrivals == s.arrivals
  {
    ClosersFollow(s, e);
    if e.CloserSends? || e.CloseQueue? {
      assert e.closer in s.closers;
      assert Next(s, e).closers.Keys == s.closers.Keys;
    }
    ArrivalsStay(s, e);
    hide Next, Enabled;
  }

  lemma ArrivalsStay(s: State, e: Event)
    requires OwnStep(e)
    ensures Next(s, e).arrivals == s.arrivals
  {
    hide L.Next, L.Reply, S.Next, C.Out, C.Next, Q.Next, Q.HasRoom;
  }

  lemma {:induction false} Drain(s: State) returns (es: seq<Event>)
    requires Ready(s)
    ensures OwnSteps(es) && Possible(s, es) && Final(s, es).arrivals == s.arrivals
    ensures Ready(Final(s, es)) && AllOver(Final(s, es))
    decreases Effort(s)
  {
    hide Ready, Effort, AllOver, Enabled, Next, Possible, Final;
    if AllOver(s) {
      es := [];
      Nowhere(s);
    } else {
      var wait, e := Advance(s);
      TakesEffort(s, wait, e);
      var lead := [Tick(wait), e];
      var rest := Drain(Final(s, lead));
      es := lead + rest;
      RunJoined(s, lead, rest);
    }
  }

  // ------------------------------------------------------------------ over whole runs

  lemma ReadyAtFirst(window: Time, clock: Time, limits: S.Limits)
    ensures Ready(Init(window, clock, limits)) && Effort(Init(window, clock, limits)) == 0
    ensures Asked(Init(window, clock, limits)) == 0
  {
    assert forall p :: At(Init(window, clock, limits), p).None?;
  }

  /**
   Every run, however the steps interleave: the relay's own steps, waiting aside, are at most
   thirteen for each push that entered and one for each caller of Close.
   */
  lemma OnlySoManySteps(window: Time, clock: Time, limits: S.Limits, es: seq<Event>)
    requires Possible(Init(window, clock, limits), es)
    ensures var s := Final(Init(window, clock, limits), es);
      StepsMade(es) + Effort(s) <= 13 * |s.arrivals| + |s.closers.Keys|
  {
    ReadyAtFirst(window, clock, limits);
    StepsAreBounded(Init(window, clock, limits), es);
    hide Effort, StepsMade, Possible, Final;
  }

  /** What has ended is exactly what entered, and the wait is free to return. */
  ghost predicate AllEnded(s: State) {
    s.q.outstanding == 0 && forall id: nat :: id in s.ended <==> id < |s.arrivals|
  }

  lemma OverMeansEnded(s: State)
    requires Ready(s) && AllOver(s)
    ensures AllEnded(s)
  {
    assert s.q.outstanding == 0;
    forall id: nat ensures id in s.ended <==> id < |s.arrivals| {
      PipelineComposition.EndedIffEntered(s, id);
    }
  }

  /**
   Every schedule ends what entered. From any state a run can reach, whatever own steps are made
   and in whatever order, there are only so many; and where no more can be made, however long one
   waits, every push that ever entered has come to its end.
   */
  lemma EveryScheduleEndsAll(window: Time, clock: Time, limits: S.Limits, es: seq<Event>, more: seq<Event>)
    requires Possible(Init(window, clock, limits), es)
    requires OwnSteps(more) && Possible(Final(Init(window, clock, limits), es), more)
    ensures var s := Final(Init(window, clock, limits), es);
      var t := Final(s, more);
      && StepsMade(more) + Effort(t) <= Effort(s) && t.arrivals == s.arrivals
      && (CanGoOn(t) <==> Effort(t) > 0)
      && (!CanGoOn(t) ==> AllOver(t) && AllEnded(t))
  {
    var s0 := Init(window, clock, limits);
    var s := Final(s0, es);
    ReadyAtFirst(window, clock, limits);
    ReadyAlways(s0, es);
    ReadyAlways(s, more);
    StepsAreBounded(s, more);
    NothingAskedAlong(s, more);
    var t := Final(s, more);
    StuckExactlyWhenOver(t);
    hide Effort, StepsMade, Possible, Final, CanGoOn, AllOver, AllEnded;
    if AllOver(t) {
      OverMeansEnded(t);
    }
  }

  lemma {:induction false} NothingAskedAlong(s: State, es: seq<Event>)
    requires OwnSteps(es) && Possible(s, es)
    ensures Asked(Final(s, es)) == Asked(s) && Final(s, es).arrivals == s.arrivals
    decreases |es|
  {
    hide Enabled, Next, Asked;
    if es != [] {
      assert OwnStep(es[0]);
      NothingAsked(s, es[0]);
      assert forall i :: 0 <= i < |es[1..]| ==> es[1..][i] == es[i + 1];
      NothingAskedAlong(Next(s, es[0]), es[1..]);
    }
  }

  /**
   From every state a run can reach, the relay's own steps can bring every push that has entered
   to its end, with no window open, no worker left at work and the wait free to return.
   */
  lemma EveryPushCanEnd(window: Time, clock: Time, limits: S.Limits, es: seq<Event>) returns (more: seq<Event>)
    requires Possible(Init(window, clock, limits), es)
    ensures var s := Final(Init(window, clock, limits), es);
      && OwnSteps(more) && Possible(s, more)
      && var t := Final(s, more);
         AllOver(t) && t.q.outstanding == 0 && forall id: nat :: id in t.ended <==> id < |s.arrivals|
  {
    var s0 := Init(window, clock, limits);
    ReadyAtFirst(window, clock, limits);
    ReadyAlways(s0, es);
    var s := Final(s0, es);
    more := Drain(s);
    OverMeansEnded(Final(s, more));
    hide Next, Enabled, Possible, Final, Ready, AllOver;
  }
}
