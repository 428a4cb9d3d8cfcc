/** What a flush at shutdown promises the pushes that were held, and what a second Close costs. */
module PipelineShutdown {
  import opened Types
  import opened Pipeline
  import opened PipelinePlaces
  import opened PipelineAttempts
  import C = Coalescer
  import L = Limiter
  import Q = DeliveryQueue
  import S = Store
  import Lanes

  // ------------------------------------------------------------------ the coalescer's part

  /** What a step is to the coalescer, if it is anything to it. */
  function CoalescerEvent(s: State, e: Event): Option<C.Event> {
    match e
    case Offer(id) =>
      if id in s.local && s.local[id].Offering? then Some(C.Offer(s.local[id].key, s.local[id].push)) else None
    case Tick(elapsed) => Some(C.Tick(elapsed))
    case Fire(t) => Some(C.Fire(t))
    case Expire(t, key) => Some(C.Expire(t, key))
    case CloseBegin(_, order) => if s.coalesces then Some(C.Flush(order)) else None
    case _ => None
  }

  /** Projecting a step onto the coalescer gives a step of the coalescer, or nothing. */
  lemma StepOfTheCoalescer(s: State, e: Event)
    requires Enabled(s, e)
    ensures match CoalescerEvent(s, e)
            case None => Next(s, e).co == s.co
            case Some(ce) => C.Enabled(s.co, ce) && Next(s, e).co == C.Next(s.co, ce)
    ensures Next(s, e).coalesces == s.coalesces
  {
    hide L.Next, L.Reply, L.Evicts, S.Next, Q.Next, C.Next, C.Out;
  }

  lemma PairedStep(s: State, e: Event)
    requires C.Paired(s.co) && Enabled(s, e)
    ensures C.Paired(Next(s, e).co)
  {
    StepOfTheCoalescer(s, e);
    hide Next, Enabled, C.Next, C.Enabled, C.Paired;
    match CoalescerEvent(s, e)
    case None =>
    case Some(ce) => C.PairedStep(s.co, ce);
  }

  // ------------------------------------------------------------------ callers of Close

  ghost predicate Alone(s: State) {
    forall c, d :: c in s.closers && d in s.closers ==> c == d
  }

  /** No caller of Close other than this one has closed the queue. */
  ghost predicate NoOtherClosed(s: State, c: nat) {
    forall d :: d in s.closers && d != c ==> !s.closers[d].done
  }

  /** Only the first flush there is takes anything. */
  ghost predicate FlushedOnce(s: State) {
    && (forall d :: d in s.closers && s.closers[d].out != [] ==> s.co.closed)
    && (forall c, d :: c in s.closers && d in s.closers && s.closers[c].out != [] && s.closers[d].out != [] ==> c == d)
  }

  /** An end a flushed push may come to: run by a worker, refused as full, or its row had gone. */
  predicate Fair(outcome: Outcome) {
    outcome != QueueClosed && outcome != Superseded
  }

  /** What was begun is at rest by the next, and what has ended has ended fairly. */
  ghost predicate SentFairly(s: State, closer: Closer, i: nat)
    requires i < |closer.out|
  {
    && (closer.out[i].id in s.ended ==> Fair(s.ended[closer.out[i].id].outcome))
    && (i + 1 < closer.sent || closer.done ==> AtRest(s, closer.out[i].id))
  }

  ghost predicate Closing(s: State, closer: Closer) {
    && closer.sent <= |closer.out|
    && (s.q.closed <==> closer.done)
    && (closer.done ==> closer.sent == |closer.out|)
    && (closer.out != [] ==> s.co.closed)
    && (forall i :: 0 <= i < |closer.out| ==> closer.out[i].id < |s.arrivals|)
    && (forall i, j :: 0 <= i < j < |closer.out| ==> closer.out[i].id != closer.out[j].id)
    && (forall i :: 0 <= i < closer.sent ==> SentFairly(s, closer, i))
  }

  /** How far this caller of Close has come, while no other has closed the queue. */
  ghost predicate Orderly(s: State, c: nat) {
    FlushedOnce(s) && if c in s.closers then Closing(s, s.closers[c]) else !s.q.closed
  }

  /** A push at rest, and in no slot, is not carried again. */
  lemma RestStays(s: State, e: Event, id: nat)
    requires Enabled(s, e) && id < |s.arrivals| && AtRest(s, id) && s.co.slots == map[]
    requires e.CloserSends? ==> s.closers[e.closer].out[s.closers[e.closer].sent].id != id
    requires Filed(s)
    ensures AtRest(Next(s, e), id)
  {
    if e.Offer? || e.Hand? || e.Submit? || e.Settle? {
      CarrierLeavesTheRest(s, e, id);
    } else {
      hide L.Next, L.Reply, L.Evicts, S.Next, C.Enabled, Q.Enabled, C.Next;
    }
  }

  /** A push carried or being added goes on under its own number. */
  lemma CarrierLeavesTheRest(s: State, e: Event, id: nat)
    requires Filed(s) && Enabled(s, e) && AtRest(s, id)
    requires e.Offer? || e.Hand? || e.Submit? || e.Settle?
    ensures AtRest(Next(s, e), id)
  {
    hide C.Next, C.Out;
  }

  /** A push that ends while the flush is on, and was in no slot, ends fairly. */
  lemma EndsFairly(s: State, e: Event, id: nat)
    requires Placed(s) && Filed(s) && Enabled(s, e) && s.co.slots == map[]
    requires s.q.closed ==> id !in s.local
    requires id in s.ended ==> Fair(s.ended[id].outcome)
    ensures id in Next(s, e).ended ==> Fair(Next(s, e).ended[id].outcome)
  {
    EndedIs(s, e);
    if EndOf(s, e).EndAt? {
      UnfairEnds(s, e);
    }
    hide Placed, Filed, Next, Enabled, EndOf, At;
  }

  /** A push is superseded only in its slot, and finds the queue closed only on its way there. */
  lemma UnfairEnds(s: State, e: Event)
    requires Filed(s) && Enabled(s, e) && EndOf(s, e).EndAt?
    ensures EndOf(s, e).outcome == Superseded ==> s.co.slots != map[]
    ensures EndOf(s, e).outcome == QueueClosed ==> s.q.closed && At(s, EndOf(s, e).place).Some?
                                                   && At(s, EndOf(s, e).place).value.id in s.local
  {
    hide L.Reply, L.Evicts, C.Enabled;
  }

  /** Arrivals grow, the coalescer stays closed, and only a closer closes the queue. */
  lemma FlagsFollow(s: State, e: Event)
    requires Enabled(s, e)
    ensures |s.arrivals| <= |Next(s, e).arrivals|
    ensures s.co.closed ==> Next(s, e).co.closed
    ensures Next(s, e).q.closed <==> s.q.closed || e.CloseQueue?
  {
    ArrivalsGrow(s, e);
    StepOfTheCoalescer(s, e);
    StepOfTheQueue(s, e);
    hide Next, Enabled;
  }

  lemma ArrivalsGrow(s: State, e: Event)
    ensures |s.arrivals| <= |Next(s, e).arrivals|
  {
    hide L.Next, L.Reply, S.Next, C.Out, C.Next, Q.Next, Q.HasRoom, Pushes;
  }

  /** How a step changes the closers. */
  lemma ClosersFollow(s: State, e: Event)
    requires Enabled(s, e)
    ensures var s' := Next(s, e);
      if e.CloseBegin? then
        e.closer in s'.closers && e.closer !in s.closers && s'.closers == s.closers[e.closer := s'.closers[e.closer]]
      else if e.CloserSends? then
        s'.closers == s.closers[e.closer := s.closers[e.closer].(sent := s.closers[e.closer].sent + 1)]
      else if e.CloseQueue? then s'.closers == s.closers[e.closer := s.closers[e.closer].(done := true)]
      else s'.closers == s.closers
  {
    hide L.Next, L.Reply, L.Evicts, S.Next, C.Out, C.Enabled, C.Next, Q.Enabled, Q.Next, Q.HasRoom, Pushes, AtRest;
  }

  /** A step that is not this closer's leaves its closing as it was. */
  lemma ClosingStep(s: State, e: Event, c: nat)
    requires Placed(s) && Filed(s) && C.Paired(s.co) && Enabled(s, e)
    requires c in s.closers && Closing(s, s.closers[c])
    requires !e.CloseQueue? && (e.CloseBegin? || e.CloserSends? ==> e.closer != c)
    requires e.CloserSends? ==> s.closers[c].out == []
    ensures c in Next(s, e).closers && Closing(Next(s, e), Next(s, e).closers[c])
  {
    FlagsFollow(s, e);
    ClosersFollow(s, e);
    var s', closer := Next(s, e), s.closers[c];
    hide Placed, Next, Enabled;
    forall i | 0 <= i < closer.sent ensures SentFairly(s', closer, i) {
      var id := closer.out[i].id;
      assert SentFairly(s, closer, i);
      EndsFairly(s, e, id);
      if AtRest(s, id) {
        RestStays(s, e, id);
      }
    }
  }

  lemma SendingStep(s: State, c: nat)
    requires Placed(s) && Filed(s) && C.Paired(s.co) && Enabled(s, CloserSends(c))
    requires Closing(s, s.closers[c])
    ensures var s' := Next(s, CloserSends(c)); c in s'.closers && Closing(s', s'.closers[c])
  {
    var e := CloserSends(c);
    FlagsFollow(s, e);
    ClosersFollow(s, e);
    var s', closer := Next(s, e), s.closers[c];
    var closer' := s'.closers[c];
    assert At(s, ToSend(c, closer.sent)) == Some(closer.out[closer.sent]);
    Elsewhere(s, ToSend(c, closer.sent));
    assert s'.ended == s.ended;
    assert closer.sent > 0 ==> AtRest(s, closer.out[closer.sent - 1].id);
    hide Placed, Next;
    forall i | 0 <= i < closer'.sent ensures SentFairly(s', closer', i) {
      if i < closer.sent {
        assert SentFairly(s, closer, i);
        RestStays(s, e, closer.out[i].id);
      }
    }
  }

  lemma ClosedStep(s: State, c: nat)
    requires Filed(s) && C.Paired(s.co) && Enabled(s, CloseQueue(c))
    requires Closing(s, s.closers[c])
    ensures var s' := Next(s, CloseQueue(c)); c in s'.closers && Closing(s', s'.closers[c])
  {
    var e := CloseQueue(c);
    FlagsFollow(s, e);
    ClosersFollow(s, e);
    var s', closer := Next(s, e), s.closers[c];
    var closer' := s'.closers[c];
    assert closer.sent > 0 ==> AtRest(s, closer.out[closer.sent - 1].id);
    assert s'.ended == s.ended && s'.local == s.local && s'.q.adding == s.q.adding;
    hide Next, Enabled;
    forall i | 0 <= i < closer'.sent ensures SentFairly(s', closer', i) {
      assert SentFairly(s, closer, i);
    }
  }

  /** What a flush takes are different pushes, all of which entered. */
  lemma FlushedAreDistinct(s: State, order: seq<string>, out: seq<C.Commit>)
    requires Placed(s) && TakesEachOnce(s.co, order, out)
    ensures forall i :: 0 <= i < |out| ==> out[i].push.id < |s.arrivals|
    ensures forall i, j :: 0 <= i < j < |out| ==> out[i].push.id != out[j].push.id
  {
    assert forall i :: 0 <= i < |out| ==> At(s, Held(out[i].key)) == Some(out[i].push);
    hide At;
    forall i, j | 0 <= i < j < |out| ensures out[i].push.id != out[j].push.id {
      assert At(s, Held(out[i].key)) == Some(out[i].push) && At(s, Held(out[j].key)) == Some(out[j].push);
      assert Held(out[i].key) != Held(out[j].key);
    }
  }

  lemma FlushIsFair(s: State, c: nat, order: seq<string>)
    requires Placed(s) && Enabled(s, CloseBegin(c, order)) && !s.q.closed
    ensures var s' := AfterCloseBegin(s, c, order); Closing(s', s'.closers[c])
  {
    hide Placed;
    if s.coalesces && !s.co.closed {
      FlushTakesEachOnce(s.co, order);
      FlushedAreDistinct(s, order, C.HeldInOrder(s.co, order));
    }
    hide TakesEachOnce, C.HeldInOrder;
  }

  lemma FlushTakesNothingTwice(s: State, c: nat, order: seq<string>)
    requires s.co.closed
    ensures AfterCloseBegin(s, c, order).closers[c].out == []
  {
  }

  lemma FlushCloses(s: State, c: nat, order: seq<string>)
    ensures AfterCloseBegin(s, c, order).closers[c].out != [] ==> AfterCloseBegin(s, c, order).co.closed
  {
    hide C.HeldInOrder;
  }

  lemma FlushedOnceStep(s: State, e: Event)
    requires Enabled(s, e) && FlushedOnce(s)
    ensures FlushedOnce(Next(s, e))
  {
    FlagsFollow(s, e);
    ClosersFollow(s, e);
    if e.CloseBegin? {
      assert Next(s, e) == AfterCloseBegin(s, e.closer, e.order);
      FlushCloses(s, e.closer, e.order);
      if s.co.closed {
        FlushTakesNothingTwice(s, e.closer, e.order);
      }
    }
    hide Next, Enabled, AfterCloseBegin;
  }

  lemma OrderlyStep(s: State, e: Event, c: nat)
    requires Placed(s) && Filed(s) && C.Paired(s.co) && Enabled(s, e)
    requires Orderly(s, c) && NoOtherClosed(Next(s, e), c)
    ensures Orderly(Next(s, e), c)
  {
    FlushedOnceStep(s, e);
    FlagsFollow(s, e);
    ClosersFollow(s, e);
    if e.CloseQueue? {
      assert e.closer in Next(s, e).closers && Next(s, e).closers[e.closer].done;
    }
    assert e.CloserSends? ==> e.closer in s.closers && s.closers[e.closer].out != [];
    hide Placed, Filed, Closing, Next, Enabled, C.Paired;
    if e.CloseBegin? && e.closer == c {
      FlushIsFair(s, c, e.order);
      assert Next(s, e) == AfterCloseBegin(s, c, e.order) by { BeginIs(s, c, e.order); }
    } else if e.CloserSends? && e.closer == c {
      SendingStep(s, c);
    } else if e.CloseQueue? {
      ClosedStep(s, c);
    } else if c in s.closers {
      ClosingStep(s, e, c);
    }
  }

  lemma BeginIs(s: State, c: nat, order: seq<string>)
    ensures Next(s, CloseBegin(c, order)) == AfterCloseBegin(s, c, order)
  {
  }

  lemma ClosersStay(s: State, e: Event)
    requires Enabled(s, e)
    ensures forall d :: d in s.closers ==>
      d in Next(s, e).closers && (s.closers[d].done ==> Next(s, e).closers[d].done)
  {
    ClosersFollow(s, e);
    hide Next, Enabled;
  }

  lemma {:induction false} NoOtherClosedBefore(s: State, es: seq<Event>, c: nat)
    requires Possible(s, es) && NoOtherClosed(Final(s, es), c)
    ensures NoOtherClosed(s, c)
    decreases |es|
  {
    if es != [] {
      ClosersStay(s, es[0]);
      hide Next, Enabled;
      NoOtherClosedBefore(Next(s, es[0]), es[1..], c);
    }
  }

  lemma {:induction false} OrderlyAlways(s: State, es: seq<Event>, c: nat)
    requires Whole(s) && C.Paired(s.co) && Orderly(s, c) && Possible(s, es) && NoOtherClosed(Final(s, es), c)
    ensures var s' := Final(s, es); Whole(s') && C.Paired(s'.co) && Orderly(s', c)
    decreases |es|
  {
    hide Placed, Filed, Orderly, NoOtherClosed, Next, Enabled, Q.Counted, C.Paired;
    if es != [] {
      NoOtherClosedBefore(Next(s, es[0]), es[1..], c);
      PlacedStep(s, es[0]);
      PipelinePlaces.CountedStep(s, es[0]);
      PairedStep(s, es[0]);
      OrderlyStep(s, es[0], c);
      OrderlyAlways(Next(s, es[0]), es[1..], c);
    }
  }

  /** Once the wait can return, all there was to send is over. */
  lemma AllOver(s: State, c: nat, i: nat)
    requires Whole(s) && C.Paired(s.co) && Orderly(s, c)
    requires c in s.closers && s.closers[c].done && s.q.outstanding == 0 && i < |s.closers[c].out|
    ensures s.closers[c].out[i].id in s.ended && Fair(s.ended[s.closers[c].out[i].id].outcome)
  {
    var closer := s.closers[c];
    var id := closer.out[i].id;
    assert Closing(s, closer) && SentFairly(s, closer, i);
    assert s.q.jobs == [] && s.q.running == map[] && s.co.slots == map[];
    assert Somewhere(s, id);
    var p :| IsThere(s, p, id);
    assert forall d, j :: d in s.closers ==> At(s, ToSend(d, j)) == None;
    assert p.Over?;
  }

  /**
   In every interleaving, for any caller of Close, while no other caller has closed the queue: it
   closes only once all this caller's flush took from the slots has been handed on; none of that
   ends superseded or at a closed queue; and once it has closed and the wait returns, each has been
   run by a worker, refused as full, or found its row gone.
   */
  lemma HeldAtShutdownIsNotLost(window: Time, clock: Time, limits: S.Limits, es: seq<Event>, c: nat)
    requires Possible(Init(window, clock, limits), es)
    requires NoOtherClosed(Final(Init(window, clock, limits), es), c)
    requires c in Final(Init(window, clock, limits), es).closers
    ensures var s := Final(Init(window, clock, limits), es);
      var closer := s.closers[c];
      && (s.q.closed ==> closer.sent == |closer.out|
                         && forall i :: 0 <= i < |closer.out| ==> AtRest(s, closer.out[i].id))
      && (forall i :: 0 <= i < |closer.out| && closer.out[i].id in s.ended ==>
            Fair(s.ended[closer.out[i].id].outcome))
      && (closer.done && s.q.outstanding == 0 ==>
            forall i :: 0 <= i < |closer.out| ==>
              closer.out[i].id in s.ended && Fair(s.ended[closer.out[i].id].outcome))
  {
    var s0 := Init(window, clock, limits);
    assert forall p :: At(s0, p).None?;
    OrderlyAlways(s0, es, c);
    HeldIsNotLost(Final(s0, es), c);
  }

  lemma HeldIsNotLost(s: State, c: nat)
    requires Whole(s) && C.Paired(s.co) && Orderly(s, c) && c in s.closers
    ensures var closer := s.closers[c];
      && (s.q.closed ==> closer.sent == |closer.out|
                         && forall i :: 0 <= i < |closer.out| ==> AtRest(s, closer.out[i].id))
      && (forall i :: 0 <= i < |closer.out| && closer.out[i].id in s.ended ==>
            Fair(s.ended[closer.out[i].id].outcome))
      && (closer.done && s.q.outstanding == 0 ==>
            forall i :: 0 <= i < |closer.out| ==>
              closer.out[i].id in s.ended && Fair(s.ended[closer.out[i].id].outcome))
  {
    var closer := s.closers[c];
    assert Closing(s, closer);
    hide C.Paired, FlushedOnce, Q.Counted;
    forall i | 0 <= i < |closer.out|
      ensures closer.out[i].id in s.ended ==> Fair(s.ended[closer.out[i].id].outcome)
      ensures s.q.closed ==> AtRest(s, closer.out[i].id)
    {
      if i < closer.sent {
        assert SentFairly(s, closer, i);
      } else {
        assert At(s, ToSend(c, i)) == Some(closer.out[i]);
        Elsewhere(s, ToSend(c, i));
      }
    }
    if closer.done && s.q.outstanding == 0 {
      forall i | 0 <= i < |closer.out|
        ensures closer.out[i].id in s.ended && Fair(s.ended[closer.out[i].id].outcome)
      {
        AllOver(s, c, i);
      }
    }
  }

  /** What a flush took and has ended was not superseded. */
  ghost predicate NotSuperseded(s: State, c: nat) {
    c in s.closers ==> forall i :: 0 <= i < |s.closers[c].out| ==>
      && s.closers[c].out[i].id < |s.arrivals|
      && (s.closers[c].out[i].id in s.ended ==> s.ended[s.closers[c].out[i].id].outcome != Superseded)
  }

  lemma FreshlyTaken(s: State, c: nat, order: seq<string>)
    requires Placed(s) && Filed(s) && Enabled(s, CloseBegin(c, order))
    ensures NotSuperseded(AfterCloseBegin(s, c, order), c)
  {
    var s' := AfterCloseBegin(s, c, order);
    if s.coalesces && !s.co.closed {
      var out := C.HeldInOrder(s.co, order);
      FlushTakesEachOnce(s.co, order);
      hide C.HeldInOrder;
      forall i | 0 <= i < |out| ensures out[i].push.id < |s.arrivals| && out[i].push.id !in s.ended {
        assert At(s, Held(out[i].key)) == Some(out[i].push);
        Elsewhere(s, Held(out[i].key));
      }
    }
  }

  lemma NotSupersededStep(s: State, e: Event, c: nat)
    requires Placed(s) && Filed(s) && C.Paired(s.co) && Enabled(s, e) && FlushedOnce(s) && NotSuperseded(s, c)
    ensures NotSuperseded(Next(s, e), c)
  {
    FlagsFollow(s, e);
    ClosersFollow(s, e);
    if e.CloseBegin? && e.closer == c {
      BeginIs(s, c, e.order);
      FreshlyTaken(s, c, e.order);
    } else if c in s.closers && s.closers[c].out != [] {
      EndedIs(s, e);
      if EndOf(s, e).EndAt? {
        UnfairEnds(s, e);
      }
    }
    hide Placed, Filed, Next, Enabled, EndOf, At;
  }

  lemma {:induction false} NeverSuperseded(s: State, es: seq<Event>, c: nat)
    requires Whole(s) && C.Paired(s.co) && FlushedOnce(s) && NotSuperseded(s, c) && Possible(s, es)
    ensures NotSuperseded(Final(s, es), c)
    decreases |es|
  {
    hide Placed, Filed, NotSuperseded, FlushedOnce, Next, Enabled, Q.Counted, C.Paired;
    if es != [] {
      PlacedStep(s, es[0]);
      PipelinePlaces.CountedStep(s, es[0]);
      PairedStep(s, es[0]);
      FlushedOnceStep(s, es[0]);
      NotSupersededStep(s, es[0], c);
      NeverSuperseded(Next(s, es[0]), es[1..], c);
    }
  }

  /**
   Put the other way: whatever the callers of Close do, a push that one of their flushes took is
   never superseded, and finds the queue closed only where another caller has closed it.
   */
  lemma OnlyAnotherCloseLosesIt(window: Time, clock: Time, limits: S.Limits, es: seq<Event>, c: nat, i: nat)
    requires Possible(Init(window, clock, limits), es)
    requires var s := Final(Init(window, clock, limits), es);
      c in s.closers && i < |s.closers[c].out| && s.closers[c].out[i].id in s.ended
    ensures var s := Final(Init(window, clock, limits), es);
      var outcome := s.ended[s.closers[c].out[i].id].outcome;
      && outcome != Superseded
      && (outcome == QueueClosed ==> exists d :: d in s.closers && d != c && s.closers[d].done)
  {
    var s0 := Init(window, clock, limits);
    assert forall p :: At(s0, p).None?;
    NeverSuperseded(s0, es, c);
    if NoOtherClosed(Final(Init(window, clock, limits), es), c) {
      HeldAtShutdownIsNotLost(window, clock, limits, es, c);
    }
  }

  // ------------------------------------------------------------------ what the slots held

  lemma OutStays(s: State, e: Event, c: nat)
    requires Enabled(s, e) && c in s.closers
    ensures c in Next(s, e).closers && Next(s, e).closers[c].out == s.closers[c].out
  {
    ClosersFollow(s, e);
    hide Next, Enabled;
  }

  lemma {:induction false} OutStaysThroughout(s: State, es: seq<Event>, c: nat)
    requires Possible(s, es) && c in s.closers
    ensures c in Final(s, es).closers && Final(s, es).closers[c].out == s.closers[c].out
    decreases |es|
  {
    if es != [] {
      OutStays(s, es[0], c);
      hide Next, Enabled;
      OutStaysThroughout(Next(s, es[0]), es[1..], c);
    }
  }

  lemma {:induction false} CoalescesThroughout(s: State, es: seq<Event>)
    requires Possible(s, es) && C.Paired(s.co)
    ensures Final(s, es).coalesces == s.coalesces && C.Paired(Final(s, es).co)
    decreases |es|
  {
    if es != [] {
      StepOfTheCoalescer(s, es[0]);
      PairedStep(s, es[0]);
      hide Next, Enabled, C.Paired;
      CoalescesThroughout(Next(s, es[0]), es[1..]);
    }
  }

  /** A flush of an open coalescer takes what each slot holds. */
  lemma FlushTakes(s: State, c: nat, order: seq<string>, key: string, p: Push)
    requires s.coalesces && !s.co.closed && Enabled(s, CloseBegin(c, order))
    requires key in s.co.slots && s.co.slots[key].held == Some(p)
    ensures var s1 := Next(s, CloseBegin(c, order)); c in s1.closers && p in s1.closers[c].out
  {
    FlushTakesEachOnce(s.co, order);
    var out := C.HeldInOrder(s.co, order);
    assert IsTaken(out, key);
    var i :| 0 <= i < |out| && out[i].key == key;
    assert Next(s, CloseBegin(c, order)) == AfterCloseBegin(s, c, order);
    hide C.HeldInOrder;
    assert Pushes(out)[i] == p;
  }

  /**
   The same of the slots: whatever went before and comes after, a push that a slot holds when the
   first Close takes the lock has, once that caller and no other has closed the queue and the wait
   returns, been run by a worker, been refused as full, or found its row gone.
   */
  lemma WhatASlotHeldIsNotLost(window: Time, clock: Time, limits: S.Limits, before: seq<Event>, c: nat,
                               order: seq<string>, after: seq<Event>, key: string, p: Push)
    requires 0.0 < window && Possible(Init(window, clock, limits), before + ([CloseBegin(c, order)] + after))
    requires var s := Final(Init(window, clock, limits), before); key in s.co.slots && s.co.slots[key].held == Some(p)
    requires var t := Final(Init(window, clock, limits), before + ([CloseBegin(c, order)] + after));
      NoOtherClosed(t, c) && t.q.outstanding == 0 && c in t.closers && t.closers[c].done
    ensures var t := Final(Init(window, clock, limits), before + ([CloseBegin(c, order)] + after));
      p.id in t.ended && Fair(t.ended[p.id].outcome)
  {
    var s0, e := Init(window, clock, limits), CloseBegin(c, order);
    RunSplit(s0, before, [e] + after);
    var s := Final(s0, before);
    CoalescesThroughout(s0, before);
    assert ([e] + after)[1..] == after;
    assert Enabled(s, e) && Possible(Next(s, e), after) && Final(s, [e] + after) == Final(Next(s, e), after);
    FlushTakes(s, c, order, key, p);
    hide Next, Enabled, Possible, Final;
    OutStaysThroughout(Next(s, e), after, c);
    HeldAtShutdownIsNotLost(window, clock, limits, before + ([e] + after), c);
    var out := Final(s, [e] + after).closers[c].out;
    var i :| 0 <= i < |out| && out[i] == p;
  }

  // ------------------------------------------------------------------ two callers of Close

  /** One slot open, holding `p`, whose row is there; nobody has closed anything. */
  ghost predicate HoldsOne(s: State, key: string, p: Push) {
    && s.coalesces && !s.co.closed && s.co.slots.Keys == {key} && s.co.slots[key].held == Some(p)
    && p.registration.token in s.store.table && p.id !in s.local
    && s.closers == map[] && !s.q.closed && s.q.adding.None?
  }

  /**
   A second Close at the wrong moment: it finds nothing left to flush and closes the queue, and
   then the first hands on what it took.
   */
  function Overtaken(key: string, p: Push): seq<Event> {
    [CloseBegin(0, [key])]
    + ([CloseBegin(1, [])] + ([CloseQueue(1)] + ([CloserSends(0)] + ([Hand(p.id)] + ([Submit(p.id)] + [])))))
  }

  lemma FirstTakes(s: State, key: string, p: Push)
    requires HoldsOne(s, key, p)
    ensures Enabled(s, CloseBegin(0, [key]))
    ensures Next(s, CloseBegin(0, [key])) ==
      s.(co := C.Next(s.co, C.Flush([key])), closers := map[0 := Closer([p], 0, false)])
  {
    assert [key][1..] == [];
    assert C.HeldInOrder(s.co, [key]) == [C.Commit(key, p, s.co.clock)];
    assert [C.Commit(key, p, s.co.clock)][1..] == [];
    assert Pushes([C.Commit(key, p, s.co.clock)]) == [p];
  }

  lemma SecondCloses(s: State, p: Push)
    requires s.coalesces && s.co.closed && s.co.slots == map[] && !s.q.closed && s.q.adding.None?
    requires s.closers == map[0 := Closer([p], 0, false)]
    ensures Enabled(s, CloseBegin(1, []))
    ensures var s1 := Next(s, CloseBegin(1, []));
      && Enabled(s1, CloseQueue(1))
      && Next(s1, CloseQueue(1)) ==
           s.(q := Q.Next(s.q, Q.Close), closers := s.closers[1 := Closer([], 0, true)])
  {
  }

  lemma FirstHandsOn(s: State, p: Push)
    requires 0 in s.closers && s.closers[0] == Closer([p], 0, false) && p.registration.token in s.store.table
    requires s.q.closed && s.q.adding.None?
    ensures Enabled(s, CloserSends(0))
    ensures var s1 := Next(s, CloserSends(0));
      && Enabled(s1, Hand(p.id))
      && var s2 := Next(s1, Hand(p.id));
         && Enabled(s2, Submit(p.id))
         && var s3 := Next(s2, Submit(p.id)); p.id in s3.ended && s3.ended[p.id] == End(p, QueueClosed)
  {
  }

  lemma ASecondCloseCanLoseIt(s: State, key: string, p: Push)
    requires HoldsOne(s, key, p)
    ensures Possible(s, Overtaken(key, p))
    ensures p.id in Final(s, Overtaken(key, p)).ended
    ensures Final(s, Overtaken(key, p)).ended[p.id] == End(p, QueueClosed)
  {
    var s0 := Next(s, CloseBegin(0, [key]));
    FirstTakes(s, key, p);
    SecondCloses(s0, p);
    var s1 := Next(s0, CloseBegin(1, []));
    var s2 := Next(s1, CloseQueue(1));
    FirstHandsOn(s2, p);
    var s3 := Next(s2, CloserSends(0));
    var s4 := Next(s3, Hand(p.id));
    var s5 := Next(s4, Submit(p.id));
    assert Possible(s5, []) && Final(s5, []) == s5;
    var sixth := [Submit(p.id)] + [];
    var fifth := [Hand(p.id)] + sixth;
    var fourth := [CloserSends(0)] + fifth;
    var third := [CloseQueue(1)] + fourth;
    hide Next, Enabled, Possible, Final, HoldsOne;
    Prepend(s4, Submit(p.id), []);
    Prepend(s3, Hand(p.id), sixth);
    Prepend(s2, CloserSends(0), fifth);
    Prepend(s1, CloseQueue(1), fourth);
    Prepend(s0, CloseBegin(1, []), third);
    Prepend(s, CloseBegin(0, [key]), [CloseBegin(1, [])] + third);
  }

  /** A device registers, and two pushes come for one of its mailboxes; and then the rest. */
  function TwoPushesThen(r: Registration, a: Arrival, now: Time, rest: seq<Event>): seq<Event> {
    [Change(S.Put(r, true))]
    + ([Enter(a, now)] + ([Offer(0)] + ([Enter(a, now)] + ([Offer(1)] + rest))))
  }

  lemma RegisterFirst(s: State, r: Registration)
    requires s.store.table == map[] && S.PutVerdict(s.store.limits, s.store.table, r) == S.Stored
    ensures Enabled(s, Change(S.Put(r, true)))
    ensures var s' := Next(s, Change(S.Put(r, true)));
      && r.token in s'.store.table && s'.store.table[r.token] == S.Prepared(map[], r)
      && s' == s.(store := s'.store)
  {
    hide S.Prepared;
  }

  lemma LeadIn(s: State, a: Arrival, now: Time)
    requires s.coalesces && a.silent && a.lane != Lanes.JMAP_LANE && s.arrivals == []
    requires !s.co.closed && s.co.slots == map[] && s.local == map[]
    ensures Enabled(s, Enter(a, now))
    ensures var s1 := Next(s, Enter(a, now));
      && Enabled(s1, Offer(0))
      && var s2, key := Next(s1, Offer(0)), Lanes.SlotKey(a.registration.token, a.lane);
         && s2 == s.(arrivals := [a], local := map[0 := Handing(AsEntered(a, 0))],
                     co := C.Next(s.co, C.Offer(key, AsEntered(a, 0))))
         && !s2.co.closed && s2.co.slots.Keys == {key} && s2.co.slots[key].held == None
  {
  }

  lemma ThenHold(s: State, a: Arrival, now: Time)
    requires s.coalesces && a.silent && a.lane != Lanes.JMAP_LANE && |s.arrivals| == 1
    requires var key := Lanes.SlotKey(a.registration.token, a.lane);
      && !s.co.closed && s.co.slots.Keys == {key} && s.co.slots[key].held == None
    requires s.local.Keys == {0} && s.closers == map[] && !s.q.closed && s.q.adding.None?
    requires a.registration.token in s.store.table
    ensures Enabled(s, Enter(a, now))
    ensures var s1 := Next(s, Enter(a, now));
      && Enabled(s1, Offer(1))
      && HoldsOne(Next(s1, Offer(1)), Lanes.SlotKey(a.registration.token, a.lane), AsEntered(a, 1))
  {
  }

  /**
   So the promise does need a single caller: from the start, a device that registers, two pushes
   for one mailbox of the row that was stored, and two calls of Close can leave the newer push at
   a closed queue.
   */
  lemma OneCloseIsNeeded(window: Time, clock: Time, limits: S.Limits, r: Registration, a: Arrival, now: Time)
    requires 0.0 < window && a.silent && a.lane != Lanes.JMAP_LANE
    requires S.PutVerdict(limits, map[], r) == S.Stored && a.registration == S.Prepared(map[], r)
    ensures var es := TwoPushesThen(r, a, now, Overtaken(Lanes.SlotKey(a.registration.token, a.lane), AsEntered(a, 1)));
      var s0 := Init(window, clock, limits);
      && Possible(s0, es) && 1 in Final(s0, es).ended
      && Final(s0, es).ended[1] == End(AsEntered(a, 1), QueueClosed)
  {
    var s0 := Init(window, clock, limits);
    var key, p := Lanes.SlotKey(a.registration.token, a.lane), AsEntered(a, 1);
    var register := Change(S.Put(r, true));
    RegisterFirst(s0, r);
    var s1 := Next(s0, register);
    LeadIn(s1, a, now);
    var s2 := Next(s1, Enter(a, now));
    var s3 := Next(s2, Offer(0));
    ThenHold(s3, a, now);
    var s4 := Next(s3, Enter(a, now));
    var s5 := Next(s4, Offer(1));
    ASecondCloseCanLoseIt(s5, key, p);
    var fifth := [Offer(1)] + Overtaken(key, p);
    var fourth := [Enter(a, now)] + fifth;
    var third := [Offer(0)] + fourth;
    var second := [Enter(a, now)] + third;
    hide Next, Enabled, Possible, Final, HoldsOne, Overtaken;
    Prepend(s4, Offer(1), Overtaken(key, p));
    Prepend(s3, Enter(a, now), fifth);
    Prepend(s2, Offer(0), fourth);
    Prepend(s1, Enter(a, now), third);
    Prepend(s0, register, second);
  }

  // ------------------------------------------------------------------ what a flush does not cover

  /** A push that led its window and is still on its way when a single Close runs to its end. */
  function Overtaking(r: Registration, a: Arrival, now: Time): seq<Event> {
    [Change(S.Put(r, true))]
    + ([Enter(a, now)] + ([Offer(0)] + ([CloseBegin(0, [Lanes.SlotKey(a.registration.token, a.lane)])]
    + ([CloseQueue(0)] + ([Hand(0)] + ([Submit(0)] + []))))))
  }

  lemma NothingToTake(s: State, key: string)
    requires s.coalesces && !s.co.closed && s.co.slots.Keys == {key} && s.co.slots[key].held == None
    requires s.closers == map[] && s.q.adding.None?
    ensures Enabled(s, CloseBegin(0, [key]))
    ensures var s1 := Next(s, CloseBegin(0, [key]));
      && s1 == s.(co := s1.co, closers := map[0 := Closer([], 0, false)])
      && Enabled(s1, CloseQueue(0))
      && Next(s1, CloseQueue(0)) == s1.(q := Q.Next(s.q, Q.Close), closers := map[0 := Closer([], 0, true)])
  {
    assert [key][1..] == [];
    assert C.HeldInOrder(s.co, [key]) == [];
    hide C.HeldInOrder;
    assert Next(s, CloseBegin(0, [key])) == AfterCloseBegin(s, 0, [key]);
    assert Pushes(C.Out(s.co, C.Flush([key]))) == [];
    hide C.Out, C.Next;
  }

  lemma TooLate(s: State, push: Push)
    requires push.id in s.local && s.local[push.id] == Handing(push) && push.registration.token in s.store.table
    requires s.q.closed && s.q.adding.None?
    ensures Enabled(s, Hand(push.id))
    ensures var s1 := Next(s, Hand(push.id));
      && Enabled(s1, Submit(push.id))
      && var s2 := Next(s1, Submit(push.id)); push.id in s2.ended && s2.ended[push.id] == End(push, QueueClosed)
  {
  }

  /**
   Nor does the promise reach past the slots: a push that was sent on before the flush took the
   lock, and is handed over only after, can find the queue closed by the one caller there is.
   */
  lemma OnlyHeldPushesAreSafe(window: Time, clock: Time, limits: S.Limits, r: Registration, a: Arrival, now: Time)
    requires 0.0 < window && a.silent && a.lane != Lanes.JMAP_LANE
    requires S.PutVerdict(limits, map[], r) == S.Stored && a.registration == S.Prepared(map[], r)
    ensures var s0, es := Init(window, clock, limits), Overtaking(r, a, now);
      && Possible(s0, es) && Alone(Final(s0, es)) && 0 in Final(s0, es).ended
      && Final(s0, es).ended[0] == End(AsEntered(a, 0), QueueClosed)
  {
    var s0, push := Init(window, clock, limits), AsEntered(a, 0);
    var key, register := Lanes.SlotKey(a.registration.token, a.lane), Change(S.Put(r, true));
    RegisterFirst(s0, r);
    var s1 := Next(s0, register);
    LeadIn(s1, a, now);
    var s2 := Next(s1, Enter(a, now));
    var s3 := Next(s2, Offer(0));
    NothingToTake(s3, key);
    var s4 := Next(s3, CloseBegin(0, [key]));
    var s5 := Next(s4, CloseQueue(0));
    TooLate(s5, push);
    hide Next, Enabled, C.Next, Q.Next, HoldsOne;
    var s6 := Next(s5, Hand(0));
    var s7 := Next(s6, Submit(0));
    assert Possible(s7, []) && Final(s7, []) == s7;
    assert Alone(s7) by {
      ClosersFollow(s5, Hand(0));
      ClosersFollow(s6, Submit(0));
    }
    var seventh := [Submit(0)] + [];
    var sixth := [Hand(0)] + seventh;
    var fifth := [CloseQueue(0)] + sixth;
    var fourth := [CloseBegin(0, [key])] + fifth;
    var third := [Offer(0)] + fourth;
    var second := [Enter(a, now)] + third;
    hide Possible, Final, Alone;
    Prepend(s6, Submit(0), []);
    Prepend(s5, Hand(0), seventh);
    Prepend(s4, CloseQueue(0), sixth);
    Prepend(s3, CloseBegin(0, [key]), fifth);
    Prepend(s2, Offer(0), fourth);
    Prepend(s1, Enter(a, now), third);
    Prepend(s0, register, second);
  }
}
