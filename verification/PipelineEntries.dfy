/**
 What the way a push comes in decides for good: a Gmail push never raises a banner, a JMAP push
 soon after its registration is never held, and nothing is dropped while the queue has a place.
 */
module PipelineEntries {
  import opened Types
  import opened Pipeline
  import opened PipelinePlaces
  import opened PipelineAttempts
  import PipelineShutdown
  import PipelineComposition
  import PipelineDrain
  import PipelineNewest
  import RelayRuns
  import L = Limiter
  import C = Coalescer
  import Q = DeliveryQueue
  import S = Store

  // ------------------------------------------------------------------ the Gmail fan-out

  /**
   In every interleaving, whatever is put to Apple for a push that a fan-out entered goes in the
   background, whatever mode its row is or was in, under that row's token and with its payload.
   */
  lemma FanOutRaisesNoBanner(window: Time, clock: Time, limits: S.Limits, es: seq<Event>, i: nat,
                             rows: seq<Registration>, address: string, historyId: string, j: nat)
    requires Possible(Init(window, clock, limits), es)
    requires i < |Final(Init(window, clock, limits), es).attempts| && j < |rows|
    ensures var s := Final(Init(window, clock, limits), es);
      var attempt := s.attempts[i];
      && attempt.push.id < |s.arrivals|
      && (s.arrivals[attempt.push.id] == RelayRuns.FanOut(rows, address, historyId)[j] ==>
            && attempt.background && attempt.registration.token == rows[j].token
            && attempt.push.payload.Gmail? && attempt.push.payload.historyId == historyId)
  {
    AttemptedOnceAndAsSilentAsItArrived(window, clock, limits, es);
    RelayRuns.EachIsTold(rows, address, historyId);
    hide Possible, Final, RelayRuns.FanOut;
  }

  // ------------------------------------------------------------------ past the coalescer

  /** It is on no offer, in no slot, and not superseded. */
  ghost predicate NeverHeld(s: State, id: nat) {
    && id < |s.arrivals|
    && (id in s.local ==> !s.local[id].Offering?)
    && (forall k :: At(s, Held(k)).Some? ==> At(s, Held(k)).value.id != id)
    && (id in s.ended ==> s.ended[id].outcome != Superseded)
  }

  lemma NeverHeldStep(s: State, e: Event, id: nat)
    requires Filed(s) && Enabled(s, e) && NeverHeld(s, id)
    ensures NeverHeld(Next(s, e), id)
  {
    hide Next, Enabled, Filed, At;
    PipelineNewest.OnOfferIsEntered(s, e, id);
    PipelineShutdown.FlagsFollow(s, e);
    NotSupersededBy(s, e, id);
    var s' := Next(s, e);
    forall k | At(s', Held(k)).Some? ensures At(s', Held(k)).value.id != id {
      if PipelineNewest.OffersTo(s, e, k) {
        PipelineNewest.OfferHolds(s, e.id);
      } else {
        PipelineNewest.HoldingStays(s, e, k);
      }
    }
  }

  lemma NotSupersededBy(s: State, e: Event, id: nat)
    requires Enabled(s, e) && NeverHeld(s, id)
    ensures id in Next(s, e).ended ==> Next(s, e).ended[id].outcome != Superseded
  {
    EndedIs(s, e);
    if EndOf(s, e).EndAt? && EndOf(s, e).outcome == Superseded {
      PipelineNewest.SupersededWhere(s, e);
    }
    hide Next, Enabled, EndOf, At;
  }

  lemma {:induction false} NeverHeldAlways(s: State, es: seq<Event>, id: nat)
    requires Whole(s) && Possible(s, es) && NeverHeld(s, id)
    ensures NeverHeld(Final(s, es), id)
    decreases |es|
  {
    hide Placed, Filed, Q.Counted, NeverHeld, Next, Enabled;
    if es != [] {
      PlacedStep(s, es[0]);
      PipelinePlaces.CountedStep(s, es[0]);
      NeverHeldStep(s, es[0], id);
      NeverHeldAlways(Next(s, es[0]), es[1..], id);
    }
  }

  /** A JMAP push within two minutes of its registration, or one to raise a banner, goes past. */
  predicate GoesPast(a: Arrival, now: Time) {
    (!a.silent && a.registration.mode != Background) || (a.lane == "" && now - a.registration.seenAt < 120.0)
  }

  lemma EntersPast(s: State, a: Arrival, now: Time)
    requires Placed(s) && Filed(s) && GoesPast(a, now)
    ensures NeverHeld(Next(s, Enter(a, now)), |s.arrivals|)
  {
    var id, s' := |s.arrivals|, AfterEnter(s, a, now);
    assert Next(s, Enter(a, now)) == s';
    assert forall x :: x in s.ended ==> At(s, Over(x)) == Some(s.ended[x].push);
    assert id !in s.ended;
    forall k | At(s', Held(k)).Some? ensures At(s', Held(k)).value.id != id {
      assert At(s', Held(k)) == At(s, Held(k));
    }
    assert !IsCoalesced(s, a, now);
    hide Next, IsCoalesced;
  }

  /**
   In every run, whatever goes before and comes after: a JMAP push that enters within two minutes
   of its registration, or a push that is to raise a banner, is never superseded by another, and
   once all is over it has come to another end.
   */
  lemma GoingPastIsNeverSuperseded(window: Time, clock: Time, limits: S.Limits, before: seq<Event>, a: Arrival,
                                   now: Time, after: seq<Event>)
    requires GoesPast(a, now) && Possible(Init(window, clock, limits), before + ([Enter(a, now)] + after))
    ensures var id := |Final(Init(window, clock, limits), before).arrivals|;
      var t := Final(Init(window, clock, limits), before + ([Enter(a, now)] + after));
      && id < |t.arrivals|
      && (id in t.ended ==> t.ended[id].outcome != Superseded)
      && (PipelineDrain.AllOver(t) ==> id in t.ended)
  {
    var s0, e := Init(window, clock, limits), Enter(a, now);
    PipelineDrain.ReadyAtFirst(window, clock, limits);
    RunSplit(s0, before, [e] + after);
    var s := Final(s0, before);
    PipelineDrain.ReadyAlways(s0, before);
    assert ([e] + after)[1..] == after;
    assert Enabled(s, e) && Possible(Next(s, e), after) && Final(s, [e] + after) == Final(Next(s, e), after);
    EntersPast(s, a, now);
    PipelineDrain.ReadyStep(s, e);
    var s1 := Next(s, e);
    hide Next, Enabled, Possible, Final, Placed, Filed, Q.Counted, PipelineDrain.AllOver;
    NeverHeldAlways(s1, after, |s.arrivals|);
    PipelineDrain.ReadyAlways(s1, after);
    hide PipelineDrain.Ready;
    if PipelineDrain.AllOver(Final(s1, after)) {
      PipelineDrain.OverMeansEnded(Final(s1, after));
    }
  }

  // ------------------------------------------------------------------ a full queue

  lemma DepthIs(window: Time, clock: Time, limits: S.Limits, es: seq<Event>)
    requires Possible(Init(window, clock, limits), es)
    ensures var q := Final(Init(window, clock, limits), es).q;
      q.depth == 1024 && q.crew == 8 && Q.Counted(q)
  {
    var s0 := Init(window, clock, limits);
    PipelineComposition.QueueRuns(s0, es);
    Q.CountedAlways(s0.q, PipelineComposition.QueueTrace(s0, es));
  }

  /** How one step may end a push that meets the queue. */
  ghost predicate EndsNow(s: State, e: Event, id: nat, outcome: Outcome) {
    id in Next(s, e).ended && id !in s.ended && Next(s, e).ended[id].outcome == outcome
  }

  /**
   From every reachable state: a step drops a push for a full queue only where 1024 jobs wait, and
   it is the push being added; and where fewer wait, the push being added is queued, last.
   */
  lemma DroppedOnlyWhenFull(window: Time, clock: Time, limits: S.Limits, es: seq<Event>, e: Event, id: nat)
    requires Possible(Init(window, clock, limits), es)
    requires var s := Final(Init(window, clock, limits), es); Enabled(s, e)
    ensures var s := Final(Init(window, clock, limits), es);
      && (EndsNow(s, e, id, QueueFull) ==>
            e == Settle && s.q.adding.Some? && s.q.adding.value.push.id == id && |s.q.jobs| == 1024)
      && (e == Settle && |s.q.jobs| < 1024 ==>
            Next(s, e).q.jobs == s.q.jobs + [s.q.adding.value] && Next(s, e).ended == s.ended)
      && (e == Settle && |s.q.jobs| == 1024 ==>
            Next(s, e).q.jobs == s.q.jobs
            && Next(s, e).ended == s.ended[s.q.adding.value.push.id := End(s.q.adding.value.push, QueueFull)])
  {
    DepthIs(window, clock, limits, es);
    var s := Final(Init(window, clock, limits), es);
    hide Final, Possible;
    SettleMeans(s);
    EndedIs(s, e);
    hide Next, Enabled, Q.Counted;
  }

  /** Why a step brings a push to an end: each outcome has its one cause. */
  lemma WhyAPushEnds(s: State, e: Event, id: nat)
    requires Enabled(s, e) && id !in s.ended && id in Next(s, e).ended
    ensures match Next(s, e).ended[id].outcome
            case Superseded => e.Offer? && exists k :: k in s.co.slots && At(s, Held(k)).Some?
                                                       && At(s, Held(k)).value.id == id
            case RowGone => e.Hand? && s.local[e.id].push.registration.token !in s.store.table
            case QueueFull => e == Settle && |s.q.jobs| >= s.q.depth
            case QueueClosed => e.Submit? && s.q.closed
            case RateLimited =>
              && e.Limit?
              && var token := JobOf(s, e.worker).registration.token;
                 !L.Reply(s.limits, s.buckets, L.Call(token, e.now, e.victim)).allowed
            case Lapsed =>
              && e.Check?
              && var row := JobOf(s, e.worker).registration; row.expiresAt != 0.0 && row.expiresAt <= e.now
            case Attempted(result) => e.Attempt? && e.result == result
  {
    EndedIs(s, e);
    hide Next, C.Next, C.Out, C.Enabled, Q.Enabled, L.Reply, L.Evicts, L.CanFall, L.ForgetFull;
  }

  lemma SettleMeans(s: State)
    ensures s.q.adding.Some? ==>
      if |s.q.jobs| < s.q.depth then Next(s, Settle).q.jobs == s.q.jobs + [s.q.adding.value]
                                     && Next(s, Settle).ended == s.ended
      else Next(s, Settle).q.jobs == s.q.jobs
           && Next(s, Settle).ended == s.ended[s.q.adding.value.push.id := End(s.q.adding.value.push, QueueFull)]
  {
  }

  /** And nothing waits while one of the eight workers is idle: it can take the job. */
  lemma AnIdleWorkerTakes(window: Time, clock: Time, limits: S.Limits, es: seq<Event>) returns (w: nat)
    requires Possible(Init(window, clock, limits), es)
    requires var q := Final(Init(window, clock, limits), es).q; q.jobs != [] && |q.running| < 8
    ensures Enabled(Final(Init(window, clock, limits), es), Take(w)) && w < 8
  {
    DepthIs(window, clock, limits, es);
    var running := Final(Init(window, clock, limits), es).q.running;
    assert |running| == |running.Keys|;
    hide Final, Possible;
    w := SomeoneIdle(running.Keys, 8);
  }

  lemma {:induction false} SomeoneIdle(busy: set<nat>, n: nat) returns (w: nat)
    requires |busy| < n
    ensures w < n && w !in busy
  {
    w := 0;
    if n - 1 !in busy {
      w := n - 1;
    } else {
      w := SomeoneIdle(busy - {n - 1}, n - 1);
    }
  }
}
