/**
 Of the pushes offered to one slot the newest is never superseded, whatever the others become and
 however the relay is closed.
 */
module PipelineNewest {
  import opened Types
  import opened Pipeline
  import opened PipelinePlaces
  import opened PipelineAttempts
  import PipelineShutdown
  import PipelineDrain
  import C = Coalescer
  import L = Limiter
  import Q = DeliveryQueue
  import S = Store
  import opened Lanes

  /** A step that offers a push to this slot. */
  predicate OffersTo(s: State, e: Event, key: string) {
    e.Offer? && e.id in s.local && s.local[e.id].Offering? && s.local[e.id].key == key
  }

  /** The push a run offers to this slot last, if it offers it any. */
  ghost function NewestOffered(s: State, es: seq<Event>, key: string, last: Option<nat>): Option<nat>
    decreases |es|
  {
    if es == [] then last
    else NewestOffered(Next(s, es[0]), es[1..], key, if OffersTo(s, es[0], key) then Some(es[0].id) else last)
  }

  /** It is not on offer any more, no other slot holds it, and it has not ended superseded. */
  ghost predicate Newest(s: State, key: string, id: nat) {
    && id < |s.arrivals|
    && (id in s.local ==> !s.local[id].Offering?)
    && (forall k :: k != key && At(s, Held(k)).Some? ==> At(s, Held(k)).value.id != id)
    && (id in s.ended ==> s.ended[id].outcome != Superseded)
  }

  /** Slots other than the one offered to hold after a step only what they held before it. */
  lemma HoldingStays(s: State, e: Event, k: string)
    requires Enabled(s, e) && !OffersTo(s, e, k)
    ensures At(Next(s, e), Held(k)).Some? ==> At(Next(s, e), Held(k)) == At(s, Held(k))
  {
    PipelineShutdown.StepOfTheCoalescer(s, e);
    hide Next, Enabled;
  }

  /** Nothing comes on offer but what enters. */
  lemma OnOfferIsEntered(s: State, e: Event, id: nat)
    requires Enabled(s, e) && id < |s.arrivals| && (id in s.local ==> !s.local[id].Offering?)
    ensures id in Next(s, e).local ==> !Next(s, e).local[id].Offering?
  {
    if e.Enter? || e.Offer? || e.Expire? || e.Hand? || e.Submit? || e.CloserSends? {
      hide C.Next, C.Out, C.Enabled, Q.Next, Free, IsCoalesced, SlotKey;
    } else {
      LocalStays(s, e);
      hide Next, Enabled;
    }
  }

  lemma LocalStays(s: State, e: Event)
    requires !(e.Enter? || e.Offer? || e.Expire? || e.Hand? || e.Submit? || e.CloserSends?)
    ensures Next(s, e).local == s.local
  {
    hide L.Next, L.Reply, S.Next, C.Next, C.Out, Q.Next, Q.HasRoom, Pushes;
  }

  /** What is offered is, right after, the newest. */
  lemma OfferMakesNewest(s: State, id: nat)
    requires Placed(s) && Filed(s) && Enabled(s, Offer(id))
    ensures Newest(Next(s, Offer(id)), s.local[id].key, id)
  {
    var e, push, key := Offer(id), s.local[id].push, s.local[id].key;
    assert push.id == id && At(s, Carried(id)) == Some(push);
    assert id < |s.arrivals|;
    Elsewhere(s, Carried(id));
    PutDown(s, id);
    EndedIs(s, e);
    assert EndOf(s, e).EndAt? ==> EndOf(s, e).place == Held(key);
    var s' := Next(s, e);
    hide Next, Enabled, EndOf, Placed, Filed;
    forall k | At(s, Held(k)).Some? ensures At(s, Held(k)).value.id != id {
      Elsewhere(s, Held(k));
    }
    forall k | k != key && At(s', Held(k)).Some? ensures At(s', Held(k)).value.id != id {
      HoldingStays(s, e, k);
    }
  }

  /** Once offered, a push is handed on or held. */
  lemma PutDown(s: State, id: nat)
    requires Filed(s) && Enabled(s, Offer(id))
    ensures var s' := Next(s, Offer(id));
      s'.arrivals == s.arrivals && (id in s'.local ==> !s'.local[id].Offering?)
  {
    hide C.Next, C.Out;
  }

  /** A push is superseded in the slot that is offered to. */
  lemma SupersededWhere(s: State, e: Event)
    requires EndOf(s, e).EndAt? && EndOf(s, e).outcome == Superseded
    ensures e.Offer? && e.id in s.local && OffersTo(s, e, s.local[e.id].key)
    ensures EndOf(s, e).place == Held(s.local[e.id].key)
  {
  }

  lemma NewestStep(s: State, e: Event, key: string, id: nat)
    requires Placed(s) && Filed(s) && Enabled(s, e) && Newest(s, key, id) && !OffersTo(s, e, key)
    ensures Newest(Next(s, e), key, id)
  {
    OnOfferIsEntered(s, e, id);
    PipelineShutdown.FlagsFollow(s, e);
    EndedIs(s, e);
    if EndOf(s, e).EndAt? && EndOf(s, e).outcome == Superseded {
      SupersededWhere(s, e);
    }
    var s' := Next(s, e);
    hide Next, Enabled, EndOf, Placed, Filed;
    forall k | k != key && At(s', Held(k)).Some? ensures At(s', Held(k)).value.id != id {
      if OffersTo(s, e, k) {
        OfferHolds(s, e.id);
      } else {
        HoldingStays(s, e, k);
      }
    }
  }

  /** A slot offered to holds the push offered, or what it held. */
  lemma OfferHolds(s: State, id: nat)
    requires Filed(s) && Enabled(s, Offer(id))
    ensures var h := At(Next(s, Offer(id)), Held(s.local[id].key));
      h.Some? ==> h.value == s.local[id].push || h == At(s, Held(s.local[id].key))
    ensures s.local[id].push.id == id
  {
    assert Next(s, Offer(id)) == AfterOffer(s, s.local[id].push, s.local[id].key);
    hide Next;
  }

  ghost predicate NewestIfAny(s: State, key: string, last: Option<nat>) {
    last.Some? ==> Newest(s, key, last.value)
  }

  lemma {:induction false} NewestAlways(s: State, es: seq<Event>, key: string, last: Option<nat>)
    requires Whole(s) && Possible(s, es) && NewestIfAny(s, key, last)
    ensures NewestIfAny(Final(s, es), key, NewestOffered(s, es, key, last))
    decreases |es|
  {
    hide Placed, Filed, Q.Counted, Newest, Next, Enabled;
    if es != [] {
      var e := es[0];
      PlacedStep(s, e);
      PipelinePlaces.CountedStep(s, e);
      if OffersTo(s, e, key) {
        OfferMakesNewest(s, e.id);
        NewestAlways(Next(s, e), es[1..], key, Some(e.id));
      } else {
        if last.Some? {
          NewestStep(s, e, key, last.value);
        }
        NewestAlways(Next(s, e), es[1..], key, last);
      }
    }
  }

  /**
   In every run, shutdown and any number of callers of Close included: the newest push offered to a
   slot is never superseded, and once all is over it has come to another end.
   */
  lemma TheNewestArrives(window: Time, clock: Time, limits: S.Limits, es: seq<Event>, key: string)
    requires Possible(Init(window, clock, limits), es)
    ensures var s, newest := Final(Init(window, clock, limits), es),
                             NewestOffered(Init(window, clock, limits), es, key, None);
      newest.Some? ==>
        && newest.value < |s.arrivals|
        && (newest.value in s.ended ==> s.ended[newest.value].outcome != Superseded)
        && (PipelineDrain.AllOver(s) ==> newest.value in s.ended)
  {
    var s0 := Init(window, clock, limits);
    PipelineDrain.ReadyAtFirst(window, clock, limits);
    PipelineDrain.ReadyAlways(s0, es);
    NewestAlways(s0, es, key, None);
    var s := Final(s0, es);
    hide Next, Enabled, Possible, Final, Placed, Filed, NewestOffered, PipelineDrain.AllOver, PipelineDrain.Ready;
    if PipelineDrain.AllOver(s) {
      PipelineDrain.OverMeansEnded(s);
    }
  }
}
