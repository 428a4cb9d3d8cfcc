/**
 What each part promises on its own, carried over to whole runs of the pipeline: projecting a run
 onto the coalescer, the queue, the limiter or the store gives a run of that part.
 */
module PipelineComposition {
  import opened Types
  import opened Pipeline
  import opened PipelinePlaces
  import PipelineAttempts
  import PipelineShutdown
  import C = Coalescer
  import Keys = CoalescerKeys
  import CoalescerSpacing
  import L = Limiter
  import Rate = LimiterRate
  import Q = DeliveryQueue
  import S = Store
  import StoreInvariants
  import Spacing

  // ------------------------------------------------------------------ the coalescer's trace

  /** What a run is to the coalescer. */
  ghost function CoalescerTrace(s: State, es: seq<Event>): seq<C.Event>
    decreases |es|
  {
    if es == [] then []
    else
      var rest := CoalescerTrace(Next(s, es[0]), es[1..]);
      match PipelineShutdown.CoalescerEvent(s, es[0])
      case None => rest
      case Some(ce) => [ce] + rest
  }

  lemma {:induction false} CoalescerRuns(s: State, es: seq<Event>)
    requires Possible(s, es)
    ensures C.Possible(s.co, CoalescerTrace(s, es))
    ensures C.Final(s.co, CoalescerTrace(s, es)) == Final(s, es).co
    decreases |es|
  {
    hide Next, Enabled, PipelineShutdown.CoalescerEvent, C.Next, C.Enabled;
    if es != [] {
      var s1, rest := Next(s, es[0]), CoalescerTrace(Next(s, es[0]), es[1..]);
      PipelineShutdown.StepOfTheCoalescer(s, es[0]);
      CoalescerRuns(s1, es[1..]);
      match PipelineShutdown.CoalescerEvent(s, es[0])
      case None =>
      case Some(ce) => assert ([ce] + rest)[1..] == rest;
    }
  }

  ghost predicate NobodyCloses(es: seq<Event>) {
    forall i :: 0 <= i < |es| ==> !es[i].CloseBegin?
  }

  lemma {:induction false} NoFlushInTrace(s: State, es: seq<Event>)
    requires NobodyCloses(es)
    ensures Keys.BeforeFlush(CoalescerTrace(s, es))
    decreases |es|
  {
    if es != [] {
      assert !es[0].CloseBegin?;
      assert forall i :: 0 <= i < |es[1..]| ==> es[1..][i] == es[i + 1];
      NoFlushInTrace(Next(s, es[0]), es[1..]);
    }
  }

  /** The pushes a run sends on from one slot, and when each was committed to. */
  ghost function SentOn(window: Time, clock: Time, limits: S.Limits, es: seq<Event>, key: string): seq<Push> {
    Keys.SentTo(C.Commits(C.Init(window, clock), CoalescerTrace(Init(window, clock, limits), es)), key)
  }

  ghost function SentAt(window: Time, clock: Time, limits: S.Limits, es: seq<Event>, key: string): seq<Time> {
    CoalescerSpacing.TimesOf(C.Commits(C.Init(window, clock), CoalescerTrace(Init(window, clock, limits), es)), key)
  }

  /**
   In every interleaving before shutdown, for every slot: what is sent on is what its windows call
   for, each push offered at most once, in order, at instants a window apart; and the newest push
   offered is held or was the last sent on.
   */
  lemma EachSlotKeepsItsPace(window: Time, clock: Time, limits: S.Limits, es: seq<Event>, key: string)
    requires 0.0 < window && NobodyCloses(es)
    requires Possible(Init(window, clock, limits), es)
    ensures var seen := Keys.Seen(CoalescerTrace(Init(window, clock, limits), es), key);
      var sent := SentOn(window, clock, limits, es, key);
      && sent == Keys.Due(Keys.Windows(seen), false) && Keys.Within(sent, Keys.Offers(seen))
      && Keys.Latest(Keys.PhaseOf(Final(Init(window, clock, limits), es).co, key), sent)
         == Keys.Newest(Keys.Offers(seen))
    ensures Spacing.Spaced(SentAt(window, clock, limits, es, key), window)
    ensures Spacing.AtMostOnePer(SentAt(window, clock, limits, es, key), window)
  {
    hide Next, Enabled, C.Next, C.Enabled, C.Out, Keys.Within, Keys.Due, Keys.Windows;
    var trace := CoalescerTrace(Init(window, clock, limits), es);
    CoalescerRuns(Init(window, clock, limits), es);
    NoFlushInTrace(Init(window, clock, limits), es);
    Keys.SendsWhatIsDue(window, clock, trace, key);
    Keys.NewestGoesLast(window, clock, trace, key);
    CoalescerSpacing.AtMostOnePerWindow(window, clock, trace, key);
  }

  // ------------------------------------------------------------------ the queue's trace

  ghost function QueueTrace(s: State, es: seq<Event>): seq<Q.Event>
    decreases |es|
  {
    if es == [] then []
    else
      var rest := QueueTrace(Next(s, es[0]), es[1..]);
      match QueueEvent(s, es[0])
      case None => rest
      case Some(qe) => [qe] + rest
  }

  lemma {:induction false} QueueRuns(s: State, es: seq<Event>)
    requires Possible(s, es)
    ensures Q.Possible(s.q, QueueTrace(s, es))
    ensures Q.Final(s.q, QueueTrace(s, es)) == Final(s, es).q
    decreases |es|
  {
    hide Next, Enabled, QueueEvent, Q.Next, Q.Enabled;
    if es != [] {
      var s1, rest := Next(s, es[0]), QueueTrace(Next(s, es[0]), es[1..]);
      StepOfTheQueue(s, es[0]);
      QueueRuns(s1, es[1..]);
      match QueueEvent(s, es[0])
      case None =>
      case Some(qe) => assert ([qe] + rest)[1..] == rest;
    }
  }

  /**
   In every interleaving: the jobs accepted and not yet waiting any more are those started, in the
   order they were accepted; and when the wait can return, all of them were started and finished.
   */
  lemma AcceptedIsStartedInOrder(window: Time, clock: Time, limits: S.Limits, es: seq<Event>)
    requires Possible(Init(window, clock, limits), es)
    ensures var q, trace := Q.Init(WORKERS, QUEUE_DEPTH), QueueTrace(Init(window, clock, limits), es);
      var end := Final(Init(window, clock, limits), es).q;
      && Q.Accepted(q, trace) == Q.Started(q, trace) + end.jobs
      && |end.jobs| <= QUEUE_DEPTH && |end.running| <= WORKERS
      && (end.outstanding == 0 ==>
            && Q.Started(q, trace) == Q.Accepted(q, trace)
            && forall n: nat :: n in Q.Finished(q, trace) <==> n < |Q.Accepted(q, trace)|)
  {
    hide Next, Enabled, Q.Next, Q.Enabled, Q.Accepted, Q.Started, Q.Finished;
    var q, trace := Q.Init(WORKERS, QUEUE_DEPTH), QueueTrace(Init(window, clock, limits), es);
    QueueRuns(Init(window, clock, limits), es);
    Q.FirstInFirstOut(q, trace);
    Q.NeverOverCommitted(WORKERS, QUEUE_DEPTH, trace);
    assert [] + Q.Accepted(q, trace) == Q.Accepted(q, trace);
    if Q.Final(q, trace).outstanding == 0 {
      Q.WaitMeansDone(WORKERS, QUEUE_DEPTH, trace);
    }
  }

  // ------------------------------------------------------------------ nothing is left behind

  /** No goroutine carries a push, no slot holds one, and every closer has begun all it had to send. */
  ghost predicate NobodyCarries(s: State) {
    && s.local == map[]
    && (forall k :: k in s.co.slots ==> s.co.slots[k].held.None?)
    && (forall c :: c in s.closers ==> s.closers[c].sent >= |s.closers[c].out|)
  }

  /**
   Conservation, in every interleaving: once nobody carries a push and the wait can return, the
   pushes that have come to an end are exactly those that entered, each as itself.
   */
  lemma AllThatEnteredHasEnded(window: Time, clock: Time, limits: S.Limits, es: seq<Event>, id: nat)
    requires Possible(Init(window, clock, limits), es)
    requires var s := Final(Init(window, clock, limits), es); NobodyCarries(s) && s.q.outstanding == 0
    ensures var s := Final(Init(window, clock, limits), es);
      && (id in s.ended <==> id < |s.arrivals|)
      && (id in s.ended ==> s.ended[id].push == AsEntered(s.arrivals[id], id))
  {
    ExactlyOnePlace(window, clock, limits, es);
    AcceptedIsStartedInOrder(window, clock, limits, es);
    StayFiled(window, clock, limits, es);
    EndedIffEntered(Final(Init(window, clock, limits), es), id);
  }

  lemma StayFiled(window: Time, clock: Time, limits: S.Limits, es: seq<Event>)
    requires Possible(Init(window, clock, limits), es)
    ensures Whole(Final(Init(window, clock, limits), es))
  {
    assert forall p :: At(Init(window, clock, limits), p).None?;
    WholeAlways(Init(window, clock, limits), es);
  }

  lemma EndedIffEntered(s: State, id: nat)
    requires Whole(s) && NobodyCarries(s) && s.q.outstanding == 0
    ensures id in s.ended <==> id < |s.arrivals|
    ensures id in s.ended ==> s.ended[id].push == AsEntered(s.arrivals[id], id)
  {
    assert s.q.jobs == [] && s.q.running == map[] && s.q.adding.None?;
    assert forall p :: At(s, p).Some? ==> p.Over?;
    if id in s.ended {
      assert At(s, Over(id)) == Some(s.ended[id].push);
    }
    if id < |s.arrivals| {
      assert Somewhere(s, id);
      var p :| IsThere(s, p, id);
      assert p.Over?;
    }
  }

  // ------------------------------------------------------------------ the limiter's trace

  /** The calls a run makes of the limiter, in the order they take its lock. */
  ghost function LimiterTrace(s: State, es: seq<Event>): seq<L.Call>
    decreases |es|
  {
    if es == [] then []
    else LimiterEvent(s, es[0]) + LimiterTrace(Next(s, es[0]), es[1..])
  }

  ghost function LimiterEvent(s: State, e: Event): seq<L.Call> {
    if e.Limit? && e.worker in s.q.running then [LimiterCall(JobOf(s, e.worker), e.now, e.victim)] else []
  }

  function AttemptsFor(attempts: seq<Attempt>, token: string): nat {
    if attempts == [] then 0
    else AttemptsFor(attempts[..|attempts| - 1], token)
         + if attempts[|attempts| - 1].registration.token == token then 1 else 0
  }

  /** Workers the limiter has let through for this token that have not yet pushed. */
  ghost function LetThrough(s: State, token: string): set<nat> {
    set w | w in s.q.running && w in s.stages && s.stages[w] in {Checking, Pushing}
            && s.q.running[w].job.registration.token == token
  }

  lemma StepOfTheLimiter(s: State, e: Event)
    requires Enabled(s, e)
    ensures Next(s, e).limits == s.limits
    ensures Next(s, e).buckets == L.Final(s.limits, s.buckets, LimiterEvent(s, e))
  {
    hide L.Next, L.Reply, L.Evicts, C.Next, C.Out, C.Enabled, S.Next, Q.Next, Q.Enabled;
    if e.Limit? {
      assert LimiterEvent(s, e)[1..] == [];
    }
  }

  /** In every interleaving the limiter's map stays within its capacity, and no bucket is above a burst. */
  lemma {:induction false} BucketsStayBounded(s: State, es: seq<Event>)
    requires L.Bounded(s.limits, s.buckets) && 0 < s.limits.capacity && Possible(s, es)
    ensures L.Bounded(Final(s, es).limits, Final(s, es).buckets) && Final(s, es).limits == s.limits
    decreases |es|
  {
    hide Next, Enabled, L.Bounded;
    if es != [] {
      BoundedStep(s, es[0]);
      BucketsStayBounded(Next(s, es[0]), es[1..]);
    }
  }

  lemma BoundedStep(s: State, e: Event)
    requires L.Bounded(s.limits, s.buckets) && 0 < s.limits.capacity && Enabled(s, e)
    ensures L.Bounded(Next(s, e).limits, Next(s, e).buckets) && Next(s, e).limits == s.limits
  {
    StepOfTheLimiter(s, e);
    LimiterCanCall(s, e);
    hide Next, Enabled, L.Bounded, L.Next, L.Evicts, L.CanFall;
    if LimiterEvent(s, e) != [] {
      var c := LimiterEvent(s, e)[0];
      assert LimiterEvent(s, e) == [c] && [c][1..] == [];
      L.BoundedStep(s.limits, s.buckets, c);
    }
  }

  /** What evicts has a victim the scan can settle on. */
  lemma LimiterCanCall(s: State, e: Event)
    requires Enabled(s, e)
    ensures forall c :: c in LimiterEvent(s, e) && L.Evicts(s.limits, s.buckets, c) ==>
      L.CanFall(L.ForgetFull(s.limits, s.buckets, c.now), c.victim)
  {
    hide L.Evicts, L.CanFall, L.ForgetFull;
  }

  /** With the relay's own limits: never more than 8192 buckets, and none above twenty. */
  lemma BucketsAreFew(window: Time, clock: Time, limits: S.Limits, es: seq<Event>)
    requires Possible(Init(window, clock, limits), es)
    ensures var bs := Final(Init(window, clock, limits), es).buckets;
      |bs| <= 8192 && forall k :: k in bs ==> bs[k].tokens <= 20.0
  {
    BucketsStayBounded(Init(window, clock, limits), es);
  }

  /** One more for each call allowed; a push that is attempted, or has lapsed, is let through no longer. */
  ghost function Granted(s: State, e: Event, token: string): nat {
    if e.Limit? && e.worker in s.q.running && JobOf(s, e.worker).registration.token == token
       && L.Reply(s.limits, s.buckets, LimiterCall(JobOf(s, e.worker), e.now, e.victim)).allowed then 1 else 0
  }

  lemma LetThroughMoves(s: State, s': State, w: nat, token: string)
    requires w in s.q.running && w in s.stages && w in s'.stages
    requires s'.q == s.q && s'.stages == s.stages[w := s'.stages[w]]
    ensures LetThrough(s', token) ==
      if s'.stages[w] in {Checking, Pushing} && JobOf(s, w).registration.token == token
      then LetThrough(s, token) + {w} else LetThrough(s, token) - {w}
  {
  }

  lemma LimitPays(s: State, w: nat, now: Time, victim: L.Key, token: string)
    requires IsAt(s, w, Limiting)
    ensures var s' := AfterLimit(s, w, JobOf(s, w), now, victim);
      && s'.attempts == s.attempts
      && |LetThrough(s', token)| <= |LetThrough(s, token)| + Granted(s, Limit(w, now, victim), token)
  {
    LetThroughMoves(s, AfterLimit(s, w, JobOf(s, w), now, victim), w, token);
    assert w !in LetThrough(s, token);
    hide L.Next, L.Reply, LetThrough;
  }

  lemma CheckPays(s: State, w: nat, now: Time, token: string)
    requires IsAt(s, w, Checking)
    ensures var s' := AfterCheck(s, w, JobOf(s, w), now);
      s'.attempts == s.attempts && |LetThrough(s', token)| <= |LetThrough(s, token)|
  {
    LetThroughMoves(s, AfterCheck(s, w, JobOf(s, w), now), w, token);
    L.Smaller(LetThrough(AfterCheck(s, w, JobOf(s, w), now), token), LetThrough(s, token));
  }

  lemma AttemptPays(s: State, w: nat, result: Result, token: string)
    requires IsAt(s, w, Pushing)
    ensures var s' := AfterAttempt(s, w, JobOf(s, w), result);
      AttemptsFor(s'.attempts, token) + |LetThrough(s', token)|
      == AttemptsFor(s.attempts, token) + |LetThrough(s, token)|
  {
    var s' := AfterAttempt(s, w, JobOf(s, w), result);
    LetThroughMoves(s, s', w, token);
    assert w in LetThrough(s, token) <==> JobOf(s, w).registration.token == token;
    assert s'.attempts[..|s.attempts|] == s.attempts;
    hide LetThrough;
  }

  lemma CrewPaysNothing(s: State, e: Event, token: string)
    requires Enabled(s, e) && (e.Take? || e.Forget? || e.Done?)
    ensures Next(s, e).attempts == s.attempts && LetThrough(Next(s, e), token) <= LetThrough(s, token)
  {
    hide S.Next;
  }

  lemma OthersPayNothing(s: State, e: Event, token: string)
    requires Enabled(s, e)
    requires !(e.Limit? || e.Check? || e.Attempt? || e.Take? || e.Forget? || e.Done?)
    ensures Next(s, e).attempts == s.attempts && LetThrough(Next(s, e), token) == LetThrough(s, token)
  {
    PipelineAttempts.AttemptsAre(s, e);
    StepOfTheQueue(s, e);
    StagesStay(s, e);
    hide Next, Enabled;
  }

  lemma StagesStay(s: State, e: Event)
    requires !(e.Limit? || e.Check? || e.Attempt? || e.Take? || e.Forget? || e.Done?)
    ensures Next(s, e).stages == s.stages
  {
    hide C.Next, C.Out, S.Next, Q.Next, Q.HasRoom;
  }

  lemma PaysStep(s: State, e: Event, token: string)
    requires Enabled(s, e)
    ensures var s' := Next(s, e);
      AttemptsFor(s'.attempts, token) + |LetThrough(s', token)|
      <= AttemptsFor(s.attempts, token) + |LetThrough(s, token)| + Granted(s, e, token)
  {
    if e.Limit? {
      LimitPays(s, e.worker, e.now, e.victim, token);
      hide AfterLimit, LetThrough, AttemptsFor, Granted;
    } else if e.Check? {
      CheckPays(s, e.worker, e.now, token);
      hide AfterCheck, LetThrough, AttemptsFor;
    } else if e.Attempt? {
      AttemptPays(s, e.worker, e.result, token);
      hide AfterAttempt, LetThrough, AttemptsFor;
    } else {
      if e.Take? || e.Forget? || e.Done? {
        CrewPaysNothing(s, e, token);
      } else {
        OthersPayNothing(s, e, token);
      }
      hide Next, Enabled, LetThrough, AttemptsFor;
      L.Smaller(LetThrough(Next(s, e), token), LetThrough(s, token));
    }
  }

  lemma {:induction false} EveryAttemptWasAllowed(s: State, es: seq<Event>, token: string)
    requires Possible(s, es)
    ensures AttemptsFor(Final(s, es).attempts, token) + |LetThrough(Final(s, es), token)|
         <= AttemptsFor(s.attempts, token) + |LetThrough(s, token)|
            + Rate.Allowed(s.limits, s.buckets, LimiterTrace(s, es), token)
    decreases |es|
  {
    hide Next, Enabled, LetThrough, AttemptsFor, L.Next, L.Reply, LimiterCall, JobOf;
    if es != [] {
      var s1, rest := Next(s, es[0]), LimiterTrace(Next(s, es[0]), es[1..]);
      PaysStep(s, es[0], token);
      StepOfTheLimiter(s, es[0]);
      EveryAttemptWasAllowed(s1, es[1..], token);
      TraceGrants(s, es[0], rest, token);
    }
  }

  lemma TraceGrants(s: State, e: Event, rest: seq<L.Call>, token: string)
    ensures Rate.Allowed(s.limits, s.buckets, LimiterEvent(s, e) + rest, token) ==
      Granted(s, e, token) + Rate.Allowed(s.limits, L.Final(s.limits, s.buckets, LimiterEvent(s, e)), rest, token)
  {
    hide L.Next, L.Reply;
    if LimiterEvent(s, e) == [] {
      assert [] + rest == rest;
    } else {
      assert (LimiterEvent(s, e) + rest)[1..] == rest && LimiterEvent(s, e)[1..] == [];
    }
  }

  /**
   The relay's own promise about a delivery token, over a whole run and whatever provider and
   workers do: what is put to Apple under it is at most a burst, one more for each time its bucket
   is evicted, and the refill of the time the limiter's readings span; and nothing if the limiter
   was not asked.
   */
  lemma ATokenWakesADeviceOnlySoOften(window: Time, clock: Time, limits: S.Limits, es: seq<Event>, token: string)
    requires Possible(Init(window, clock, limits), es)
    requires L.InOrder(LimiterTrace(Init(window, clock, limits), es))
    ensures var calls := LimiterTrace(Init(window, clock, limits), es);
      AttemptsFor(Final(Init(window, clock, limits), es).attempts, token) as real
      <= if calls == [] then 0.0
         else Rate.Allowance(L.PUSH_LIMITS, Rate.TimesEvicted(L.PUSH_LIMITS, map[], calls, token),
                             calls[0].now, calls[|calls| - 1].now)
    ensures var calls := LimiterTrace(Init(window, clock, limits), es);
      Rate.NeverTheVictim(L.PUSH_LIMITS, map[], calls, token) ==>
        AttemptsFor(Final(Init(window, clock, limits), es).attempts, token) as real
        <= if calls == [] then 0.0 else Rate.Allowance(L.PUSH_LIMITS, 0, calls[0].now, calls[|calls| - 1].now)
  {
    var s := Init(window, clock, limits);
    assert LetThrough(s, token) == {} && AttemptsFor(s.attempts, token) == 0;
    EveryAttemptWasAllowed(s, es, token);
    if LimiterTrace(s, es) != [] {
      hide Rate.Allowed, Rate.NeverTheVictim, Rate.TimesEvicted, Rate.Allowance, LimiterTrace;
      Rate.AllowedOverASpan(L.PUSH_LIMITS, LimiterTrace(s, es), token);
      if Rate.NeverTheVictim(L.PUSH_LIMITS, map[], LimiterTrace(s, es), token) {
        Rate.NeverTheVictimNeverFalls(L.PUSH_LIMITS, map[], LimiterTrace(s, es), token);
      }
    }
  }

  // ------------------------------------------------------------------ the store's trace

  /** What a step is to the store: a handler's own operation, or a delete Apple's answer led to. */
  ghost function StoreEvent(s: State, e: Event): Option<S.Event> {
    match e
    case Forget(w, diskTakes) =>
      if w in s.q.running then Some(S.Delete(JobOf(s, w).registration.token, diskTakes)) else None
    case Change(op) => Some(op)
    case _ => None
  }

  lemma StepOfTheStore(s: State, e: Event)
    requires Enabled(s, e)
    ensures match StoreEvent(s, e)
            case None => Next(s, e).store == s.store
            case Some(op) => S.Enabled(s.store, op) && Next(s, e).store == S.Next(s.store, op)
  {
    hide L.Next, L.Reply, L.Evicts, C.Next, C.Out, C.Enabled, Q.Next, Q.Enabled, S.Next;
  }

  /** Deliveries and registrations together, in every interleaving, keep the table and file sound. */
  lemma {:induction false} StoreStaysSound(s: State, es: seq<Event>)
    requires StoreInvariants.SoundState(s.store) && Possible(s, es)
    ensures StoreInvariants.SoundState(Final(s, es).store)
    decreases |es|
  {
    hide Next, Enabled, StoreEvent, StoreInvariants.SoundState, S.Next, S.Enabled;
    if es != [] {
      StepOfTheStore(s, es[0]);
      match StoreEvent(s, es[0]) {
        case None =>
        case Some(op) => StoreInvariants.SoundStep(s.store, op);
      }
      StoreStaysSound(Next(s, es[0]), es[1..]);
    }
  }
}
