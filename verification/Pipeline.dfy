/**
 The delivery pipeline: handlers that enter pushes, the coalescer, the bounded queue and its
 workers, the limiter, the store, and shutdown, each acting in steps that interleave as they
 like. A step is what happens between one release of a lock and the next.
 */
module Pipeline {
  import opened Types
  import C = Coalescer
  import L = Limiter
  import Q = DeliveryQueue
  import S = Store
  import opened Lanes

  /** How long after a registration a JMAP push goes past the coalescer. */
  const FRESH_REGISTRATION: Time := 120.0

  /** A call of `enqueueSilently`: silent is the Gmail path's, the lane its mailbox. */
  datatype Arrival = Arrival(registration: Registration, payload: Payload, silent: bool, lane: string)

  datatype Result = Accepted | Unregistered | Failed

  datatype Outcome =
    | Superseded
    | RowGone
    | QueueFull
    | QueueClosed
    | RateLimited
    | Lapsed
    | Attempted(result: Result)

  datatype End = End(push: Push, outcome: Outcome)

  /** What was put to Apple, and whether as a background push. */
  datatype Attempt = Attempt(push: Push, registration: Registration, background: bool)

  /** A push carried by a goroutine, between one lock and the next. */
  datatype Local =
    | Offering(push: Push, key: string)
    | Handing(push: Push)
    | Submitting(job: Job)

  /** A caller of Close: what its flush gave it to send, how much it has begun to send. */
  datatype Closer = Closer(out: seq<Push>, sent: nat, done: bool)

  /** Where a worker is in the job it took. */
  datatype Stage = Limiting | Checking | Pushing | Deleting | Finishing

  datatype State = State(
    coalesces: bool,
    co: C.State,
    local: map<nat, Local>,
    closers: map<nat, Closer>,
    q: Q.State,
    stages: map<nat, Stage>,
    limits: L.Limits,
    buckets: L.Buckets,
    store: S.State,
    arrivals: seq<Arrival>,
    ended: map<nat, End>,
    attempts: seq<Attempt>)

  datatype Event =
    | Enter(arrival: Arrival, now: Time)
    | Offer(id: nat)
    | Tick(elapsed: Time)
    | Fire(timer: C.TimerId)
    | Expire(timer: C.TimerId, key: string)
    | Hand(id: nat)
    | Submit(id: nat)
    | Settle
    | Take(worker: nat)
    | Limit(worker: nat, now: Time, victim: L.Key)
    | Check(worker: nat, now: Time)
    | Attempt(worker: nat, result: Result)
    | Forget(worker: nat, diskTakes: bool)
    | Done(worker: nat)
    | Change(op: S.Event)
    | CloseBegin(closer: nat, order: seq<string>)
    | CloserSends(closer: nat)
    | CloseQueue(closer: nat)

  /** Eight workers behind a queue of 1024; a window of zero means pushes are not coalesced. */
  const WORKERS := 8
  const QUEUE_DEPTH := 1024

  function Init(window: Time, clock: Time, storeLimits: S.Limits): State {
    State(window > 0.0, C.Init(window, clock), map[], map[], Q.Init(WORKERS, QUEUE_DEPTH), map[],
          L.PUSH_LIMITS, map[], S.Init(storeLimits), [], map[], [])
  }

  // ------------------------------------------------------------------ what a push becomes

  /** A silent push is a background one from here on, whatever its registration asked for. */
  function AsEntered(a: Arrival, id: nat): Push {
    Push(id, if a.silent then a.registration.(mode := Background) else a.registration, a.payload)
  }

  /** Background pushes go through the coalescer, but for a JMAP one soon after a registration. */
  predicate IsCoalesced(s: State, a: Arrival, now: Time) {
    && s.coalesces
    && (a.silent || a.registration.mode == Background)
    && !(a.lane == JMAP_LANE && now - a.registration.seenAt < FRESH_REGISTRATION)
  }

  function PushOf(l: Local): Push {
    if l.Submitting? then l.job.push else l.push
  }

  function Ended(ended: map<nat, End>, push: Push, outcome: Outcome): map<nat, End> {
    ended[push.id := End(push, outcome)]
  }

  /** The goroutine carrying `id`, if one is, has come to rest. */
  predicate AtRest(s: State, id: nat) {
    id !in s.local && !(s.q.adding.Some? && s.q.adding.value.push.id == id)
  }

  /** What this closer last began to send has been handed on or dropped. */
  predicate Free(s: State, c: Closer) {
    0 < c.sent <= |c.out| ==> AtRest(s, c.out[c.sent - 1].id)
  }

  function Pushes(commits: seq<C.Commit>): (out: seq<Push>)
    ensures |out| == |commits| && forall i :: 0 <= i < |out| ==> out[i] == commits[i].push
  {
    if commits == [] then [] else [commits[0].push] + Pushes(commits[1..])
  }

  predicate IsAt(s: State, w: nat, stage: Stage) {
    w in s.q.running && w in s.stages && s.stages[w] == stage
  }

  function JobOf(s: State, w: nat): Job
    requires w in s.q.running
  {
    s.q.running[w].job
  }

  function LimiterCall(job: Job, now: Time, victim: L.Key): L.Call {
    L.Call(job.registration.token, now, victim)
  }

  // ------------------------------------------------------------------ steps

  ghost predicate Enabled(s: State, e: Event) {
    match e
    case Enter(_, _) => true
    case Offer(id) => id in s.local && s.local[id].Offering?
    case Tick(elapsed) => C.Enabled(s.co, C.Tick(elapsed))
    case Fire(t) => C.Enabled(s.co, C.Fire(t))
    case Expire(t, key) => C.Enabled(s.co, C.Expire(t, key))
    case Hand(id) => id in s.local && s.local[id].Handing?
    case Submit(id) => id in s.local && s.local[id].Submitting? && s.q.adding.None?
    case Settle => s.q.adding.Some?
    case Take(w) => Q.Enabled(s.q, Q.Take(w))
    case Limit(w, now, victim) =>
      && IsAt(s, w, Limiting)
      && (L.Evicts(s.limits, s.buckets, LimiterCall(JobOf(s, w), now, victim)) ==>
            L.CanFall(L.ForgetFull(s.limits, s.buckets, now), victim))
    case Check(w, _) => IsAt(s, w, Checking)
    case Attempt(w, _) => IsAt(s, w, Pushing)
    case Forget(w, _) => IsAt(s, w, Deleting)
    case Done(w) => IsAt(s, w, Finishing)
    case Change(op) => !op.Reopen?
    case CloseBegin(c, order) => c !in s.closers && C.Enabled(s.co, C.Flush(order))
    case CloserSends(c) =>
      c in s.closers && !s.closers[c].done && s.closers[c].sent < |s.closers[c].out| && Free(s, s.closers[c])
    case CloseQueue(c) =>
      && c in s.closers && !s.closers[c].done && s.closers[c].sent == |s.closers[c].out|
      && Free(s, s.closers[c]) && s.q.adding.None?
  }

  function AfterEnter(s: State, a: Arrival, now: Time): State {
    var id := |s.arrivals|;
    var push := AsEntered(a, id);
    s.(arrivals := s.arrivals + [a],
       local := s.local[id :=
         if IsCoalesced(s, a, now) then Offering(push, SlotKey(a.registration.token, a.lane))
         else Submitting(Job(push, push.registration))])
  }

  /** Held, in place of what was held before; or sent on at once. */
  function AfterOffer(s: State, push: Push, key: string): State {
    var leads := C.Out(s.co, C.Offer(key, push)) != [];
    s.(co := C.Next(s.co, C.Offer(key, push)),
       local := if leads then s.local[push.id := Handing(push)] else s.local - {push.id},
       ended := if !leads && key in s.co.slots && s.co.slots[key].held.Some?
                then Ended(s.ended, s.co.slots[key].held.value, Superseded) else s.ended)
  }

  function AfterExpire(s: State, t: C.TimerId, key: string): State {
    var out := C.Out(s.co, C.Expire(t, key));
    s.(co := C.Next(s.co, C.Expire(t, key)),
       local := if out == [] then s.local else s.local[out[0].push.id := Handing(out[0].push)])
  }

  /** The row is read again: a row that is gone is not pushed to, and the push stays silent. */
  function AfterHand(s: State, push: Push): State {
    var token := push.registration.token;
    if token in s.store.table
    then s.(local := s.local[push.id := Submitting(Job(push, s.store.table[token].(mode := Background)))])
    else s.(local := s.local - {push.id}, ended := Ended(s.ended, push, RowGone))
  }

  function AfterSubmit(s: State, job: Job): State {
    s.(local := s.local - {job.push.id},
       q := if s.q.closed then s.q else Q.Next(s.q, Q.Add(job)),
       ended := if s.q.closed then Ended(s.ended, job.push, QueueClosed) else s.ended)
  }

  function AfterSettle(s: State, job: Job): State {
    s.(q := Q.Next(s.q, Q.Settle),
       ended := if Q.HasRoom(s.q) then s.ended else Ended(s.ended, job.push, QueueFull))
  }

  function AfterLimit(s: State, w: nat, job: Job, now: Time, victim: L.Key): State {
    var c := LimiterCall(job, now, victim);
    var allowed := L.Reply(s.limits, s.buckets, c).allowed;
    s.(buckets := L.Next(s.limits, s.buckets, c),
       stages := s.stages[w := if allowed then Checking else Finishing],
       ended := if allowed then s.ended else Ended(s.ended, job.push, RateLimited))
  }

  function AfterCheck(s: State, w: nat, job: Job, now: Time): State {
    var lapsed := job.registration.Lapsed(now);
    s.(stages := s.stages[w := if lapsed then Finishing else Pushing],
       ended := if lapsed then Ended(s.ended, job.push, Lapsed) else s.ended)
  }

  function AttemptOf(job: Job): Attempt {
    Attempt.Attempt(job.push, job.registration, job.registration.mode == Background)
  }

  function AfterAttempt(s: State, w: nat, job: Job, result: Result): State {
    s.(attempts := s.attempts + [AttemptOf(job)],
       stages := s.stages[w := if result == Unregistered then Deleting else Finishing],
       ended := Ended(s.ended, job.push, Attempted(result)))
  }

  ghost function AfterForget(s: State, w: nat, job: Job, diskTakes: bool): State {
    s.(store := S.Next(s.store, S.Delete(job.registration.token, diskTakes)), stages := s.stages[w := Finishing])
  }

  /** `order` is the order the flush meets the slots in; without a coalescer there is no flush. */
  function AfterCloseBegin(s: State, c: nat, order: seq<string>): State {
    var out := if s.coalesces then Pushes(C.Out(s.co, C.Flush(order))) else [];
    s.(co := if s.coalesces then C.Next(s.co, C.Flush(order)) else s.co,
       closers := s.closers[c := Closer(out, 0, false)])
  }

  function AfterCloserSends(s: State, c: nat, closer: Closer): State {
    if closer.sent >= |closer.out| then s
    else
      var push := closer.out[closer.sent];
      s.(local := s.local[push.id := Handing(push)],
         closers := s.closers[c := closer.(sent := closer.sent + 1)])
  }

  function AfterCloseQueue(s: State, c: nat, closer: Closer): State {
    s.(q := Q.Next(s.q, Q.Close), closers := s.closers[c := closer.(done := true)])
  }

  /** Only what `Enabled` allows is a step; elsewhere this says nothing changes. */
  ghost function Next(s: State, e: Event): State {
    match e
    case Enter(a, now) => AfterEnter(s, a, now)
    case Offer(id) =>
      if id in s.local && s.local[id].Offering? then AfterOffer(s, s.local[id].push, s.local[id].key) else s
    case Tick(elapsed) => s.(co := C.Next(s.co, C.Tick(elapsed)))
    case Fire(t) => s.(co := C.Next(s.co, C.Fire(t)))
    case Expire(t, key) => AfterExpire(s, t, key)
    case Hand(id) => if id in s.local && s.local[id].Handing? then AfterHand(s, s.local[id].push) else s
    case Submit(id) => if id in s.local && s.local[id].Submitting? then AfterSubmit(s, s.local[id].job) else s
    case Settle => if s.q.adding.Some? then AfterSettle(s, s.q.adding.value) else s
    case Take(w) => s.(q := Q.Next(s.q, Q.Take(w)), stages := s.stages[w := Limiting])
    case Limit(w, now, victim) => if w in s.q.running then AfterLimit(s, w, JobOf(s, w), now, victim) else s
    case Check(w, now) => if w in s.q.running then AfterCheck(s, w, JobOf(s, w), now) else s
    case Attempt(w, result) => if w in s.q.running then AfterAttempt(s, w, JobOf(s, w), result) else s
    case Forget(w, diskTakes) => if w in s.q.running then AfterForget(s, w, JobOf(s, w), diskTakes) else s
    case Done(w) => s.(q := Q.Next(s.q, Q.Done(w)), stages := s.stages - {w})
    case Change(op) => s.(store := S.Next(s.store, op))
    case CloseBegin(c, order) => AfterCloseBegin(s, c, order)
    case CloserSends(c) => if c in s.closers then AfterCloserSends(s, c, s.closers[c]) else s
    case CloseQueue(c) => if c in s.closers then AfterCloseQueue(s, c, s.closers[c]) else s
  }

  ghost predicate Possible(s: State, es: seq<Event>)
    decreases |es|
  {
    es == [] || (Enabled(s, es[0]) && Possible(Next(s, es[0]), es[1..]))
  }

  ghost function Final(s: State, es: seq<Event>): State
    decreases |es|
  {
    if es == [] then s else Final(Next(s, es[0]), es[1..])
  }

  lemma Nowhere(s: State)
    ensures Possible(s, []) && Final(s, []) == s
  {
  }

  lemma Prepend(s: State, e: Event, rest: seq<Event>)
    requires Enabled(s, e) && Possible(Next(s, e), rest)
    ensures Possible(s, [e] + rest) && Final(s, [e] + rest) == Final(Next(s, e), rest)
  {
    hide Next, Enabled;
    assert ([e] + rest)[1..] == rest;
  }

  lemma TwoSteps(s: State, d: Event, e: Event)
    requires Enabled(s, d) && Enabled(Next(s, d), e)
    ensures Possible(s, [d, e]) && Final(s, [d, e]) == Next(Next(s, d), e)
  {
    hide Enabled, Next;
    Nowhere(Next(Next(s, d), e));
    Prepend(Next(s, d), e, []);
    Prepend(s, d, [e]);
    assert [e] + [] == [e] && [d] + [e] == [d, e];
  }

  lemma {:induction false} RunSplit(s: State, a: seq<Event>, b: seq<Event>)
    requires Possible(s, a + b)
    ensures Possible(s, a) && Possible(Final(s, a), b) && Final(s, a + b) == Final(Final(s, a), b)
    decreases |a|
  {
    hide Next, Enabled;
    if a == [] {
      assert a + b == b;
    } else {
      assert (a + b)[1..] == a[1..] + b;
      RunSplit(Next(s, a[0]), a[1..], b);
    }
  }

  lemma {:induction false} RunJoined(s: State, a: seq<Event>, b: seq<Event>)
    requires Possible(s, a) && Possible(Final(s, a), b)
    ensures Possible(s, a + b) && Final(s, a + b) == Final(Final(s, a), b)
    decreases |a|
  {
    hide Next, Enabled;
    if a == [] {
      assert a + b == b;
    } else {
      assert (a + b)[1..] == a[1..] + b;
      RunJoined(Next(s, a[0]), a[1..], b);
    }
  }
}
