/**
 The bounded delivery queue as a step system. A submission holds the lock across two moments,
 the count going up and the send succeeding or not; workers take from the channel and count down
 without that lock, so their steps come in between.
 */
module DeliveryQueue {
  import opened Types

  /** A job with its place in the order of acceptance. */
  datatype Ticket = Ticket(number: nat, job: Job)

  datatype State = State(
    depth: nat,
    crew: nat,
    jobs: seq<Job>,
    closed: bool,
    adding: Option<Job>,
    taken: nat,
    running: map<nat, Ticket>,
    outstanding: int)

  datatype Event =
    | Add(job: Job)
    | Settle
    | Take(worker: nat)
    | Done(worker: nat)
    | Close

  function Init(crew: nat, depth: nat): State {
    State(depth, crew, [], false, None, 0, map[], 0)
  }

  ghost predicate Enabled(s: State, e: Event) {
    match e
    case Add(_) => s.adding.None?
    case Settle => s.adding.Some?
    case Take(w) => w < s.crew && w !in s.running && s.jobs != []
    case Done(w) => w in s.running
    case Close => s.adding.None?
  }

  predicate HasRoom(s: State) {
    |s.jobs| < s.depth
  }

  function Next(s: State, e: Event): State {
    match e
    case Add(job) => if s.closed then s else s.(adding := Some(job), outstanding := s.outstanding + 1)
    case Settle =>
      if s.adding.None? then s
      else if HasRoom(s) then s.(jobs := s.jobs + [s.adding.value], adding := None)
      else s.(adding := None, outstanding := s.outstanding - 1)
    case Take(w) =>
      if s.jobs == [] then s
      else s.(jobs := s.jobs[1..], taken := s.taken + 1,
              running := s.running[w := Ticket(s.taken, s.jobs[0])])
    case Done(w) => s.(running := s.running - {w}, outstanding := s.outstanding - 1)
    case Close => s.(closed := true)
  }

  // ------------------------------------------------------------------ runs

  ghost predicate Possible(s: State, es: seq<Event>)
    decreases |es|
  {
    es == [] || (Enabled(s, es[0]) && Possible(Next(s, es[0]), es[1..]))
  }

  function Final(s: State, es: seq<Event>): State
    decreases |es|
  {
    if es == [] then s else Final(Next(s, es[0]), es[1..])
  }

  function AcceptedBy(s: State, e: Event): seq<Job> {
    if e.Settle? && s.adding.Some? && HasRoom(s) then [s.adding.value] else []
  }

  function StartedBy(s: State, e: Event): seq<Job> {
    if e.Take? && s.jobs != [] then [s.jobs[0]] else []
  }

  /** The jobs a run accepts, in order. */
  function Accepted(s: State, es: seq<Event>): seq<Job>
    decreases |es|
  {
    if es == [] then [] else AcceptedBy(s, es[0]) + Accepted(Next(s, es[0]), es[1..])
  }

  /** The jobs a run starts, in order. */
  function Started(s: State, es: seq<Event>): seq<Job>
    decreases |es|
  {
    if es == [] then [] else StartedBy(s, es[0]) + Started(Next(s, es[0]), es[1..])
  }

  /** The numbers of the jobs a run finishes. */
  function Finished(s: State, es: seq<Event>): set<nat>
    decreases |es|
  {
    if es == [] then {}
    else
      (if es[0].Done? && es[0].worker in s.running then {s.running[es[0].worker].number} else {})
      + Finished(Next(s, es[0]), es[1..])
  }

  // ------------------------------------------------------------------ the count

  /** The wait group counts what is queued, what runs, and a submission not yet settled. */
  ghost predicate Counted(s: State) {
    && s.outstanding == |s.jobs| + |s.running| + (if s.adding.Some? then 1 else 0)
    && |s.jobs| <= s.depth
    && (forall w :: w in s.running ==> w < s.crew)
    && (s.closed ==> s.adding.None?)
  }

  lemma CountedStep(s: State, e: Event)
    requires Counted(s) && Enabled(s, e)
    ensures Counted(Next(s, e))
    ensures Next(s, e).depth == s.depth && Next(s, e).crew == s.crew
  {
  }

  lemma {:induction false} CountedAlways(s: State, es: seq<Event>)
    requires Counted(s) && Possible(s, es)
    ensures Counted(Final(s, es))
    ensures Final(s, es).depth == s.depth && Final(s, es).crew == s.crew
    decreases |es|
  {
    if es != [] {
      CountedStep(s, es[0]);
      CountedAlways(Next(s, es[0]), es[1..]);
    }
  }

  lemma {:induction false} FewerThan(workers: set<nat>, n: nat)
    requires forall w :: w in workers ==> w < n
    ensures |workers| <= n
  {
    if n > 0 {
      FewerThan(workers - {n - 1}, n - 1);
      assert workers <= (workers - {n - 1}) + {n - 1};
      assert |workers - {n - 1}| >= |workers| - 1;
    } else {
      assert workers == {};
    }
  }

  /** In any run: the count is exact and never negative, and both bounds are kept. */
  lemma NeverOverCommitted(crew: nat, depth: nat, es: seq<Event>)
    requires Possible(Init(crew, depth), es)
    ensures var s := Final(Init(crew, depth), es);
      && 0 <= s.outstanding == |s.jobs| + |s.running| + (if s.adding.Some? then 1 else 0)
      && |s.jobs| <= depth && |s.running| <= crew
  {
    CountedAlways(Init(crew, depth), es);
    var s := Final(Init(crew, depth), es);
    FewerThan(s.running.Keys, crew);
    assert |s.running| == |s.running.Keys|;
  }

  // ------------------------------------------------------------------ order

  lemma QueueStep(s: State, e: Event)
    requires Enabled(s, e)
    ensures s.jobs + AcceptedBy(s, e) == StartedBy(s, e) + Next(s, e).jobs
    ensures Next(s, e).taken == s.taken + |StartedBy(s, e)|
  {
  }

  lemma Regroup<T>(jobs: seq<T>, put: seq<T>, later: seq<T>, got: seq<T>, left: seq<T>, then': seq<T>, end: seq<T>)
    requires jobs + put == got + left && left + later == then' + end
    ensures jobs + (put + later) == (got + then') + end
  {
    assert jobs + (put + later) == (jobs + put) + later == (got + left) + later == got + (left + later);
    assert got + (then' + end) == (got + then') + end;
  }

  /** First in, first out, none lost and none started twice. */
  lemma {:induction false} FirstInFirstOut(s: State, es: seq<Event>)
    requires Possible(s, es)
    ensures s.jobs + Accepted(s, es) == Started(s, es) + Final(s, es).jobs
    ensures Final(s, es).taken == s.taken + |Started(s, es)|
    decreases |es|
  {
    if es == [] {
      assert s.jobs + [] == [] + s.jobs;
    } else {
      var e, s1, rest := es[0], Next(s, es[0]), es[1..];
      QueueStep(s, e);
      FirstInFirstOut(s1, rest);
      Regroup(s.jobs, AcceptedBy(s, e), Accepted(s1, rest), StartedBy(s, e), s1.jobs, Started(s1, rest),
              Final(s, es).jobs);
    }
  }

  /** Nothing is accepted once the queue has closed. */
  lemma {:induction false} ClosedAcceptsNothing(s: State, es: seq<Event>)
    requires Counted(s) && s.closed && Possible(s, es)
    ensures Accepted(s, es) == [] && Final(s, es).closed
    decreases |es|
  {
    if es != [] {
      CountedStep(s, es[0]);
      ClosedAcceptsNothing(Next(s, es[0]), es[1..]);
    }
  }

  // ------------------------------------------------------------------ draining

  ghost predicate IsRunning(running: map<nat, Ticket>, n: nat) {
    exists w :: w in running && running[w].number == n
  }

  /** Every job taken is either finished or with one worker. */
  ghost predicate Ticketed(taken: nat, running: map<nat, Ticket>, finished: set<nat>) {
    && (forall n :: n in finished ==> n < taken)
    && (forall w :: w in running ==> running[w].number < taken && running[w].number !in finished)
    && (forall v, w :: v in running && w in running && running[v].number == running[w].number ==> v == w)
    && (forall n: nat :: n < taken && n !in finished ==> IsRunning(running, n))
  }

  lemma TakeStep(taken: nat, running: map<nat, Ticket>, finished: set<nat>, w: nat, job: Job)
    requires Ticketed(taken, running, finished) && w !in running
    ensures Ticketed(taken + 1, running[w := Ticket(taken, job)], finished)
  {
    var running' := running[w := Ticket(taken, job)];
    forall n: nat | n < taken + 1 && n !in finished ensures IsRunning(running', n) {
      if n == taken {
        assert running'[w].number == n;
      } else {
        var v :| v in running && running[v].number == n;
        assert running'[v].number == n;
      }
    }
  }

  lemma DoneStep(taken: nat, running: map<nat, Ticket>, finished: set<nat>, w: nat)
    requires Ticketed(taken, running, finished) && w in running
    ensures Ticketed(taken, running - {w}, finished + {running[w].number})
  {
    var running' := running - {w};
    forall n: nat | n < taken && n !in finished + {running[w].number} ensures IsRunning(running', n) {
      var v :| v in running && running[v].number == n;
      assert running'[v].number == n;
    }
  }

  lemma {:induction false} TicketedAlways(s: State, es: seq<Event>, finished: set<nat>)
    requires Ticketed(s.taken, s.running, finished) && Possible(s, es)
    ensures Ticketed(Final(s, es).taken, Final(s, es).running, finished + Finished(s, es))
    decreases |es|
  {
    if es == [] {
      assert finished + {} == finished;
    } else {
      var e := es[0];
      var more := if e.Done? then {s.running[e.worker].number} else {};
      match e {
        case Take(w) => TakeStep(s.taken, s.running, finished, w, s.jobs[0]);
        case Done(w) => DoneStep(s.taken, s.running, finished, w);
        case _ =>
      }
      assert e.Done? || finished + more == finished;
      TicketedAlways(Next(s, e), es[1..], finished + more);
      assert finished + Finished(s, es) == finished + more + Finished(Next(s, e), es[1..]);
    }
  }

  /** When the wait can return, every job ever accepted has been started, in order, and finished. */
  lemma WaitMeansDone(crew: nat, depth: nat, es: seq<Event>)
    requires Possible(Init(crew, depth), es)
    requires Final(Init(crew, depth), es).outstanding == 0
    ensures var s := Init(crew, depth);
      && Started(s, es) == Accepted(s, es)
      && (forall n: nat :: n in Finished(s, es) <==> n < |Accepted(s, es)|)
  {
    var s := Init(crew, depth);
    CountedAlways(s, es);
    FirstInFirstOut(s, es);
    TicketedAlways(s, es, {});
    var end := Final(s, es);
    assert end.jobs == [] && end.running == map[];
    assert Started(s, es) + [] == Started(s, es) && [] + Accepted(s, es) == Accepted(s, es);
    assert {} + Finished(s, es) == Finished(s, es);
    assert forall n :: !IsRunning(end.running, n);
  }

  /** Two steps for a job waiting, one for a job running. */
  function Work(s: State): nat {
    2 * |s.jobs| + |s.running|
  }

  ghost predicate ByWorkers(es: seq<Event>) {
    forall i :: 0 <= i < |es| ==> es[i].Take? || es[i].Done?
  }

  lemma {:induction false} WorkersUseUpWork(s: State, es: seq<Event>)
    requires Possible(s, es) && ByWorkers(es)
    ensures Work(Final(s, es)) + |es| == Work(s)
    decreases |es|
  {
    if es != [] {
      assert es[0].Take? || es[0].Done?;
      assert forall i :: 0 <= i < |es[1..]| ==> es[1..][i] == es[i + 1];
      WorkersUseUpWork(Next(s, es[0]), es[1..]);
    }
  }

  /** Workers alone can always bring the count to zero, and no schedule of theirs takes longer. */
  lemma {:induction false} WorkersDrain(s: State) returns (es: seq<Event>)
    requires Counted(s) && s.adding.None? && 0 < s.crew
    ensures Possible(s, es) && ByWorkers(es) && |es| == Work(s)
    ensures Final(s, es).outstanding == 0
    decreases Work(s)
  {
    if s.running == map[] && s.jobs == [] {
      return [];
    }
    var e;
    if w :| w in s.running {
      e := Done(w);
    } else {
      assert s.running == map[];
      e := Take(0);
    }
    CountedStep(s, e);
    assert Work(Next(s, e)) == Work(s) - 1;
    var rest := WorkersDrain(Next(s, e));
    es := [e] + rest;
    assert es[1..] == rest;
  }
}
