/** The delivery queue as the relay holds it: a channel, a closed flag and a wait group. */
module WorkerQueue {
  import opened Types
  import Q = DeliveryQueue

  datatype Verdict = Accepted | QueueFull | QueueClosed

  class WorkerQueue {
    const crew: nat
    const depth: nat
    var jobs: seq<Job>
    var closed: bool
    var outstanding: int
    var taken: nat
    var running: map<nat, Q.Ticket>

    /** Between calls nobody holds the lock, so no submission is half made. */
    ghost function View(): Q.State
      reads this
    {
      Q.State(depth, crew, jobs, closed, None, taken, running, outstanding)
    }

    ghost predicate Valid()
      reads this
    {
      Q.Counted(View())
    }

    constructor (crew: nat, depth: nat)
      ensures Valid() && View() == Q.Init(crew, depth)
    {
      this.crew, this.depth := crew, depth;
      jobs, closed, outstanding, taken, running := [], false, 0, 0, map[];
    }

    /** Never blocks: the job is queued, or the caller is told why not. */
    method Submit(job: Job) returns (verdict: Verdict)
      requires Valid()
      modifies this
      ensures Valid()
      ensures View() == Q.Final(old(View()), SubmitSteps(old(closed), job))
      ensures Q.Possible(old(View()), SubmitSteps(old(closed), job))
      ensures verdict == QueueClosed <==> old(closed)
      ensures verdict == QueueFull <==> !old(closed) && |old(jobs)| == depth
      ensures verdict == Accepted <==> !old(closed) && |old(jobs)| < depth
      ensures jobs == old(jobs) + (if verdict == Accepted then [job] else [])
      ensures outstanding == old(outstanding) + (if verdict == Accepted then 1 else 0)
      ensures closed == old(closed) && running == old(running)
    {
      ghost var s := View();
      ghost var s1 := Q.Next(s, Q.Add(job));
      SubmitUnfolds(s, job);
      if closed {
        return QueueClosed;
      }
      outstanding := outstanding + 1;
      if |jobs| < depth {
        jobs := jobs + [job];
        return Accepted;
      }
      outstanding := outstanding - 1;
      return QueueFull;
    }

    method Close()
      modifies this`closed
      requires Valid()
      ensures Valid() && View() == Q.Next(old(View()), Q.Close)
    {
      if closed {
        return;
      }
      closed := true;
    }

    method Take(worker: nat) returns (job: Job)
      requires Valid() && Q.Enabled(View(), Q.Take(worker))
      modifies this
      ensures Valid() && View() == Q.Next(old(View()), Q.Take(worker))
      ensures worker in running && running[worker].job == job
    {
      job := jobs[0];
      running := running[worker := Q.Ticket(taken, job)];
      jobs, taken := jobs[1..], taken + 1;
    }

    method Done(worker: nat)
      requires Valid() && worker in running
      modifies this
      ensures Valid() && View() == Q.Next(old(View()), Q.Done(worker))
    {
      running := running - {worker};
      outstanding := outstanding - 1;
    }

    /**
     A worker's life from here on, were it alone: it runs what the channel still holds, in order,
     and on a closed queue that brings the wait to an end if nobody else is running.
     */
    method Work(worker: nat) returns (ran: seq<Job>)
      requires Valid() && worker < crew && worker !in running
      modifies this
      ensures Valid() && jobs == [] && running == old(running) && closed == old(closed)
      ensures ran == old(jobs)
      ensures outstanding == |running|
      ensures running == map[] ==> outstanding == 0
    {
      ran := [];
      while jobs != []
        invariant Valid() && running == old(running) && closed == old(closed)
        invariant ran + jobs == old(jobs)
        decreases |jobs|
      {
        ghost var s := View();
        TakeThenDone(s, worker);
        hide Q.Next, Q.Counted;
        var job := Take(worker);
        Done(worker);
        ran := ran + [job];
      }
    }
  }

  /** A job taken and finished leaves the rest of the queue, and nobody running who was not. */
  lemma TakeThenDone(s: Q.State, w: nat)
    requires s.jobs != [] && w !in s.running
    ensures w in Q.Next(s, Q.Take(w)).running && Q.Next(s, Q.Take(w)).running[w].job == s.jobs[0]
    ensures Q.Next(Q.Next(s, Q.Take(w)), Q.Done(w)) ==
      s.(jobs := s.jobs[1..], taken := s.taken + 1, outstanding := s.outstanding - 1)
  {
    assert s.running[w := Q.Ticket(s.taken, s.jobs[0])] - {w} == s.running;
  }

  /** A submission as nobody else sees it: the count, then the send, with no step between. */
  function SubmitSteps(closed: bool, job: Job): seq<Q.Event> {
    if closed then [Q.Add(job)] else [Q.Add(job), Q.Settle]
  }

  /** What a submission comes to: open and with a place free, the job at the end, counted; or nothing changed. */
  lemma SubmitMeans(s: Q.State, job: Job)
    requires s.adding.None?
    ensures Q.Final(s, SubmitSteps(s.closed, job)) ==
      if !s.closed && |s.jobs| < s.depth then s.(jobs := s.jobs + [job], outstanding := s.outstanding + 1) else s
  {
    SubmitUnfolds(s, job);
  }

  lemma SubmitUnfolds(s: Q.State, job: Job)
    requires s.adding.None?
    ensures Q.Possible(s, SubmitSteps(s.closed, job))
    ensures Q.Final(s, SubmitSteps(s.closed, job)) ==
      if s.closed then s
      else Q.Next(Q.Next(s, Q.Add(job)), Q.Settle)
  {
    var add, settle := Q.Add(job), Q.Settle;
    assert [add][1..] == [] && [add, settle][1..] == [settle] && [settle][1..] == [];
    var s1 := Q.Next(s, add);
    if !s.closed {
      assert Q.Possible(s1, [settle]);
      assert Q.Final(s1, [settle]) == Q.Next(s1, settle);
    }
  }
}
