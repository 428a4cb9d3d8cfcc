/** The steps a call of the relay makes when nothing interrupts it, and where they lead. */
module RelayRuns {
  import opened Types
  import opened Pipeline
  import C = Coalescer
  import L = Limiter
  import Q = DeliveryQueue
  import S = Store
  import Lanes
  import RegistrationStore
  import WorkerQueue
  import opened Text

  // ------------------------------------------------------------------ what each call does

  /** Onto the queue, or not. */
  function SubmitSteps(s: State, id: nat): seq<Event> {
    [Submit(id)] + if s.q.closed then [] else [Settle]
  }

  /** The coalescer's way out: the row is read again, and a row that is gone is the end of it. */
  function HandSteps(s: State, push: Push): seq<Event> {
    [Hand(push.id)] + if push.registration.token in s.store.table then SubmitSteps(s, push.id) else []
  }

  function OfferSteps(s: State, push: Push, key: string): seq<Event> {
    [Offer(push.id)] + if C.Out(s.co, C.Offer(key, push)) == [] then [] else HandSteps(s, push)
  }

  function SlotOf(a: Arrival): string {
    Lanes.SlotKey(a.registration.token, a.lane)
  }

  /** In at one end: held, or sent on at once, or past the coalescer. */
  function EnterSteps(s: State, a: Arrival, now: Time): seq<Event> {
    var id := |s.arrivals|;
    [Enter(a, now)]
    + if IsCoalesced(s, a, now) then OfferSteps(s, AsEntered(a, id), SlotOf(a)) else SubmitSteps(s, id)
  }

  function ExpireSteps(s: State, t: C.TimerId, key: string): seq<Event> {
    var out := C.Out(s.co, C.Expire(t, key));
    [Expire(t, key)] + if out == [] then [] else HandSteps(s, out[0].push)
  }

  // ------------------------------------------------------------------ where each call leads

  /** What a call that only queues a carried push leaves: everything else as it was. */
  ghost predicate OnlyQueued(s: State, t: State, id: nat) {
    && t == s.(q := t.q, local := s.local - {id}, ended := t.ended)
    && t.q.closed == s.q.closed && t.q.adding.None?
  }

  lemma SubmitRuns(s: State, job: Job)
    requires job.push.id in s.local && s.local[job.push.id] == Submitting(job) && s.q.adding.None?
    ensures Possible(s, SubmitSteps(s, job.push.id))
    ensures var t := Final(s, SubmitSteps(s, job.push.id));
      && OnlyQueued(s, t, job.push.id)
      && t.q == Q.Final(s.q, WorkerQueue.SubmitSteps(s.q.closed, job))
  {
    var submit := Submit(job.push.id);
    WorkerQueue.SubmitUnfolds(s.q, job);
    assert [submit, Settle][1..] == [Settle] && [Settle][1..] == [] && [submit][1..] == [];
    var s1 := Next(s, submit);
    if s.q.closed {
      assert SubmitSteps(s, job.push.id) == [submit];
      assert Possible(s1, []);
    } else {
      assert SubmitSteps(s, job.push.id) == [submit, Settle];
      var s2 := Next(s1, Settle);
      hide Q.Next, Next, Enabled;
      assert Possible(s1, [Settle]) && Final(s1, [Settle]) == s2;
    }
  }

  /** The row as it stands is what is queued, silent whatever it says. */
  function HeldJob(s: State, push: Push): Job
    requires push.registration.token in s.store.table
  {
    Job(push, s.store.table[push.registration.token].(mode := Background))
  }

  lemma HeldJobIs(s: State, push: Push)
    requires push.registration.token in s.store.table
    ensures HeldJob(s, push) == Job(push, s.store.table[push.registration.token].(mode := Background))
    ensures HeldJob(s, push).push == push
  {
  }

  lemma HandBegins(s: State, push: Push)
    requires push.id in s.local && s.local[push.id] == Handing(push)
    ensures Enabled(s, Hand(push.id))
    ensures var s1 := Next(s, Hand(push.id));
      if push.registration.token in s.store.table
      then s1 == s.(local := s.local[push.id := Submitting(HeldJob(s, push))])
      else s1 == s.(local := s.local - {push.id}, ended := s1.ended)
  {
  }

  lemma OnlyQueuedFrom(s: State, l: Local, t: State, id: nat)
    requires OnlyQueued(s.(local := s.local[id := l]), t, id)
    ensures OnlyQueued(s, t, id)
  {
    assert s.local[id := l] - {id} == s.local - {id};
  }

  lemma HandRuns(s: State, push: Push)
    requires push.id in s.local && s.local[push.id] == Handing(push) && s.q.adding.None?
    ensures Possible(s, HandSteps(s, push))
    ensures OnlyQueued(s, Final(s, HandSteps(s, push)), push.id)
    ensures Final(s, HandSteps(s, push)).q ==
      if push.registration.token in s.store.table
      then Q.Final(s.q, WorkerQueue.SubmitSteps(s.q.closed, HeldJob(s, push))) else s.q
    ensures var s1 := Next(s, Hand(push.id));
      Final(s, HandSteps(s, push)) ==
        if push.registration.token in s.store.table then Final(s1, SubmitSteps(s1, push.id)) else s1
  {
    HandBegins(s, push);
    var s1 := Next(s, Hand(push.id));
    hide Next, Enabled, Q.Final, WorkerQueue.SubmitSteps;
    if push.registration.token in s.store.table {
      SubmitRuns(s1, HeldJob(s, push));
      Prepend(s, Hand(push.id), SubmitSteps(s1, push.id));
      hide OnlyQueued, HeldJob, Possible, Final;
      OnlyQueuedFrom(s, Submitting(HeldJob(s, push)), Final(s1, SubmitSteps(s1, push.id)), push.id);
    } else {
      Prepend(s, Hand(push.id), []);
    }
  }

  lemma OfferBegins(s: State, push: Push, key: string)
    requires push.id in s.local && s.local[push.id] == Offering(push, key)
    ensures Enabled(s, Offer(push.id)) && Next(s, Offer(push.id)) == AfterOffer(s, push, key)
    ensures var s1 := AfterOffer(s, push, key);
      && s1.co == C.Next(s.co, C.Offer(key, push))
      && if C.Out(s.co, C.Offer(key, push)) == []
         then s1 == s.(co := s1.co, local := s.local - {push.id}, ended := s1.ended)
         else s1 == s.(co := s1.co, local := s.local[push.id := Handing(push)])
  {
    hide C.Next;
  }

  /** After an offer: the push is held, or has been queued, and no goroutine carries it. */
  ghost predicate Offered(s: State, t: State, id: nat) {
    && t == s.(co := t.co, q := t.q, local := s.local - {id}, ended := t.ended)
    && t.q.closed == s.q.closed && t.q.adding.None?
  }

  lemma OfferRuns(s: State, push: Push, key: string)
    requires push.id in s.local && s.local[push.id] == Offering(push, key) && s.q.adding.None?
    ensures Possible(s, OfferSteps(s, push, key)) && Offered(s, Final(s, OfferSteps(s, push, key)), push.id)
    ensures var s1 := AfterOffer(s, push, key);
      Final(s, OfferSteps(s, push, key)) ==
        if C.Out(s.co, C.Offer(key, push)) == [] then s1 else Final(s1, HandSteps(s1, push))
  {
    OfferBegins(s, push, key);
    var s1 := AfterOffer(s, push, key);
    hide Next, Enabled, AfterOffer, C.Next, C.Out;
    if C.Out(s.co, C.Offer(key, push)) == [] {
      Prepend(s, Offer(push.id), []);
    } else {
      HandRuns(s1, push);
      assert HandSteps(s1, push) == HandSteps(s, push);
      Prepend(s, Offer(push.id), HandSteps(s1, push));
      hide HandSteps;
    }
  }

  lemma EnterBegins(s: State, a: Arrival, now: Time)
    ensures Enabled(s, Enter(a, now)) && Next(s, Enter(a, now)) == AfterEnter(s, a, now)
  {
  }

  lemma CarriedIn(s: State, a: Arrival, now: Time)
    ensures var s1, push := AfterEnter(s, a, now), AsEntered(a, |s.arrivals|);
      push.id in s1.local && s1.local[push.id] ==
        if IsCoalesced(s, a, now) then Offering(push, SlotOf(a)) else Submitting(Job(push, push.registration))
  {
  }

  /** After a call of `enqueueSilently`: one more arrival, and no goroutine carries it. */
  ghost predicate Entered(s: State, t: State, a: Arrival) {
    && t == s.(arrivals := s.arrivals + [a], co := t.co, q := t.q, local := s.local - {|s.arrivals|}, ended := t.ended)
    && t.q.closed == s.q.closed && t.q.adding.None?
  }

  lemma OfferedIsEntered(s: State, a: Arrival, now: Time, t: State)
    requires Offered(AfterEnter(s, a, now), t, |s.arrivals|) || OnlyQueued(AfterEnter(s, a, now), t, |s.arrivals|)
    ensures Entered(s, t, a)
  {
    var s1, id := AfterEnter(s, a, now), |s.arrivals|;
    assert s1.local - {id} == s.local - {id};
  }

  lemma EnterRuns(s: State, a: Arrival, now: Time)
    requires s.q.adding.None?
    ensures Possible(s, EnterSteps(s, a, now)) && Entered(s, Final(s, EnterSteps(s, a, now)), a)
    ensures var s1, push := AfterEnter(s, a, now), AsEntered(a, |s.arrivals|);
      Final(s, EnterSteps(s, a, now)) ==
        if IsCoalesced(s, a, now) then Final(s1, OfferSteps(s1, push, SlotOf(a)))
        else Final(s1, SubmitSteps(s1, push.id))
  {
    EnterBegins(s, a, now);
    var s1, push := AfterEnter(s, a, now), AsEntered(a, |s.arrivals|);
    if IsCoalesced(s, a, now) {
      OfferRuns(s1, push, SlotOf(a));
      assert OfferSteps(s1, push, SlotOf(a)) == OfferSteps(s, push, SlotOf(a));
      hide Next, Enabled, OfferSteps, C.Out, IsCoalesced, Offered, Entered, AfterEnter;
      Prepend(s, Enter(a, now), OfferSteps(s1, push, SlotOf(a)));
      OfferedIsEntered(s, a, now, Final(s1, OfferSteps(s1, push, SlotOf(a))));
    } else {
      SubmitRuns(s1, Job(push, push.registration));
      assert SubmitSteps(s1, push.id) == SubmitSteps(s, push.id);
      hide Next, Enabled, SubmitSteps, IsCoalesced, OnlyQueued, Entered, AfterEnter;
      Prepend(s, Enter(a, now), SubmitSteps(s1, push.id));
      OfferedIsEntered(s, a, now, Final(s1, SubmitSteps(s1, push.id)));
    }
  }

  /**
   A push is offered to a slot exactly if pushes are coalesced, it goes out in the background, and
   it is not a JMAP push within two minutes of its registration; it goes straight to the queue
   exactly if not. The slot is its registration's, for the lane it came by.
   */
  lemma OfferedExactlyIf(s: State, a: Arrival, now: Time)
    ensures var id, es := |s.arrivals|, EnterSteps(s, a, now);
      var offered := s.coalesces && (a.silent || a.registration.mode == Background)
                     && (a.lane != "" || 120.0 <= now - a.registration.seenAt);
      && |es| > 1 && es[0] == Enter(a, now)
      && es[1] == (if offered then Event.Offer(id) else Event.Submit(id))
      && id in Next(s, Enter(a, now)).local
      && Next(s, Enter(a, now)).local[id] ==
         var push := Push(id, if a.silent then a.registration.(mode := Background) else a.registration, a.payload);
         if offered then Offering(push, a.registration.token + ['\0'] + a.lane)
         else Submitting(Job(push, push.registration))
  {
    assert Next(s, Enter(a, now)) == AfterEnter(s, a, now);
    hide Next, HandSteps, C.Out;
  }

  lemma ExpireBegins(s: State, t: C.TimerId, key: string)
    requires C.Enabled(s.co, C.Expire(t, key))
    ensures Enabled(s, Expire(t, key)) && Next(s, Expire(t, key)) == AfterExpire(s, t, key)
  {
  }

  lemma ExpireRuns(s: State, t: C.TimerId, key: string)
    requires C.Enabled(s.co, C.Expire(t, key)) && s.q.adding.None?
    ensures Possible(s, ExpireSteps(s, t, key))
    ensures var s1, out := AfterExpire(s, t, key), C.Out(s.co, C.Expire(t, key));
      Final(s, ExpireSteps(s, t, key)) == if out == [] then s1 else Final(s1, HandSteps(s1, out[0].push))
  {
    ExpireBegins(s, t, key);
    var s1, out := AfterExpire(s, t, key), C.Out(s.co, C.Expire(t, key));
    hide Next, Enabled, C.Next, C.Out, C.Enabled;
    if out == [] {
      Prepend(s, Expire(t, key), []);
    } else {
      HandRuns(s1, out[0].push);
      assert HandSteps(s1, out[0].push) == HandSteps(s, out[0].push);
      Prepend(s, Expire(t, key), HandSteps(s1, out[0].push));
    }
  }

  // ------------------------------------------------------------------ the Gmail fan-out

  /** What one watching device is told: silently, in its own terms, and by its mailbox's own lane. */
  function GmailArrival(row: Registration, address: string, historyId: string): Arrival {
    var tag := RegistrationStore.TagFor(row.gmailAccounts, address);
    Arrival(row, Gmail(historyId, if tag == "" then None else Some(tag)), true, Lanes.GmailLane(address))
  }

  function FanOut(rows: seq<Registration>, address: string, historyId: string): (arrivals: seq<Arrival>)
    ensures |arrivals| == |rows|
    ensures forall i :: 0 <= i < |rows| ==> arrivals[i] == GmailArrival(rows[i], address, historyId)
  {
    if rows == [] then []
    else FanOut(rows[..|rows| - 1], address, historyId) + [GmailArrival(rows[|rows| - 1], address, historyId)]
  }

  /** One entry after another, each from where the last one left off. */
  ghost function FanOutSteps(s: State, rows: seq<Registration>, address: string, historyId: string, now: Time)
    : seq<Event>
  {
    if rows == [] then []
    else
      var before := FanOutSteps(s, rows[..|rows| - 1], address, historyId, now);
      before + EnterSteps(Final(s, before), GmailArrival(rows[|rows| - 1], address, historyId), now)
  }

  lemma FanOutStepsOneMore(s: State, rows: seq<Registration>, n: nat, address: string, historyId: string, now: Time)
    requires n < |rows|
    ensures var before := FanOutSteps(s, rows[..n], address, historyId, now);
      FanOutSteps(s, rows[..n + 1], address, historyId, now)
      == before + EnterSteps(Final(s, before), GmailArrival(rows[n], address, historyId), now)
  {
    assert rows[..n + 1][..n] == rows[..n];
    hide EnterSteps, Final, GmailArrival;
  }

  lemma FanOutOneMore(s: State, es: seq<Event>, m: State, rows: seq<Registration>, n: nat, address: string,
                      historyId: string, now: Time)
    requires n < |rows| && Possible(s, es) && Final(s, es) == m && m.q.adding.None?
    requires m.arrivals == s.arrivals + FanOut(rows[..n], address, historyId)
    ensures var a := GmailArrival(rows[n], address, historyId);
      var t := Final(m, EnterSteps(m, a, now));
      && Possible(s, es + EnterSteps(m, a, now)) && Final(s, es + EnterSteps(m, a, now)) == t
      && t.arrivals == s.arrivals + FanOut(rows[..n + 1], address, historyId)
      && t.store == m.store
  {
    var a := GmailArrival(rows[n], address, historyId);
    EnterRuns(m, a, now);
    RunJoined(s, es, EnterSteps(m, a, now));
    hide EnterSteps, Possible, Final, GmailArrival, IsCoalesced;
    assert rows[..n + 1][..n] == rows[..n];
  }

  lemma NoRows(s: State, address: string, historyId: string, now: Time)
    ensures FanOutSteps(s, [], address, historyId, now) == [] && FanOut([], address, historyId) == []
    ensures Possible(s, []) && Final(s, []) == s && s.arrivals == s.arrivals + []
  {
  }

  /**
   What one row is told of a notification: silently, whatever its mode; the cursor as it came; and
   as a tag that of the first of its accounts with the address, if there is one and it has one.
   */
  ghost predicate Told(a: Arrival, row: Registration, address: string, historyId: string) {
    && a.silent && a.registration == row && a.lane == "gmail" + ['\0'] + Normalise(address)
    && a.payload.Gmail? && a.payload.historyId == historyId
    && (a.payload.tag.Some? ==> a.payload.tag.value != "")
    && (forall i :: FirstWith(row.gmailAccounts, Normalise(address), i) ==>
          a.payload.tag == if row.gmailAccounts[i].tag == "" then None else Some(row.gmailAccounts[i].tag))
    && ((forall i :: !FirstWith(row.gmailAccounts, Normalise(address), i)) ==> a.payload.tag == None)
  }

  ghost predicate FirstWith(accounts: seq<GmailAccount>, address: string, i: int) {
    && 0 <= i < |accounts| && accounts[i].address == address
    && forall j :: 0 <= j < i ==> accounts[j].address != address
  }

  lemma {:induction false} TagOfTheFirst(accounts: seq<GmailAccount>, address: string)
    ensures forall i :: FirstWith(accounts, Normalise(address), i) ==>
      RegistrationStore.TagFor(accounts, address) == accounts[i].tag
    ensures (forall i :: !FirstWith(accounts, Normalise(address), i)) ==>
      RegistrationStore.TagFor(accounts, address) == ""
  {
    hide Normalise;
    var n := Normalise(address);
    if i :| FirstWith(accounts, n, i) {
      forall j | FirstWith(accounts, n, j) ensures i == j {
      }
      RegistrationStore.TagIsTheFirstMatch(accounts, address, i);
    } else {
      NoneWith(accounts, n, |accounts|);
      RegistrationStore.NoMatchNoTag(accounts, address);
    }
  }

  lemma {:induction false} NoneWith(accounts: seq<GmailAccount>, address: string, n: nat)
    requires n <= |accounts| && forall i :: !FirstWith(accounts, address, i)
    ensures forall j :: 0 <= j < n ==> accounts[j].address != address
  {
    if n > 0 {
      NoneWith(accounts, address, n - 1);
      assert !FirstWith(accounts, address, n - 1);
    }
  }

  /** A fan-out tells each row so, in the order of the rows, and nobody else. */
  lemma EachIsTold(rows: seq<Registration>, address: string, historyId: string)
    ensures |FanOut(rows, address, historyId)| == |rows|
    ensures forall i :: 0 <= i < |rows| ==> Told(FanOut(rows, address, historyId)[i], rows[i], address, historyId)
  {
    forall i | 0 <= i < |rows| ensures Told(FanOut(rows, address, historyId)[i], rows[i], address, historyId) {
      TagOfTheFirst(rows[i].gmailAccounts, address);
      assert FanOut(rows, address, historyId)[i] == GmailArrival(rows[i], address, historyId);
      hide FanOut, RegistrationStore.TagFor, Normalise, FirstWith;
    }
  }

  /** Every device told has its address watched, and no two mailboxes' pushes share a slot. */
  lemma FanOutIsPerMailbox(rows: seq<Registration>, address: string, historyId: string, i: nat,
                           others: seq<Registration>, other: string, cursor: string, j: nat)
    requires i < |rows| && j < |others|
    requires Lanes.ValidToken(rows[i].token) && Lanes.ValidToken(others[j].token)
    ensures var a, b := FanOut(rows, address, historyId)[i], FanOut(others, other, cursor)[j];
      && (SlotOf(a) == SlotOf(b) <==> rows[i].token == others[j].token && Normalise(address) == Normalise(other))
      && SlotOf(a) != Lanes.SlotKey(others[j].token, Lanes.JMAP_LANE)
  {
    Lanes.SlotsAreApart(rows[i].token, Lanes.GmailLane(address), others[j].token, Lanes.GmailLane(other));
    Lanes.SlotsAreApart(rows[i].token, Lanes.GmailLane(address), others[j].token, Lanes.JMAP_LANE);
    Lanes.LanesAreApart(address, other);
  }

  // ------------------------------------------------------------------ a worker's part

  /** Put to Apple; and a device Apple says is gone is forgotten. */
  function AttemptSteps(w: nat, result: Result, diskTakes: bool): seq<Event> {
    [Event.Attempt(w, result)] + if result == Unregistered then [Forget(w, diskTakes)] else []
  }

  function CheckSteps(job: Job, w: nat, now: Time, result: Result, diskTakes: bool): seq<Event> {
    [Check(w, now)] + if job.registration.Lapsed(now) then [] else AttemptSteps(w, result, diskTakes)
  }

  predicate Allows(s: State, job: Job, now: Time, victim: L.Key) {
    L.Reply(s.limits, s.buckets, LimiterCall(job, now, victim)).allowed
  }

  /** Limited, or lapsed, or put to Apple. */
  function DeliverSteps(s: State, job: Job, w: nat, asked: Time, victim: L.Key, checked: Time, result: Result,
                        diskTakes: bool): seq<Event>
  {
    [Limit(w, asked, victim)]
    + if Allows(s, job, asked, victim) then CheckSteps(job, w, checked, result, diskTakes) else []
  }

  /** What a worker leaves when it is done deciding. */
  ghost predicate Worked(s: State, t: State, w: nat, tried: bool) {
    && t == s.(stages := t.stages, attempts := t.attempts, ended := t.ended, store := t.store)
    && IsAt(t, w, Finishing)
    && t.attempts == s.attempts + if tried && w in s.q.running then [AttemptOf(JobOf(s, w))] else []
  }

  ghost function StoreAfter(s: S.State, job: Job, forget: bool, diskTakes: bool): S.State {
    if forget then S.Next(s, S.Delete(job.registration.token, diskTakes)) else s
  }

  lemma AttemptBegins(s: State, w: nat, result: Result, diskTakes: bool)
    requires IsAt(s, w, Pushing)
    ensures Enabled(s, Event.Attempt(w, result))
    ensures var s1 := Next(s, Event.Attempt(w, result));
      if result == Unregistered then
        Enabled(s1, Forget(w, diskTakes)) && Worked(s, Next(s1, Forget(w, diskTakes)), w, true)
        && Next(s1, Forget(w, diskTakes)).store == StoreAfter(s.store, JobOf(s, w), true, diskTakes)
      else Worked(s, s1, w, true) && s1.store == s.store
  {
    hide S.Next;
  }

  lemma AttemptRuns(s: State, w: nat, result: Result, diskTakes: bool)
    requires IsAt(s, w, Pushing)
    ensures Possible(s, AttemptSteps(w, result, diskTakes))
    ensures var t := Final(s, AttemptSteps(w, result, diskTakes));
      && Worked(s, t, w, true)
      && t.store == StoreAfter(s.store, JobOf(s, w), result == Unregistered, diskTakes)
  {
    AttemptBegins(s, w, result, diskTakes);
    var s1 := Next(s, Event.Attempt(w, result));
    hide Next, Enabled, Worked, S.Next;
    if result == Unregistered {
      Prepend(s1, Forget(w, diskTakes), []);
      assert [Forget(w, diskTakes)] + [] == [Forget(w, diskTakes)];
      Prepend(s, Event.Attempt(w, result), [Forget(w, diskTakes)]);
    } else {
      Prepend(s, Event.Attempt(w, result), []);
    }
  }

  lemma CheckRuns(s: State, w: nat, now: Time, result: Result, diskTakes: bool)
    requires IsAt(s, w, Checking)
    ensures Possible(s, CheckSteps(JobOf(s, w), w, now, result, diskTakes))
    ensures var t := Final(s, CheckSteps(JobOf(s, w), w, now, result, diskTakes));
      var tried := !JobOf(s, w).registration.Lapsed(now);
      && Worked(s, t, w, tried)
      && t.store == StoreAfter(s.store, JobOf(s, w), tried && result == Unregistered, diskTakes)
  {
    var s1 := Next(s, Check(w, now));
    assert s1 == AfterCheck(s, w, JobOf(s, w), now) && Enabled(s, Check(w, now));
    hide Next, Enabled, S.Next;
    if JobOf(s, w).registration.Lapsed(now) {
      Prepend(s, Check(w, now), []);
    } else {
      AttemptRuns(s1, w, result, diskTakes);
      Prepend(s, Check(w, now), AttemptSteps(w, result, diskTakes));
      hide AttemptSteps, Possible, Final;
    }
  }

  lemma WorkedFrom(s: State, stages: map<nat, Stage>, ended: map<nat, End>, t: State, w: nat, tried: bool)
    requires Worked(s.(stages := stages, ended := ended), t, w, tried)
    ensures Worked(s, t, w, tried)
  {
  }

  /** The state with the limiter as a call leaves it. */
  function Spent(s: State, job: Job, now: Time, victim: L.Key): State {
    s.(buckets := L.Next(s.limits, s.buckets, LimiterCall(job, now, victim)))
  }

  lemma LimitBegins(s: State, w: nat, now: Time, victim: L.Key)
    requires Enabled(s, Limit(w, now, victim))
    ensures var s1, job := Next(s, Limit(w, now, victim)), JobOf(s, w);
      && s1 == Spent(s, job, now, victim).(stages := s1.stages, ended := s1.ended)
      && IsAt(s1, w, if Allows(s, job, now, victim) then Checking else Finishing)
      && JobOf(s1, w) == job
  {
    hide L.Next, L.Reply, L.Evicts;
  }

  /** Where a delivery leads: the limiter as it leaves it, and the rest as the worker does. */
  lemma DeliverRuns(s: State, w: nat, asked: Time, victim: L.Key, checked: Time, result: Result, diskTakes: bool)
    requires Enabled(s, Limit(w, asked, victim))
    ensures var job := JobOf(s, w);
      var es := DeliverSteps(s, job, w, asked, victim, checked, result, diskTakes);
      var t, tried := Final(s, es), Allows(s, job, asked, victim) && !job.registration.Lapsed(checked);
      && Possible(s, es) && Worked(Spent(s, job, asked, victim), t, w, tried)
      && t.store == StoreAfter(s.store, job, tried && result == Unregistered, diskTakes)
  {
    var e, job := Limit(w, asked, victim), JobOf(s, w);
    var s1 := Next(s, e);
    LimitBegins(s, w, asked, victim);
    hide Next, Enabled, S.Next, Allows, StoreAfter, L.Next;
    if Allows(s, job, asked, victim) {
      CheckRuns(s1, w, checked, result, diskTakes);
      var more := CheckSteps(job, w, checked, result, diskTakes);
      Prepend(s, e, more);
      hide CheckSteps, Possible, Final, Worked;
      WorkedFrom(Spent(s, job, asked, victim), s1.stages, s1.ended, Final(s1, more), w,
                 !job.registration.Lapsed(checked));
    } else {
      Prepend(s, e, []);
    }
  }

  function Started(s: State, w: nat): State {
    s.(q := Q.Next(s.q, Q.Take(w)), stages := s.stages[w := Limiting])
  }

  function Stopped(s: State, w: nat): State {
    s.(q := Q.Next(s.q, Q.Done(w)), stages := s.stages - {w})
  }

  /** What a delivery puts to Apple, if it gets that far. */
  function Sent(s: State, job: Job, asked: Time, victim: L.Key, checked: Time): Option<Attempt> {
    if Allows(s, job, asked, victim) && !job.registration.Lapsed(checked) then Some(AttemptOf(job)) else None
  }

  lemma SentIs(s: State, job: Job, asked: Time, victim: L.Key, checked: Time)
    ensures Sent(s, job, asked, victim, checked) ==
      if Allows(s, job, asked, victim) && !job.registration.Lapsed(checked) then Some(AttemptOf(job)) else None
  {
  }

  /**
   Something is put to Apple exactly if the limiter allows it and the row, if its proof expires at
   all, has not expired: that push, for that row, in the background exactly if the row says so.
   */
  lemma AttemptedExactlyIf(s: State, job: Job, asked: Time, victim: L.Key, checked: Time)
    ensures var sent, row := Sent(s, job, asked, victim, checked), job.registration;
      && (sent.Some? <==>
            && L.Reply(s.limits, s.buckets, L.Call(row.token, asked, victim)).allowed
            && (row.expiresAt == 0.0 || checked < row.expiresAt))
      && (sent.Some? ==> sent.value == Attempt.Attempt(job.push, row, row.mode == Background))
  {
    hide L.Reply;
  }

  /** A worker's turn: a job taken, delivered, and counted down. */
  function WorkSteps(s: State, w: nat, asked: Time, victim: L.Key, checked: Time, result: Result, diskTakes: bool)
    : seq<Event>
    requires s.q.jobs != []
  {
    [Take(w)] + (DeliverSteps(s, s.q.jobs[0], w, asked, victim, checked, result, diskTakes) + [Done(w)])
  }

  lemma TakeBegins(s: State, w: nat)
    requires Q.Enabled(s.q, Q.Take(w))
    ensures Enabled(s, Take(w)) && Next(s, Take(w)) == Started(s, w)
    ensures IsAt(Started(s, w), w, Limiting) && JobOf(Started(s, w), w) == s.q.jobs[0]
  {
  }

  lemma DoneEnds(s: State, w: nat)
    requires IsAt(s, w, Finishing)
    ensures Enabled(s, Done(w)) && Next(s, Done(w)) == Stopped(s, w)
  {
  }

  lemma WorkRuns(s: State, w: nat, asked: Time, victim: L.Key, checked: Time, result: Result, diskTakes: bool)
    requires Q.Enabled(s.q, Q.Take(w)) && Enabled(Started(s, w), Limit(w, asked, victim))
    ensures var s1, es := Started(s, w), WorkSteps(s, w, asked, victim, checked, result, diskTakes);
      var t := Final(s1, DeliverSteps(s1, s.q.jobs[0], w, asked, victim, checked, result, diskTakes));
      && Sent(s1, s.q.jobs[0], asked, victim, checked) == Sent(s, s.q.jobs[0], asked, victim, checked)
      && w in t.q.running && t.q == s1.q && Possible(s, es) && Final(s, es) == Stopped(t, w)
  {
    TakeBegins(s, w);
    var s1 := Started(s, w);
    DeliverRuns(s1, w, asked, victim, checked, result, diskTakes);
    var more := DeliverSteps(s1, s.q.jobs[0], w, asked, victim, checked, result, diskTakes);
    assert more == DeliverSteps(s, s.q.jobs[0], w, asked, victim, checked, result, diskTakes);
    var t := Final(s1, more);
    DoneEnds(t, w);
    hide Next, Enabled, DeliverSteps, Started, Stopped, Worked, StoreAfter, Allows;
    Prepend(t, Done(w), []);
    assert [Done(w)] + [] == [Done(w)];
    RunJoined(s1, more, [Done(w)]);
    Prepend(s, Take(w), more + [Done(w)]);
  }

  // ------------------------------------------------------------------ shutdown

  /** One after another, each gone before the next is begun. */
  function SendSteps(s: State, closer: nat, out: seq<Push>): seq<Event> {
    if out == [] then []
    else SendSteps(s, closer, out[..|out| - 1]) + ([CloserSends(closer)] + HandSteps(s, out[|out| - 1]))
  }

  function TakenBy(s: State, order: seq<string>): seq<Push> {
    if s.coalesces then Pushes(C.Out(s.co, C.Flush(order))) else []
  }

  function CloseSteps(s: State, closer: nat, order: seq<string>): seq<Event> {
    [CloseBegin(closer, order)] + SendSteps(s, closer, TakenBy(s, order)) + [CloseQueue(closer)]
  }

  /** A closer part of the way through what it has to send. */
  ghost predicate Sending(s: State, t: State, closer: nat, out: seq<Push>, n: nat) {
    && n <= |out|
    && t == s.(q := t.q, local := t.local, ended := t.ended, closers := s.closers[closer := Closer(out, n, false)])
    && t.q.closed == s.q.closed && t.q.adding.None?
    && (0 < n ==> out[n - 1].id !in t.local)
  }

  lemma SendBegins(s: State, m: State, closer: nat, out: seq<Push>, n: nat)
    requires Sending(s, m, closer, out, n) && n < |out|
    ensures Enabled(m, CloserSends(closer))
    ensures Next(m, CloserSends(closer)) ==
      m.(local := m.local[out[n].id := Handing(out[n])], closers := m.closers[closer := Closer(out, n + 1, false)])
  {
  }

  lemma HandStepsSame(s: State, t: State, push: Push)
    requires s.store == t.store && s.q.closed == t.q.closed
    ensures HandSteps(s, push) == HandSteps(t, push)
  {
  }

  lemma SentOne(s: State, m: State, t: State, closer: nat, out: seq<Push>, n: nat)
    requires Sending(s, m, closer, out, n) && n < |out|
    requires OnlyQueued(Next(m, CloserSends(closer)), t, out[n].id)
    ensures Sending(s, t, closer, out, n + 1)
  {
    SendBegins(s, m, closer, out, n);
    hide Next;
  }

  /** One more goes out. */
  lemma SendsOneMore(s: State, es: seq<Event>, m: State, closer: nat, out: seq<Push>, n: nat)
    requires Sending(s, m, closer, out, n) && n < |out| && Possible(s, es) && Final(s, es) == m
    ensures var m1 := Next(m, CloserSends(closer));
      var more := [CloserSends(closer)] + HandSteps(s, out[n]);
      && HandSteps(s, out[n]) == HandSteps(m1, out[n])
      && Possible(s, es + more) && Final(s, es + more) == Final(m1, HandSteps(m1, out[n]))
      && Sending(s, Final(m1, HandSteps(m1, out[n])), closer, out, n + 1)
  {
    SendBegins(s, m, closer, out, n);
    var m1 := Next(m, CloserSends(closer));
    assert m1.store == s.store && m1.q.closed == s.q.closed && m1.q.adding.None?;
    hide *;
    HandStepsSame(s, m1, out[n]);
    HandRuns(m1, out[n]);
    SentOne(s, m, Final(m1, HandSteps(m1, out[n])), closer, out, n);
    Prepend(m, CloserSends(closer), HandSteps(m1, out[n]));
    RunJoined(s, es, [CloserSends(closer)] + HandSteps(m1, out[n]));
  }

  lemma SendStepsOneMore(s: State, closer: nat, out: seq<Push>, n: nat)
    requires n < |out|
    ensures SendSteps(s, closer, out[..n + 1]) ==
      SendSteps(s, closer, out[..n]) + ([CloserSends(closer)] + HandSteps(s, out[n]))
  {
    assert out[..n + 1][..n] == out[..n];
  }

  /** What sending takes depends on the rows and the queue alone. */
  lemma {:induction false} SendStepsSame(s: State, t: State, closer: nat, out: seq<Push>)
    requires s.store == t.store && s.q.closed == t.q.closed
    ensures SendSteps(s, closer, out) == SendSteps(t, closer, out)
  {
    if out != [] {
      SendStepsSame(s, t, closer, out[..|out| - 1]);
    }
  }

  lemma CloseBegins(s: State, c: nat, order: seq<string>)
    requires c !in s.closers && C.Enabled(s.co, C.Flush(order)) && s.q.adding.None?
    ensures Enabled(s, CloseBegin(c, order)) && Next(s, CloseBegin(c, order)) == AfterCloseBegin(s, c, order)
    ensures var s1 := AfterCloseBegin(s, c, order);
      && s1.store == s.store && s1.q == s.q
      && Sending(s1, s1, c, TakenBy(s, order), 0)
  {
    hide C.Next, C.Out, C.Enabled;
  }

  /** Once all that was taken is sent, the queue is closed. */
  lemma CloseEnds(s: State, c: nat, order: seq<string>, m: State)
    requires c !in s.closers && C.Enabled(s.co, C.Flush(order)) && s.q.adding.None?
    requires var s1, out := AfterCloseBegin(s, c, order), TakenBy(s, order);
      && Sending(s1, m, c, out, |out|)
      && Possible(s1, SendSteps(s1, c, out)) && Final(s1, SendSteps(s1, c, out)) == m
    ensures c in m.closers && Possible(s, CloseSteps(s, c, order))
    ensures Final(s, CloseSteps(s, c, order)) == AfterCloseQueue(m, c, m.closers[c])
  {
    var s1, sends := AfterCloseBegin(s, c, order), SendSteps(s, c, TakenBy(s, order));
    CloseBegins(s, c, order);
    SendStepsSame(s, s1, c, TakenBy(s, order));
    LastSent(s1, m, c, TakenBy(s, order));
    hide Next, Enabled, Sending, AfterCloseBegin, AfterCloseQueue, TakenBy, SendSteps;
    Prepend(m, CloseQueue(c), []);
    assert [CloseQueue(c)] + [] == [CloseQueue(c)];
    RunJoined(s1, sends, [CloseQueue(c)]);
    Prepend(s, CloseBegin(c, order), sends + [CloseQueue(c)]);
    assert CloseSteps(s, c, order) == [CloseBegin(c, order)] + (sends + [CloseQueue(c)]);
  }

  /** All that was taken is sent, one after another. */
  lemma {:induction false} SendsRun(s: State, c: nat, out: seq<Push>, n: nat)
    requires Sending(s, s, c, out, 0) && n <= |out|
    ensures Possible(s, SendSteps(s, c, out[..n])) && Sending(s, Final(s, SendSteps(s, c, out[..n])), c, out, n)
  {
    if n == 0 {
      assert SendSteps(s, c, out[..0]) == [];
      Nowhere(s);
    } else {
      hide *;
      SendsRun(s, c, out, n - 1);
      SendsOneMore(s, SendSteps(s, c, out[..n - 1]), Final(s, SendSteps(s, c, out[..n - 1])), c, out, n - 1);
      SendStepsOneMore(s, c, out, n - 1);
    }
  }

  /**
   Shutdown as one call: its steps are possible, and lead to a closed queue, an empty and closed
   coalescer, and a closer that has sent, in order, all the flush took.
   */
  lemma CloseRuns(s: State, c: nat, order: seq<string>)
    requires c !in s.closers && C.Enabled(s.co, C.Flush(order)) && s.q.adding.None?
    ensures Possible(s, CloseSteps(s, c, order))
    ensures var t := Final(s, CloseSteps(s, c, order));
      && t.q.closed && t.q.adding.None? && c in t.closers
      && t.closers[c] == Closer(TakenBy(s, order), |TakenBy(s, order)|, true)
      && t.co == (if s.coalesces then C.Next(s.co, C.Flush(order)) else s.co)
      && t.store == s.store && t.arrivals == s.arrivals && t.attempts == s.attempts
  {
    var s1, out := AfterCloseBegin(s, c, order), TakenBy(s, order);
    CloseBegins(s, c, order);
    SendsRun(s1, c, out, |out|);
    assert out[..|out|] == out;
    var m := Final(s1, SendSteps(s1, c, out));
    CloseEnds(s, c, order, m);
    hide Possible, Final, SendSteps, CloseSteps, Next, Enabled, C.Next, C.Out, C.Enabled, Pushes;
  }

  lemma LastSent(s: State, m: State, c: nat, out: seq<Push>)
    requires Sending(s, m, c, out, |out|)
    ensures c in m.closers && Enabled(m, CloseQueue(c))
    ensures Next(m, CloseQueue(c)) == AfterCloseQueue(m, c, m.closers[c])
  {
  }
}
