/**
 Which row goes when Apple says a device is gone. The delete is by relay token, some steps after
 the attempt, so it takes whatever row is under that token by then.
 */
module PipelineForgetting {
  import opened Types
  import opened Pipeline
  import L = Limiter
  import Q = DeliveryQueue
  import S = Store
  import StoreInvariants
  import opened Listing

  /** The table less every row of one device. */
  function WithoutDevice(table: Table, r: Registration): Table {
    map t | t in table && !S.SameDevice(table[t], r) :: table[t]
  }

  /** The device the attempt was for, as the job has it. */
  function Reported(s: State, w: nat): Registration
    requires w in s.q.running
  {
    JobOf(s, w).registration
  }

  lemma ForgetShape(s: State, w: nat, diskTakes: bool)
    requires Enabled(s, Forget(w, diskTakes))
    ensures w in s.q.running
    ensures Next(s, Forget(w, diskTakes)).store.table == s.store.table - {Reported(s, w).token}
  {
    assert Next(s, Forget(w, diskTakes)) == AfterForget(s, w, JobOf(s, w), diskTakes);
    hide Next, S.TriesToWrite;
  }

  lemma OneRowGoes(table: Table, gone: Registration)
    requires StoreInvariants.OneRowPerDevice(table)
    ensures table - {gone.token} == WithoutDevice(table, gone)
      <==> if gone.token in table then S.SameDevice(table[gone.token], gone)
           else forall t :: t in table ==> !S.SameDevice(table[t], gone)
  {
    var rest := WithoutDevice(table, gone);
    if gone.token !in table {
      assert table - {gone.token} == table;
      assert (forall t :: t in table ==> !S.SameDevice(table[t], gone)) ==> rest == table;
    } else if S.SameDevice(table[gone.token], gone) {
      forall t | t in table && t != gone.token ensures !S.SameDevice(table[t], gone) {
        assert !S.SameDevice(table[t], table[gone.token]);
      }
      assert table - {gone.token} == rest;
    } else {
      assert gone.token in rest;
    }
  }

  /**
   The delete takes the rows of the device Apple reported, and nothing else, exactly if the row
   under the token is still that device's, or there is none and the device has no other.
   */
  lemma ForgetsTheReportedExactlyIf(s: State, w: nat, diskTakes: bool)
    requires StoreInvariants.SoundState(s.store) && Enabled(s, Forget(w, diskTakes))
    ensures var gone, table := Reported(s, w), s.store.table;
      Next(s, Forget(w, diskTakes)).store.table == WithoutDevice(table, gone)
      <==> if gone.token in table then S.SameDevice(table[gone.token], gone)
           else forall t :: t in table ==> !S.SameDevice(table[t], gone)
  {
    ForgetShape(s, w, diskTakes);
    assert StoreInvariants.OneRowPerDevice(s.store.table);
    hide *;
    OneRowGoes(s.store.table, Reported(s, w));
  }

  lemma PutThenGone(table: Table, r: Registration)
    ensures forall t :: t in S.PutTable(table, r) - {r.token} ==> !S.SameDevice(table[t], r)
    ensures forall t :: t in S.PutTable(table, r) - {r.token} ==> t in table && S.PutTable(table, r)[t] == table[t]
  {
  }

  lemma ChangeShape(s: State, r: Registration)
    requires S.PutVerdict(s.store.limits, s.store.table, r) == S.Stored
    ensures var put := Change(S.Put(r, true));
      && Enabled(s, put) && Next(s, put) == s.(store := Next(s, put).store)
      && Next(s, put).store.table == S.PutTable(s.store.table, r)
    ensures S.Reply(s.store, S.Put(r, true)) == S.Fine
  {
    hide S.PutVerdict, S.PutTable, Listed;
  }

  lemma StillDeleting(s: State, store: S.State, w: nat, diskTakes: bool)
    requires IsAt(s, w, Deleting)
    ensures var s1 := s.(store := store);
      w in s1.q.running && Enabled(s1, Forget(w, diskTakes)) && Reported(s1, w) == Reported(s, w)
  {
  }

  /**
   A registration under the same token that is stored between the attempt and the delete is lost,
   whosever it is: its device was told all is well, and has no row.
   */
  lemma StoredInBetweenIsLost(s: State, w: nat, r: Registration, diskTakes: bool)
    requires IsAt(s, w, Deleting) && r.token == Reported(s, w).token
    requires S.PutVerdict(s.store.limits, s.store.table, r) == S.Stored
    ensures var es := [Change(S.Put(r, true)), Forget(w, diskTakes)];
      && Possible(s, es) && S.Reply(s.store, S.Put(r, true)) == S.Fine
      && forall t :: t in Final(s, es).store.table ==> !S.SameDevice(Final(s, es).store.table[t], r)
  {
    var put, forget := Change(S.Put(r, true)), Forget(w, diskTakes);
    hide *;
    ChangeShape(s, r);
    var s1 := Next(s, put);
    StillDeleting(s, s1.store, w, diskTakes);
    ForgetShape(s1, w, diskTakes);
    PutThenGone(s.store.table, r);
    TwoSteps(s, put, forget);
  }

  // ------------------------------------------------------------------ a run in which it is

  /** A push comes in that is not coalesced, and is queued. */
  function ComingIn(a: Arrival, now: Time): seq<Event> {
    [Enter(a, now)] + ([Submit(0)] + ([Settle] + []))
  }

  /** A worker puts it to Apple, which does not know the device any more. */
  function Trying(now: Time): seq<Event> {
    [Take(0)] + ([Limit(0, now, "")] + ([Check(0, now)] + ([Event.Attempt(0, Unregistered)] + [])))
  }

  function ToApple(first: Registration, a: Arrival, now: Time): seq<Event> {
    [Change(S.Put(first, true))] + (ComingIn(a, now) + Trying(now))
  }

  function OnlyJob(a: Arrival): Job {
    Job(AsEntered(a, 0), AsEntered(a, 0).registration)
  }

  lemma ComesIn(s: State, a: Arrival, now: Time)
    requires !a.silent && a.registration.mode == Alert && s.arrivals == [] && s.local == map[]
    requires s.q == Q.Init(WORKERS, QUEUE_DEPTH)
    ensures Enabled(s, Enter(a, now))
    ensures var s1 := Next(s, Enter(a, now));
      && s1 == s.(arrivals := [a], local := map[0 := Submitting(OnlyJob(a))])
      && Enabled(s1, Submit(0))
  {
  }

  lemma IsQueued(s: State, a: Arrival)
    requires s.local == map[0 := Submitting(OnlyJob(a))] && s.q == Q.Init(WORKERS, QUEUE_DEPTH)
    ensures Enabled(s, Submit(0))
    ensures var s1 := Next(s, Submit(0));
      && Enabled(s1, Settle)
      && Next(s1, Settle) == s.(local := map[], q := s.q.(jobs := [OnlyJob(a)], outstanding := 1))
  {
    assert Next(s, Submit(0)) == AfterSubmit(s, OnlyJob(a));
    assert s.local - {0} == map[];
  }

  lemma IsTaken(s: State, job: Job, now: Time)
    requires s.q == Q.Init(WORKERS, QUEUE_DEPTH).(jobs := [job], outstanding := 1)
    requires s.stages == map[] && s.buckets == map[] && s.limits == L.PUSH_LIMITS
    ensures Enabled(s, Take(0))
    ensures var s1 := Next(s, Take(0));
      && Enabled(s1, Limit(0, now, ""))
      && var s2 := Next(s1, Limit(0, now, ""));
         IsAt(s2, 0, Checking) && JobOf(s2, 0) == job && s2.store == s.store
  {
    var s1 := Next(s, Take(0));
    assert IsAt(s1, 0, Limiting) && JobOf(s1, 0) == job;
    assert L.Reply(L.PUSH_LIMITS, map[], LimiterCall(job, now, "")).allowed;
    hide L.Next, L.Reply, S.Next;
  }

  lemma IsPut(s: State, job: Job, now: Time)
    requires IsAt(s, 0, Checking) && JobOf(s, 0) == job && !job.registration.Lapsed(now)
    ensures Enabled(s, Check(0, now))
    ensures var s1 := Next(s, Check(0, now));
      && Enabled(s1, Event.Attempt(0, Unregistered))
      && var s2 := Next(s1, Event.Attempt(0, Unregistered));
         IsAt(s2, 0, Deleting) && JobOf(s2, 0) == job && s2.store == s.store
  {
  }

  lemma Welcome(limits: S.Limits, first: Registration, r: Registration)
    requires S.PutVerdict(limits, map[], first) == S.Stored
    requires r == first.(deviceToken := r.deviceToken, seenAt := r.seenAt) && r.deviceToken != ""
    ensures S.PutVerdict(limits, S.PutTable(map[], first), r) == S.Stored
  {
    var none: Table := map[];
    var table := S.PutTable(none, first);
    assert table.Keys == {r.token} && |table| == |table.Keys|;
    var row := S.Prepared(table, r);
    assert S.Superseded(table, row) == {} && S.OtherWatchers(table, row) == {};
    assert S.OtherWatchers(none, S.Prepared(none, first)) == {};
    assert S.Superseded(none, S.Prepared(none, first)) == {};
    hide S.Watches, S.Kept;
  }

  lemma ComingInRuns(s: State, a: Arrival, now: Time)
    requires !a.silent && a.registration.mode == Alert && s.arrivals == [] && s.local == map[]
    requires s.q == Q.Init(WORKERS, QUEUE_DEPTH)
    ensures Possible(s, ComingIn(a, now))
    ensures Final(s, ComingIn(a, now)) == s.(arrivals := [a], q := s.q.(jobs := [OnlyJob(a)], outstanding := 1))
  {
    ComesIn(s, a, now);
    var s1 := Next(s, Enter(a, now));
    IsQueued(s1, a);
    hide Next, Enabled, OnlyJob;
    var s2 := Next(s1, Submit(0));
    var s3 := Next(s2, Settle);
    Nowhere(s3);
    hide Possible, Final;
    Prepend(s2, Settle, []);
    Prepend(s1, Submit(0), [Settle] + []);
    Prepend(s, Enter(a, now), [Submit(0)] + ([Settle] + []));
  }

  lemma TryingRuns(s: State, job: Job, now: Time)
    requires s.q == Q.Init(WORKERS, QUEUE_DEPTH).(jobs := [job], outstanding := 1)
    requires s.stages == map[] && s.buckets == map[] && s.limits == L.PUSH_LIMITS && !job.registration.Lapsed(now)
    ensures Possible(s, Trying(now))
    ensures var t := Final(s, Trying(now));
      IsAt(t, 0, Deleting) && JobOf(t, 0) == job && t.store == s.store
  {
    IsTaken(s, job, now);
    var s1 := Next(s, Take(0));
    var s2 := Next(s1, Limit(0, now, ""));
    IsPut(s2, job, now);
    hide Next, Enabled, JobOf, IsAt;
    var s3 := Next(s2, Check(0, now));
    var attempt := Event.Attempt(0, Unregistered);
    Nowhere(Next(s3, attempt));
    hide Possible, Final;
    Prepend(s3, attempt, []);
    Prepend(s2, Check(0, now), [attempt] + []);
    Prepend(s1, Limit(0, now, ""), [Check(0, now)] + ([attempt] + []));
    Prepend(s, Take(0), [Limit(0, now, "")] + ([Check(0, now)] + ([attempt] + [])));
  }

  lemma ReachesApple(window: Time, clock: Time, limits: S.Limits, first: Registration, a: Arrival, now: Time)
    requires !a.silent && a.registration.mode == Alert && !a.registration.Lapsed(now)
    requires S.PutVerdict(limits, map[], first) == S.Stored
    ensures var s := Final(Init(window, clock, limits), ToApple(first, a, now));
      && Possible(Init(window, clock, limits), ToApple(first, a, now))
      && IsAt(s, 0, Deleting) && JobOf(s, 0) == OnlyJob(a)
      && s.store.limits == limits && s.store.table == S.PutTable(map[], first)
  {
    var s0, register := Init(window, clock, limits), Change(S.Put(first, true));
    ChangeShape(s0, first);
    var s1 := Next(s0, register);
    assert s1.store.limits == limits;
    hide Next, Enabled, JobOf, IsAt, Possible, Final, ComingIn, Trying;
    ComingInRuns(s1, a, now);
    TryingRuns(Final(s1, ComingIn(a, now)), OnlyJob(a), now);
    RunJoined(s1, ComingIn(a, now), Trying(now));
    Prepend(s0, register, ComingIn(a, now) + Trying(now));
  }

  /**
   Such a loss is reached from the start: a device registers, a push for the row that was stored is
   put to Apple, which knows it no more; it registers again with the device token it has now, and
   the delete takes that.
   */
  lemma ALiveRowCanBeForgotten(window: Time, clock: Time, limits: S.Limits, first: Registration, a: Arrival,
                               now: Time, r: Registration)
    requires first.mode == Alert && S.PutVerdict(limits, map[], first) == S.Stored
    requires !a.silent && a.registration == S.Prepared(map[], first) && !a.registration.Lapsed(now)
    requires r == first.(deviceToken := r.deviceToken, seenAt := r.seenAt) && r.deviceToken != ""
    ensures var s0, lead := Init(window, clock, limits), ToApple(first, a, now);
      var es := lead + [Change(S.Put(r, true)), Forget(0, true)];
      && Possible(s0, es) && S.Reply(Final(s0, lead).store, S.Put(r, true)) == S.Fine
      && forall t :: t in Final(s0, es).store.table ==> !S.SameDevice(Final(s0, es).store.table[t], r)
  {
    var s0 := Init(window, clock, limits);
    ReachesApple(window, clock, limits, first, a, now);
    Welcome(limits, first, r);
    var s := Final(s0, ToApple(first, a, now));
    assert Reported(s, 0).token == r.token;
    hide *;
    StoredInBetweenIsLost(s, 0, r, true);
    RunJoined(s0, ToApple(first, a, now), [Change(S.Put(r, true)), Forget(0, true)]);
  }
}
