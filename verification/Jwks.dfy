/**
 The cache of signing keys, and callers that go through it at once. A call looks under the read
 lock; then, under the write lock, looks again and claims the right to fetch; fetches with no
 lock held; and installs what it got under the write lock. Every step may fall anywhere among
 the steps of the others.
 */
module Jwks {
  import opened Types
  import opened Spacing

  datatype PublicKey = PublicKey(modulus: nat, exponent: nat)

  type Cache = map<string, PublicKey>

  /** A cache older than the first is fetched anew, but not within the second of the last claim. */
  const LIFETIME: Time := 3600.0
  const RETRY: Time := 600.0

  datatype Stage =
    | Arrived
    | Unserved
    | Fetching(cached: Option<PublicKey>)
    | Installing(loaded: Cache)
    | Returned(key: Option<PublicKey>)

  /** `since` is how many caches had been installed when the call began. */
  datatype Caller = Caller(kid: string, since: nat, stage: Stage)

  /** `history` is every cache there has been, the present one last. */
  datatype State = State(
    clock: Time,
    history: seq<Cache>,
    fetched: Time,
    attempted: Time,
    callers: map<nat, Caller>)

  /** A locked section reads the clock once for each comparison or assignment it makes. */
  datatype Event =
    | Begin(caller: nat, kid: string)
    | Peek(caller: nat, now: Time)
    | Claim(caller: nat, checked: Time, compared: Time, now: Time)
    | Fail(caller: nat)
    | Succeed(caller: nat, loaded: Cache)
    | Install(caller: nat, now: Time)

  function Init(clock: Time): State {
    State(clock, [map[]], ZERO_TIME, ZERO_TIME, map[])
  }

  function Keys(s: State): Cache
    requires s.history != []
  {
    s.history[|s.history| - 1]
  }

  function Lookup(cache: Cache, kid: string): Option<PublicKey> {
    if kid in cache then Some(cache[kid]) else None
  }

  ghost predicate Enabled(s: State, e: Event) {
    && s.history != []
    && match e
       case Begin(c, _) => c !in s.callers
       case Peek(c, now) => c in s.callers && s.callers[c].stage.Arrived? && s.clock <= now
       case Claim(c, checked, compared, now) =>
         c in s.callers && s.callers[c].stage.Unserved? && s.clock <= checked <= compared <= now
       case Fail(c) => c in s.callers && s.callers[c].stage.Fetching?
       case Succeed(c, loaded) => c in s.callers && s.callers[c].stage.Fetching? && loaded != map[]
       case Install(c, now) => c in s.callers && s.callers[c].stage.Installing? && s.clock <= now
  }

  function At(s: State, c: nat, stage: Stage): State
    requires c in s.callers
  {
    s.(callers := s.callers[c := s.callers[c].(stage := stage)])
  }

  /** What a locked section decides: serve from the cache, give up, or claim the fetch. */
  function Decide(s: State, kid: string, checked: Time, compared: Time): Stage
    requires s.history != []
  {
    var cached := Lookup(Keys(s), kid);
    if cached.Some? && checked - s.fetched <= LIFETIME then Returned(cached)
    else if compared - s.attempted < RETRY then Returned(cached)
    else Fetching(cached)
  }

  ghost function Next(s: State, e: Event): State
    requires Enabled(s, e)
  {
    match e
    case Begin(c, kid) => s.(callers := s.callers[c := Caller(kid, |s.history| - 1, Arrived)])
    case Peek(c, now) =>
      var cached := Lookup(Keys(s), s.callers[c].kid);
      At(s, c, if cached.Some? && now - s.fetched <= LIFETIME then Returned(cached) else Unserved).(clock := now)
    case Claim(c, checked, compared, now) =>
      var stage := Decide(s, s.callers[c].kid, checked, compared);
      At(s, c, stage).(clock := now, attempted := if stage.Fetching? then now else s.attempted)
    case Fail(c) => At(s, c, Returned(s.callers[c].stage.cached))
    case Succeed(c, loaded) => At(s, c, Installing(loaded))
    case Install(c, now) =>
      var loaded := s.callers[c].stage.loaded;
      At(s, c, Returned(Lookup(loaded, s.callers[c].kid)))
        .(clock := now, history := s.history + [loaded], fetched := now)
  }

  ghost predicate Possible(s: State, es: seq<Event>)
    decreases |es|
  {
    es == [] || (Enabled(s, es[0]) && Possible(Next(s, es[0]), es[1..]))
  }

  ghost function Final(s: State, es: seq<Event>): State
    requires Possible(s, es)
    decreases |es|
  {
    if es == [] then s else Final(Next(s, es[0]), es[1..])
  }

  // ------------------------------------------------------------------ when there is a fetch

  /** Under the read lock: served exactly if the kid is there and the cache is at most an hour old. */
  lemma PeekServesExactlyIf(s: State, c: nat, now: Time)
    requires Enabled(s, Peek(c, now))
    ensures var kid, s' := s.callers[c].kid, Next(s, Peek(c, now));
      && s'.attempted == s.attempted && s'.fetched == s.fetched && s'.history == s.history && c in s'.callers
      && s'.callers[c].kid == kid
      && s'.callers[c].stage ==
         if kid in Keys(s) && now - s.fetched <= 3600.0 then Returned(Some(Keys(s)[kid])) else Unserved
  {
  }

  /**
   Under the write lock: a fetch is claimed exactly if the kid is missing or the cache is more than
   an hour old, and nobody has claimed one for ten minutes; otherwise what the cache has is the
   answer, and nothing changes.
   */
  lemma ClaimFetchesExactlyIf(s: State, c: nat, checked: Time, compared: Time, now: Time)
    requires Enabled(s, Claim(c, checked, compared, now))
    ensures var kid, s' := s.callers[c].kid, Next(s, Claim(c, checked, compared, now));
      var cached := if kid in Keys(s) then Some(Keys(s)[kid]) else None;
      && s'.fetched == s.fetched && s'.history == s.history && c in s'.callers && s'.callers[c].kid == kid
      && if (kid !in Keys(s) || checked - s.fetched > 3600.0) && compared - s.attempted >= 600.0
         then s'.callers[c].stage == Fetching(cached) && s'.attempted == now
         else s'.callers[c].stage == Returned(cached) && s'.attempted == s.attempted
  {
  }

  /** A fetch that fails gives what was cached; one that succeeds is the cache from then on, and the answer. */
  lemma WhatAFetchGives(s: State, c: nat, loaded: Cache, now: Time)
    requires Enabled(s, Succeed(c, loaded)) && s.clock <= now
    ensures Enabled(s, Fail(c)) && c in Next(s, Fail(c)).callers
    ensures Next(s, Fail(c)).callers[c].stage == Returned(s.callers[c].stage.cached)
    ensures Next(s, Fail(c)).history == s.history
    ensures var s1 := Next(s, Succeed(c, loaded));
      && Enabled(s1, Install(c, now))
      && var s2, kid := Next(s1, Install(c, now)), s.callers[c].kid;
         && s2.history == s.history + [loaded] && s2.fetched == now && c in s2.callers
         && s2.callers[c].stage == Returned(if kid in loaded then Some(loaded[kid]) else None)
  {
  }

  // ------------------------------------------------------------------ one fetch per window

  ghost predicate Claims(s: State, e: Event) {
    e.Claim? && e.caller in s.callers && s.history != []
    && Decide(s, s.callers[e.caller].kid, e.checked, e.compared).Fetching?
  }

  /** When each fetch of a run was claimed. */
  ghost function Fetches(s: State, es: seq<Event>): seq<Time>
    requires Possible(s, es)
    decreases |es|
  {
    if es == [] then []
    else (if Claims(s, es[0]) then [es[0].now] else []) + Fetches(Next(s, es[0]), es[1..])
  }

  lemma {:induction false} FetchesSpacedFrom(s: State, es: seq<Event>)
    requires Possible(s, es)
    ensures Spaced(Fetches(s, es), RETRY)
    ensures forall i :: 0 <= i < |Fetches(s, es)| ==> s.attempted + RETRY <= Fetches(s, es)[i]
    decreases |es|
  {
    if es != [] {
      var s1 := Next(s, es[0]);
      FetchesSpacedFrom(s1, es[1..]);
      var later := Fetches(s1, es[1..]);
      if Claims(s, es[0]) {
        assert Fetches(s, es) == [es[0].now] + later;
        assert s.attempted + RETRY <= es[0].now == s1.attempted;
      } else {
        assert Fetches(s, es) == later && s1.attempted == s.attempted;
      }
    }
  }

  /** However many callers there are, fetches are a retry window apart. */
  lemma OneFetchPerWindow(clock: Time, es: seq<Event>)
    requires Possible(Init(clock), es)
    ensures Spaced(Fetches(Init(clock), es), RETRY) && AtMostOnePer(Fetches(Init(clock), es), RETRY)
  {
    FetchesSpacedFrom(Init(clock), es);
    SpacedIsSparse(Fetches(Init(clock), es), RETRY);
  }

  // ------------------------------------------------------------------ only keys that were there

  /** Some cache from `since` on had this key under this kid. */
  ghost predicate WasThere(history: seq<Cache>, since: nat, kid: string, key: PublicKey) {
    exists i :: since <= i < |history| && kid in history[i] && history[i][kid] == key
  }

  ghost predicate Honest(history: seq<Cache>, c: Caller) {
    && c.since < |history|
    && (c.stage.Fetching? && c.stage.cached.Some? ==> WasThere(history, c.since, c.kid, c.stage.cached.value))
    && (c.stage.Returned? && c.stage.key.Some? ==> WasThere(history, c.since, c.kid, c.stage.key.value))
  }

  ghost predicate AllHonest(s: State) {
    s.history != [] && forall c :: c in s.callers ==> Honest(s.history, s.callers[c])
  }

  lemma HonestLater(history: seq<Cache>, more: seq<Cache>, c: Caller)
    requires Honest(history, c)
    ensures Honest(history + more, c)
  {
    forall key | WasThere(history, c.since, c.kid, key) ensures WasThere(history + more, c.since, c.kid, key) {
      var i :| c.since <= i < |history| && c.kid in history[i] && history[i][c.kid] == key;
      assert (history + more)[i] == history[i];
    }
  }

  lemma FoundNow(history: seq<Cache>, since: nat, kid: string)
    requires since < |history|
    ensures var found := Lookup(history[|history| - 1], kid);
      found.Some? ==> WasThere(history, since, kid, found.value)
  {
  }

  lemma HonestStep(s: State, e: Event)
    requires AllHonest(s) && Enabled(s, e)
    ensures AllHonest(Next(s, e))
  {
    var s' := Next(s, e);
    var more := if e.Install? then [s.callers[e.caller].stage.loaded] else [];
    assert s'.history == s.history + more;
    forall c | c in s'.callers ensures Honest(s'.history, s'.callers[c]) {
      if c == e.caller {
        FoundNow(s'.history, s'.callers[c].since, s'.callers[c].kid);
        assert s'.history[|s'.history| - 1] == if e.Install? then s.callers[c].stage.loaded else Keys(s);
      } else {
        HonestLater(s.history, more, s.callers[c]);
      }
    }
  }

  /** Any key a call returns was in the cache, under its kid, at some moment of the call. */
  lemma {:induction false} OnlyKeysThatWereThere(s: State, es: seq<Event>)
    requires AllHonest(s) && Possible(s, es)
    ensures AllHonest(Final(s, es))
    decreases |es|
  {
    if es != [] {
      HonestStep(s, es[0]);
      OnlyKeysThatWereThere(Next(s, es[0]), es[1..]);
    }
  }

  lemma HonestFromTheStart(clock: Time, es: seq<Event>, c: nat)
    requires Possible(Init(clock), es)
    ensures var s := Final(Init(clock), es);
      c in s.callers && s.callers[c].stage.Returned? && s.callers[c].stage.key.Some? ==>
        WasThere(s.history, s.callers[c].since, s.callers[c].kid, s.callers[c].stage.key.value)
  {
    OnlyKeysThatWereThere(Init(clock), es);
  }

  // ------------------------------------------------------------------ a failure costs nothing

  ghost predicate NothingInstalled(es: seq<Event>) {
    forall i :: 0 <= i < |es| ==> !es[i].Install?
  }

  /** Caller `c`, if it is one for `kid` that is past the write lock, holds this key or returned it. */
  ghost predicate Serving(s: State, kid: string, key: PublicKey, c: nat) {
    && s.history != [] && Lookup(Keys(s), kid) == Some(key)
    && (c in s.callers && s.callers[c].kid == kid ==>
          match s.callers[c].stage
          case Fetching(cached) => cached == Some(key)
          case Returned(result) => result == Some(key)
          case _ => true)
  }

  /** A call that has decided nothing yet: not begun, or not past the write lock. */
  ghost predicate Undecided(s: State, c: nat) {
    c in s.callers ==> s.callers[c].stage.Arrived? || s.callers[c].stage.Unserved?
  }

  /**
   While fetches fail, for however long and however many calls, and whatever earlier calls were
   told, every call for a kid the cache has that is decided meanwhile is answered with its key.
   */
  lemma FailuresCostNoKey(s: State, es: seq<Event>, kid: string, key: PublicKey, c: nat)
    requires s.history != [] && Lookup(Keys(s), kid) == Some(key) && Undecided(s, c)
    requires NothingInstalled(es) && Possible(s, es)
    ensures var t := Final(s, es);
      c in t.callers && t.callers[c].kid == kid && t.callers[c].stage.Returned? ==> t.callers[c].stage.key == Some(key)
  {
    ServedThroughout(s, es, kid, key, c);
  }

  lemma {:induction false} ServedThroughout(s: State, es: seq<Event>, kid: string, key: PublicKey, c: nat)
    requires Serving(s, kid, key, c) && NothingInstalled(es) && Possible(s, es)
    ensures Serving(Final(s, es), kid, key, c)
    decreases |es|
  {
    if es != [] {
      assert !es[0].Install?;
      assert forall i :: 0 <= i < |es[1..]| ==> es[1..][i] == es[i + 1];
      ServedThroughout(Next(s, es[0]), es[1..], kid, key, c);
    }
  }

  /** Some cache from `since` on was without this kid. */
  ghost predicate WasMissing(history: seq<Cache>, since: nat, kid: string) {
    exists i :: since <= i < |history| && kid !in history[i]
  }

  ghost predicate Excused(history: seq<Cache>, c: Caller) {
    && c.since < |history|
    && (c.stage == Fetching(None) || c.stage == Returned(None) ==> WasMissing(history, c.since, c.kid))
  }

  ghost predicate AllExcused(s: State) {
    s.history != [] && forall c :: c in s.callers ==> Excused(s.history, s.callers[c])
  }

  lemma ExcusedLater(history: seq<Cache>, more: seq<Cache>, c: Caller)
    requires Excused(history, c)
    ensures Excused(history + more, c)
  {
    if WasMissing(history, c.since, c.kid) {
      var i :| c.since <= i < |history| && c.kid !in history[i];
      assert (history + more)[i] == history[i];
    }
  }

  lemma ExcusedStep(s: State, e: Event)
    requires AllExcused(s) && Enabled(s, e)
    ensures AllExcused(Next(s, e))
  {
    var s' := Next(s, e);
    var more := if e.Install? then [s.callers[e.caller].stage.loaded] else [];
    assert s'.history == s.history + more;
    forall c | c in s'.callers ensures Excused(s'.history, s'.callers[c]) {
      if c == e.caller {
        assert s'.history[|s'.history| - 1] == if e.Install? then s.callers[c].stage.loaded else Keys(s);
      } else {
        ExcusedLater(s.history, more, s.callers[c]);
      }
    }
  }

  lemma {:induction false} ExcusedThroughout(s: State, es: seq<Event>)
    requires AllExcused(s) && Possible(s, es)
    ensures AllExcused(Final(s, es))
    decreases |es|
  {
    if es != [] {
      ExcusedStep(s, es[0]);
      ExcusedThroughout(Next(s, es[0]), es[1..]);
    }
  }

  /**
   In any run whatever, successes and failures alike: a call is answered with nothing only if the
   cache was without its kid at some moment of the call.
   */
  lemma NothingOnlyIfMissing(clock: Time, es: seq<Event>, c: nat)
    requires Possible(Init(clock), es)
    ensures var s := Final(Init(clock), es);
      c in s.callers && s.callers[c].stage == Returned(None) ==>
        WasMissing(s.history, s.callers[c].since, s.callers[c].kid)
  {
    ExcusedThroughout(Init(clock), es);
  }

  /** A success may cost one: what is fetched replaces the cache, and need not have the kid. */
  lemma ASuccessMayDropAKey(s: State, c: nat, loaded: Cache, now: Time)
    requires s.history != [] && c in s.callers && s.callers[c].stage.Fetching?
    requires s.callers[c].stage.cached.Some? && s.callers[c].kid !in loaded
    requires loaded != map[] && s.clock <= now
    ensures var es := [Succeed(c, loaded), Install(c, now)];
      Possible(s, es) && c in Final(s, es).callers && Final(s, es).callers[c].stage == Returned(None)
  {
    Two(s, Succeed(c, loaded), Install(c, now));
  }

  // ------------------------------------------------------------------ what a fetch makes

  /** One entry of the document; no key when its numbers do not decode. */
  datatype Entry = Entry(kid: string, kty: string, key: Option<PublicKey>)

  predicate Usable(e: Entry) {
    e.kty == "RSA" && e.key.Some?
  }

  function Loaded(document: seq<Entry>): Cache {
    if document == [] then map[]
    else
      var last := document[|document| - 1];
      var before := Loaded(document[..|document| - 1]);
      if Usable(last) then before[last.kid := last.key.value] else before
  }

  ghost predicate LastUsable(document: seq<Entry>, kid: string, i: int) {
    && 0 <= i < |document| && document[i].kty == "RSA" && document[i].key.Some? && document[i].kid == kid
    && forall j :: i < j < |document| && document[j].kty == "RSA" && document[j].key.Some? ==> document[j].kid != kid
  }

  /** A kid is served by its last usable entry, and by none if it has none. */
  lemma {:induction false} LastUsableWins(document: seq<Entry>, kid: string)
    ensures kid in Loaded(document) <==> exists i :: LastUsable(document, kid, i)
    ensures forall i :: LastUsable(document, kid, i) ==> Loaded(document)[kid] == document[i].key.value
  {
    if document != [] {
      var n := |document| - 1;
      var before := document[..n];
      LastUsableWins(before, kid);
      if Usable(document[n]) && document[n].kid == kid {
        assert LastUsable(document, kid, n);
      } else {
        assert forall i :: LastUsable(document, kid, i) <==> LastUsable(before, kid, i);
      }
    }
  }

  // ------------------------------------------------------------------ the cache as it is held

  class KeyCache {
    var keys: Cache
    var fetched: Time
    var attempted: Time

    constructor ()
      ensures keys == map[] && fetched == attempted == ZERO_TIME
    {
      keys, fetched, attempted := map[], ZERO_TIME, ZERO_TIME;
    }

    ghost predicate Holds(s: State)
      reads this
    {
      s.history != [] && Keys(s) == keys && s.fetched == fetched && s.attempted == attempted
    }

    /** Fills a map from the document; one with nothing usable in it is a failure. */
    static method Load(document: seq<Entry>) returns (loaded: Option<Cache>)
      ensures loaded == if Loaded(document) == map[] then None else Some(Loaded(document))
    {
      var found: Cache := map[];
      var i := 0;
      while i < |document|
        invariant 0 <= i <= |document| && found == Loaded(document[..i])
      {
        var e := document[i];
        assert document[..i + 1][..i] == document[..i];
        if e.kty == "RSA" && e.key.Some? {
          found := found[e.kid := e.key.value];
        }
        i := i + 1;
      }
      assert document[..i] == document;
      loaded := if found == map[] then None else Some(found);
    }

    /**
     One call, uninterrupted: from any state that agrees with the cache it makes the steps of a
     caller, and ends in a state that agrees with it again. `loading` is what the fetch would
     bring, and `readings` what the clock would say each time it is read.
     */
    method Key(kid: string, readings: seq<Time>, loading: Option<Cache>, ghost s: State, ghost c: nat)
      returns (key: Option<PublicKey>, ghost es: seq<Event>)
      requires Holds(s) && c !in s.callers
      requires |readings| == 5 && s.clock <= readings[0]
      requires forall i, j :: 0 <= i < j < 5 ==> readings[i] <= readings[j]
      requires loading.Some? ==> loading.value != map[]
      modifies this
      ensures es != [] && es[0] == Begin(c, kid) && Possible(s, es)
      ensures Holds(Final(s, es))
      ensures c in Final(s, es).callers && Final(s, es).callers[c].stage == Returned(key)
      ensures var cached := if kid in old(keys) then Some(old(keys)[kid]) else None;
        if (kid !in old(keys) || readings[0] - old(fetched) > 3600.0) && readings[2] - old(attempted) >= 600.0 then
          && attempted == readings[3]
          && (loading.None? ==> key == cached && keys == old(keys) && fetched == old(fetched))
          && (loading.Some? ==>
                && key == (if kid in loading.value then Some(loading.value[kid]) else None)
                && keys == loading.value && fetched == readings[4])
        else key == cached && keys == old(keys) && fetched == old(fetched) && attempted == old(attempted)
    {
      ghost var s1 := Next(s, Begin(c, kid));
      ghost var s2 := Next(s1, Peek(c, readings[0]));
      var known, cached := kid in keys, Lookup(keys, kid);
      var recent := readings[0] - fetched <= LIFETIME;
      if known && recent {
        es := [Begin(c, kid), Peek(c, readings[0])];
        Two(s, es[0], es[1]);
        return cached, es;
      }
      ghost var claim := Claim(c, readings[1], readings[2], readings[3]);
      ghost var s3 := Next(s2, claim);
      es := [Begin(c, kid), Peek(c, readings[0]), claim];
      Three(s, es[0], es[1], es[2]);
      if known && readings[1] - fetched <= LIFETIME {
        return cached, es;
      }
      if readings[2] - attempted < RETRY {
        return cached, es;
      }
      attempted := readings[3];
      if loading == None {
        More(s, es, Fail(c));
        return cached, es + [Fail(c)];
      }
      More(s, es, Succeed(c, loading.value));
      More(s, es + [Succeed(c, loading.value)], Install(c, readings[4]));
      keys, fetched := loading.value, readings[4];
      return Lookup(keys, kid), es + [Succeed(c, loading.value)] + [Install(c, readings[4])];
    }
  }

  lemma Two(s: State, a: Event, b: Event)
    requires Enabled(s, a) && Enabled(Next(s, a), b)
    ensures Possible(s, [a, b]) && Final(s, [a, b]) == Next(Next(s, a), b)
  {
    assert [a, b][1..] == [b] && [b][1..] == [];
    assert Possible(Next(s, a), [b]);
    assert Final(Next(s, a), [b]) == Next(Next(s, a), b);
  }

  lemma Three(s: State, a: Event, b: Event, c: Event)
    requires Enabled(s, a) && Enabled(Next(s, a), b) && Enabled(Next(Next(s, a), b), c)
    ensures Possible(s, [a, b, c]) && Final(s, [a, b, c]) == Next(Next(Next(s, a), b), c)
  {
    assert [a, b, c][1..] == [b, c];
    Two(Next(s, a), b, c);
  }

  lemma {:induction false} More(s: State, es: seq<Event>, e: Event)
    requires Possible(s, es) && Enabled(Final(s, es), e)
    ensures Possible(s, es + [e]) && Final(s, es + [e]) == Next(Final(s, es), e)
    decreases |es|
  {
    if es == [] {
      assert [] + [e] == [e] && [e][1..] == [];
      assert Possible(Next(s, e), []);
    } else {
      assert (es + [e])[1..] == es[1..] + [e];
      More(Next(s, es[0]), es[1..], e);
    }
  }
}
