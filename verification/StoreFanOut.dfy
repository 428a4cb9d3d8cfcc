/** How many devices one notification goes to, and when the limit for an address bounds that. */
module StoreFanOut {
  import opened Types
  import opened Listing
  import opened Store
  import opened StoreInvariants
  import StoreRuns

  /** No address is watched by more devices than the limit. */
  ghost predicate FanOutWithin(cap: nat, table: Table) {
    forall a :: a != "" ==> |StoreRuns.Watchers(table, a)| <= cap
  }

  /** The rows of other devices that watch an address, in whatever place they name it. */
  function OthersWatching(table: Table, row: Registration, address: string): set<string> {
    set t | t in table && t != row.token && !SameDevice(table[t], row) && Watches(table[t], address)
  }

  /** With this row, no address that it names in any place is watched by more than the limit. */
  ghost predicate RoomForAll(cap: nat, table: Table, row: Registration) {
    forall i :: 0 <= i < |row.gmailAccounts| ==> 1 + |OthersWatching(table, row, row.gmailAccounts[i].address)| <= cap
  }

  lemma WatchersWith(table: Table, row: Registration, address: string)
    ensures var next := (table - Superseded(table, row))[row.token := row];
      StoreRuns.Watchers(next, address)
      == OthersWatching(table, row, address) + if Watches(row, address) then {row.token} else {}
  {
    hide Watches;
  }

  lemma WatchersAfterPut(table: Table, r: Registration, address: string)
    ensures var row := Prepared(table, r);
      && |StoreRuns.Watchers(PutTable(table, r), address)|
         == |OthersWatching(table, row, address)| + (if Watches(row, address) then 1 else 0)
      && |OthersWatching(table, row, address)| <= |StoreRuns.Watchers(table, address)|
  {
    var row := Prepared(table, r);
    var others := OthersWatching(table, row, address);
    Subset(others, StoreRuns.Watchers(table, address));
    assert row.token == r.token && row.token !in others;
    assert PutTable(table, r) == (table - Superseded(table, row))[row.token := row];
    hide *;
    WatchersWith(table, row, address);
  }

  /**
   The limit for an address bounds the fan-out only as far as this: a row that is stored keeps the
   bound exactly if there is room for it at every address it names, and not just at the first,
   which is the one that is checked.
   */
  lemma PutKeepsFanOutExactlyIf(limits: Limits, table: Table, r: Registration)
    requires Sound(limits, table) && 0 < limits.maxPerAddress && FanOutWithin(limits.maxPerAddress, table)
    requires PutVerdict(limits, table, r) == Stored
    ensures FanOutWithin(limits.maxPerAddress, PutTable(table, r))
      <==> RoomForAll(limits.maxPerAddress, table, Prepared(table, r))
  {
    var cap, row := limits.maxPerAddress, Prepared(table, r);
    StoredIsNormal(limits, table, r);
    assert row.gmailAddress != "" ==> OthersWatching(table, row, row.gmailAddress) == OtherWatchers(table, row);
    assert row.gmailAddress != "" ==> 1 + |OtherWatchers(table, row)| <= cap;
    assert forall i :: 0 <= i < |row.gmailAccounts| ==> row.gmailAccounts[i].address != "";
    hide Prepared, PutVerdict, PutTable, OthersWatching, OtherWatchers, NormalForm, Sound, StoreRuns.Watchers;
    if RoomForAll(cap, table, row) {
      forall a | a != "" ensures |StoreRuns.Watchers(PutTable(table, r), a)| <= cap {
        WatchersAfterPut(table, r, a);
      }
    }
    if FanOutWithin(cap, PutTable(table, r)) {
      forall i | 0 <= i < |row.gmailAccounts|
        ensures 1 + |OthersWatching(table, row, row.gmailAccounts[i].address)| <= cap
      {
        WatchersAfterPut(table, r, row.gmailAccounts[i].address);
        assert Watches(row, row.gmailAccounts[i].address);
      }
    }
  }

  // ------------------------------------------------------------------ over whole runs

  /** The bound, in memory and on disk. */
  ghost predicate Within(s: State) {
    FanOutWithin(s.limits.maxPerAddress, s.table) && FanOutWithin(s.limits.maxPerAddress, StoreRuns.OnDisk(s.file))
  }

  /** Every run from nothing starts within it. */
  lemma NothingIsWithin(limits: Limits)
    ensures SoundState(Init(limits)) && Within(Init(limits))
  {
    EmptyIsSound(limits);
    var none: Table := map[];
    assert forall a :: StoreRuns.Watchers(none, a) == {};
  }

  ghost predicate AlwaysWithin(s: State, es: seq<Event>)
    decreases |es|
  {
    FanOutWithin(s.limits.maxPerAddress, s.table) && (es == [] || AlwaysWithin(Next(s, es[0]), es[1..]))
  }

  ghost predicate HasRoom(s: State, e: Event) {
    e.Put? && PutVerdict(s.limits, s.table, e.row) == Stored ==>
      RoomForAll(s.limits.maxPerAddress, s.table, Prepared(s.table, e.row))
  }

  ghost predicate AllHaveRoom(s: State, es: seq<Event>)
    decreases |es|
  {
    es == [] || (HasRoom(s, es[0]) && AllHaveRoom(Next(s, es[0]), es[1..]))
  }

  lemma FewerWatch(less: Table, table: Table, cap: nat)
    requires FanOutWithin(cap, table) && forall t :: t in less ==> t in table && less[t] == table[t]
    ensures FanOutWithin(cap, less)
  {
    hide Watches;
    forall a | a != "" ensures |StoreRuns.Watchers(less, a)| <= cap {
      Subset(StoreRuns.Watchers(less, a), StoreRuns.Watchers(table, a));
    }
  }

  lemma TableWithin(s: State, e: Event)
    requires SoundState(s) && Enabled(s, e) && 0 < s.limits.maxPerAddress && Within(s)
    ensures FanOutWithin(s.limits.maxPerAddress, TableAfter(s, e)) <==> HasRoom(s, e)
  {
    if e.Put? && PutVerdict(s.limits, s.table, e.row) == Stored {
      PutKeepsFanOutExactlyIf(s.limits, s.table, e.row);
      hide RoomForAll, PutTable, FanOutWithin;
    } else if e.Reopen? {
      hide FanOutWithin, Load;
    } else {
      hide FanOutWithin, PutVerdict;
      FewerWatch(TableAfter(s, e), s.table, s.limits.maxPerAddress);
    }
  }

  lemma WithinStep(s: State, e: Event)
    requires SoundState(s) && Enabled(s, e) && 0 < s.limits.maxPerAddress && Within(s)
    ensures Next(s, e).limits == s.limits && SoundState(Next(s, e))
    ensures FanOutWithin(s.limits.maxPerAddress, Next(s, e).table) <==> HasRoom(s, e)
    ensures HasRoom(s, e) ==> Within(Next(s, e))
  {
    TableWithin(s, e);
    SoundStep(s, e);
    hide SoundState, FanOutWithin, HasRoom, TableAfter, Writes, Enabled, Load;
  }

  /**
   Over any run, restarts and refused writes included: no address is ever watched by more than the
   limit exactly if each row that is stored has room at every address it names.
   */
  lemma {:induction false} FanOutIsBoundedExactlyIf(s: State, es: seq<Event>)
    requires SoundState(s) && 0 < s.limits.maxPerAddress && Within(s) && Possible(s, es)
    ensures AlwaysWithin(s, es) <==> AllHaveRoom(s, es)
    decreases |es|
  {
    hide SoundState, FanOutWithin, HasRoom, Next, Enabled;
    if es != [] {
      WithinStep(s, es[0]);
      if HasRoom(s, es[0]) {
        FanOutIsBoundedExactlyIf(Next(s, es[0]), es[1..]);
      }
    }
  }

  /** A device that names one mailbox, however often and in whichever field. */
  predicate NamesOne(r: Registration) {
    var row := Prepared(map[], r);
    forall i :: 0 <= i < |row.gmailAccounts| ==> row.gmailAccounts[i].address == row.gmailAddress
  }

  lemma OneHasRoom(limits: Limits, table: Table, r: Registration)
    requires Sound(limits, table) && 0 < limits.maxPerAddress && PutVerdict(limits, table, r) == Stored && NamesOne(r)
    ensures RoomForAll(limits.maxPerAddress, table, Prepared(table, r))
  {
    var row := Prepared(table, r);
    StoredIsNormal(limits, table, r);
    assert Prepared(map[], r) == row.(createdAt := Prepared(map[], r).createdAt);
    assert OthersWatching(table, row, row.gmailAddress) == OtherWatchers(table, row);
    forall i | 0 <= i < |row.gmailAccounts|
      ensures 1 + |OthersWatching(table, row, row.gmailAccounts[i].address)| <= limits.maxPerAddress
    {
      assert row.gmailAccounts[i].address == row.gmailAddress != "";
    }
  }

  /** So the limit does bound the fan-out of every run in which each device names one mailbox. */
  lemma {:induction false} OneMailboxEachIsBounded(s: State, es: seq<Event>)
    requires SoundState(s) && 0 < s.limits.maxPerAddress && Within(s) && Possible(s, es)
    requires forall i :: 0 <= i < |es| && es[i].Put? ==> NamesOne(es[i].row)
    ensures AlwaysWithin(s, es)
    decreases |es|
  {
    hide FanOutWithin, Next, Enabled, NamesOne, RoomForAll, PutVerdict, Sound;
    if es != [] {
      if es[0].Put? && PutVerdict(s.limits, s.table, es[0].row) == Stored {
        OneHasRoom(s.limits, s.table, es[0].row);
      }
      WithinStep(s, es[0]);
      assert forall i :: 0 <= i < |es[1..]| ==> es[1..][i] == es[i + 1];
      OneMailboxEachIsBounded(Next(s, es[0]), es[1..]);
    }
  }
}
