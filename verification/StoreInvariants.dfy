/** What every operation keeps of the table, and what it costs a device to come back. */
module StoreInvariants {
  import opened Types
  import opened Text
  import opened Listing
  import opened Store

  ghost predicate NormalForm(r: Registration) {
    && r.token != "" && r.deviceToken != "" && r.topic != "" && r.mode.Valid()
    && Normalise(r.gmailAddress) == r.gmailAddress
    && (forall i :: 0 <= i < |r.gmailAccounts| ==>
          r.gmailAccounts[i].address != "" && Normalise(r.gmailAccounts[i].address) == r.gmailAccounts[i].address)
    && |r.gmailAccounts| <= MAX_GMAIL_ACCOUNTS
    && (r.gmailAddress == "" <==> r.gmailAccounts == [])
    && (r.createdAt == ZERO_TIME ==> r.seenAt == ZERO_TIME)
  }

  function PrimaryRows(table: Table, address: string): set<string> {
    set t | t in table && table[t].gmailAddress == address
  }

  ghost predicate OneRowPerDevice(table: Table) {
    forall t, u :: t in table && u in table && SameDevice(table[t], table[u]) ==> t == u
  }

  ghost predicate WithinLimits(limits: Limits, table: Table) {
    && (limits.maxRegistrations > 0 ==> |table| <= limits.maxRegistrations)
    && (limits.maxPerAddress > 0 ==>
          forall a :: a != "" ==> |PrimaryRows(table, a)| <= limits.maxPerAddress)
  }

  ghost predicate Sound(limits: Limits, table: Table) {
    && Keyed(table)
    && OneRowPerDevice(table)
    && WithinLimits(limits, table)
    && (forall t :: t in table ==> NormalForm(table[t]))
  }

  // ------------------------------------------------------------------ normal form

  lemma {:induction false} KeptIsNormal(accounts: seq<GmailAccount>)
    ensures forall i :: 0 <= i < |Kept(accounts)| ==>
      Kept(accounts)[i].address != "" && Normalise(Kept(accounts)[i].address) == Kept(accounts)[i].address
  {
    if accounts != [] {
      NormaliseTwice(accounts[0].address);
      KeptIsNormal(accounts[1..]);
    }
  }

  lemma {:induction false} KeptKeepsNormal(accounts: seq<GmailAccount>)
    requires forall i :: 0 <= i < |accounts| ==>
      accounts[i].address != "" && Normalise(accounts[i].address) == accounts[i].address
    ensures Kept(accounts) == accounts
  {
    if accounts != [] {
      KeptKeepsNormal(accounts[1..]);
      assert accounts == [accounts[0]] + accounts[1..];
    }
  }

  /** Whatever a device sends, what is stored is in normal form. */
  lemma StoredIsNormal(limits: Limits, table: Table, r: Registration)
    requires PutVerdict(limits, table, r) == Stored
    requires forall t :: t in table ==> NormalForm(table[t])
    ensures NormalForm(Prepared(table, r))
  {
    KeptIsNormal(r.gmailAccounts);
    NormaliseTwice(r.gmailAddress);
    var row := Prepared(table, r);
    if r.gmailAccounts != [] && row.gmailAddress == "" {
      assert row.gmailAccounts == [];
    }
  }

  /** A stored row put again is the same row. */
  lemma NormalRowIsFixed(table: Table, t: string)
    requires Keyed(table) && t in table && NormalForm(table[t])
    ensures Prepared(table, table[t]) == table[t]
  {
    KeptKeepsNormal(table[t].gmailAccounts);
  }

  function Found(table: Table, token: string): Option<Registration> {
    if token in table then Some(table[token]) else None
  }

  /**
   What is found after a Put that is stored: under its own token, the row as sent but in one
   shape and with the date it had before; under any other, what was found there before, unless
   that was a row of the same device, which is gone.
   */
  lemma WhatPutLeaves(limits: Limits, table: Table, r: Registration, token: string)
    requires Keyed(table) && PutVerdict(limits, table, r) == Stored
    ensures token == r.token ==>
      && Found(PutTable(table, r), token).Some?
      && var row := Found(PutTable(table, r), token).value;
         && row == r.(createdAt := row.createdAt, gmailAddress := row.gmailAddress, gmailAccounts := row.gmailAccounts)
         && (token in table && table[token].createdAt != ZERO_TIME ==> row.createdAt == table[token].createdAt)
    ensures token != r.token ==>
      Found(PutTable(table, r), token) ==
        if token in table && table[token].deviceToken == r.deviceToken && table[token].topic == r.topic then None
        else Found(table, token)
  {
  }

  // ------------------------------------------------------------------ sizes

  lemma Subset<T>(a: set<T>, b: set<T>)
    requires a <= b
    ensures |a| <= |b| && |b - a| == |b| - |a|
  {
    assert b == a + (b - a);
  }

  /** The net count is the exact size the table will have. */
  lemma NetCountIsExact(table: Table, r: Registration)
    ensures |PutTable(table, r)| == After(table, Prepared(table, r))
  {
    var row := Prepared(table, r);
    NetCount(table, Superseded(table, row), r.token, row);
  }

  lemma NetCount(table: Table, gone: set<string>, token: string, row: Registration)
    requires gone <= table.Keys && token !in gone
    ensures |(table - gone)[token := row]| == |table| + 1 - |gone| - (if token in table then 1 else 0)
  {
    Subset(gone, table.Keys);
    var left := table - gone;
    assert left.Keys == table.Keys - gone && |left| == |left.Keys| && |table| == |table.Keys|;
    var next := left[token := row];
    assert next.Keys == left.Keys + {token} && |next| == |next.Keys|;
  }

  /** A device already here, or coming back under a new token, is never told the site is full. */
  lemma ReturningIsNotGrowth(limits: Limits, table: Table, r: Registration)
    requires Sound(limits, table)
    requires r.token in table || exists t :: t in table && SameDevice(table[t], r)
    ensures PutVerdict(limits, table, r) != SiteFull
  {
    var row := Prepared(table, r);
    if r.token !in table {
      var t :| t in table && SameDevice(table[t], r);
      assert t in Superseded(table, row);
      assert |Superseded(table, row)| >= 1 by { Subset({t}, Superseded(table, row)); }
    }
  }

  // ------------------------------------------------------------------ limits

  lemma PrimaryAfterPut(table: Table, r: Registration, address: string)
    requires Keyed(table)
    ensures var row := Prepared(table, r);
      && PrimaryRows(PutTable(table, r), address)
         <= (if address == row.gmailAddress
             then OtherWatchers(table, row) + {r.token} else PrimaryRows(table, address))
  {
    var row := Prepared(table, r);
    forall t | t in PrimaryRows(PutTable(table, r), address) && t != r.token
      ensures t in table && table[t].gmailAddress == address && !SameDevice(table[t], row)
    {
      assert t !in Superseded(table, row);
    }
  }

  lemma PutKeepsLimits(limits: Limits, table: Table, r: Registration)
    requires Keyed(table) && WithinLimits(limits, table)
    requires PutVerdict(limits, table, r) == Stored
    ensures WithinLimits(limits, PutTable(table, r))
  {
    var row := Prepared(table, r);
    NetCountIsExact(table, r);
    if limits.maxPerAddress > 0 {
      forall a | a != "" ensures |PrimaryRows(PutTable(table, r), a)| <= limits.maxPerAddress {
        PrimaryAfterPut(table, r, a);
        if a == row.gmailAddress {
          Subset(PrimaryRows(PutTable(table, r), a), OtherWatchers(table, row) + {r.token});
          assert r.token !in OtherWatchers(table, row);
        } else {
          Subset(PrimaryRows(PutTable(table, r), a), PrimaryRows(table, a));
        }
      }
    }
  }

  lemma PutKeepsSound(limits: Limits, table: Table, r: Registration)
    requires Sound(limits, table) && PutVerdict(limits, table, r) == Stored
    ensures Sound(limits, PutTable(table, r))
  {
    StoredIsNormal(limits, table, r);
    PutKeepsLimits(limits, table, r);
    var row, next := Prepared(table, r), PutTable(table, r);
    forall t, u | t in next && u in next && SameDevice(next[t], next[u]) ensures t == u {
      assert t != r.token ==> t !in Superseded(table, row);
      assert u != r.token ==> u !in Superseded(table, row);
    }
  }

  lemma FewerKeepSound(limits: Limits, table: Table, less: Table)
    requires Sound(limits, table)
    requires less.Keys <= table.Keys && forall t :: t in less ==> less[t] == table[t]
    ensures Sound(limits, less)
  {
    Subset(less.Keys, table.Keys);
    assert |less| == |less.Keys| && |table| == |table.Keys|;
    forall a ensures |PrimaryRows(less, a)| <= |PrimaryRows(table, a)| {
      Subset(PrimaryRows(less, a), PrimaryRows(table, a));
    }
  }

  // ------------------------------------------------------------------ every run

  /** A file this store wrote, or none: its rows are the listing of a sound table. */
  ghost predicate SoundFile(limits: Limits, file: File) {
    match file
    case Rows(rows) => Sound(limits, Load(rows)) && Lists(rows, Load(rows))
    case Corrupt => false
    case _ => true
  }

  ghost predicate SoundState(s: State) {
    Sound(s.limits, s.table) && SoundFile(s.limits, s.file)
  }

  lemma EmptyIsSound(limits: Limits)
    ensures Sound(limits, map[])
  {
    var none: Table := map[];
    forall a ensures |PrimaryRows(none, a)| == 0 {
      assert PrimaryRows(none, a) == {};
    }
  }

  lemma SoundStep(s: State, e: Event)
    requires SoundState(s) && Enabled(s, e)
    ensures SoundState(Next(s, e))
    ensures Writes(s, e) ==> Next(s, e).file.Rows? && Load(Next(s, e).file.rows) == Next(s, e).table
  {
    var table := TableAfter(s, e);
    match e {
      case Put(r, _) =>
        if PutVerdict(s.limits, s.table, r) == Stored {
          PutKeepsSound(s.limits, s.table, r);
        }
      case Reopen => EmptyIsSound(s.limits);
      case _ => FewerKeepSound(s.limits, s.table, table);
    }
    if Writes(s, e) {
      ListedLists(table);
      LoadUndoesListing(table, Listed(table));
    }
  }

  /**
   Every run, whatever the disk refuses and however often the process starts over, keeps one row
   per device and app, each row under its own token and in normal form, and both limits.
   */
  lemma {:induction false} SoundAlways(s: State, es: seq<Event>)
    requires SoundState(s) && Possible(s, es)
    ensures SoundState(Final(s, es))
    decreases |es|
  {
    if es != [] {
      SoundStep(s, es[0]);
      SoundAlways(Next(s, es[0]), es[1..]);
    }
  }

  lemma SoundFromNothing(limits: Limits, es: seq<Event>)
    requires Possible(Init(limits), es)
    ensures SoundState(Final(Init(limits), es))
  {
    EmptyIsSound(limits);
    SoundAlways(Init(limits), es);
  }
}
