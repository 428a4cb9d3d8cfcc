/** The file behind the table, and the rows a secret protects, over whole runs. */
module StoreRuns {
  import opened Types
  import opened Text
  import opened Listing
  import opened Store
  import opened StoreInvariants
  import opened Lanes

  // ------------------------------------------------------------------ the file

  function OnDisk(file: File): Table {
    if file.Rows? then Load(file.rows) else map[]
  }

  /** The table as of the last write the disk took, `last` being the one before the run. */
  ghost function LastWritten(s: State, es: seq<Event>, last: Table): Table
    decreases |es|
  {
    if es == [] then last
    else LastWritten(Next(s, es[0]), es[1..], if Writes(s, es[0]) then TableAfter(s, es[0]) else last)
  }

  /** The file is the table as of the last write the disk took, whatever writes failed since. */
  lemma {:induction false} FileIsTheLastWrite(s: State, es: seq<Event>)
    requires SoundState(s) && Possible(s, es)
    ensures OnDisk(Final(s, es).file) == LastWritten(s, es, OnDisk(s.file))
    decreases |es|
  {
    if es != [] {
      SoundStep(s, es[0]);
      FileIsTheLastWrite(Next(s, es[0]), es[1..]);
    }
  }

  /** Starting over after a write the disk took finds the table that was written. */
  lemma ReopeningFindsIt(s: State, e: Event)
    requires SoundState(s) && Enabled(s, e) && Writes(s, e)
    ensures Enabled(Next(s, e), Reopen) && Next(Next(s, e), Reopen) == Next(s, e)
  {
    SoundStep(s, e);
    Reopened(Next(s, e));
    hide Next, Sound, Load, Enabled, TriesToWrite;
  }

  lemma Reopened(s: State)
    requires s.file.Rows?
    ensures Enabled(s, Reopen) && Next(s, Reopen) == State(s.limits, Load(s.file.rows), s.file)
  {
    hide Load, Listed;
  }

  /**
   An operation that is told all is well has its table on disk exactly if it had something to
   write or the two agreed before it: "fine" alone promises nothing.
   */
  lemma WhenFineMeansWritten(s: State, e: Event)
    requires SoundState(s) && !e.Reopen? && Reply(s, e) == Fine
    ensures OnDisk(Next(s, e).file) == Next(s, e).table
        <==> TriesToWrite(s, e) || OnDisk(s.file) == s.table
  {
    if TriesToWrite(s, e) {
      SoundStep(s, e);
      assert Writes(s, e);
      hide Sound, Next, TableAfter, TriesToWrite, Load;
    } else {
      NothingToWrite(s, e);
      hide Sound, Next, TableAfter, TriesToWrite, Load;
    }
  }

  lemma NothingToWrite(s: State, e: Event)
    requires !e.Reopen? && Reply(s, e) == Fine && !TriesToWrite(s, e)
    ensures Next(s, e) == s
  {
    hide PutVerdict, PutTable, Load;
    assert TableAfter(s, e) == s.table;
  }

  /** A delete the disk refused, asked for again, is told all is well with the row still on disk. */
  lemma FineIsNotWritten(s: State, t: string)
    requires SoundState(s) && t in s.table && OnDisk(s.file) == s.table
    ensures var failed := Next(s, Delete(t, false));
      && Reply(s, Delete(t, false)) == WriteFailed
      && Reply(failed, Delete(t, true)) == Fine
      && t !in Next(failed, Delete(t, true)).table
      && t in OnDisk(Next(failed, Delete(t, true)).file)
  {
  }

  // ------------------------------------------------------------------ ownership

  /** Whenever the process starts over, the file has under this token what memory had. */
  ghost predicate RestartsAgree(s: State, es: seq<Event>, token: string)
    decreases |es|
  {
    es == [] || (
      && (es[0].Reopen? ==> Found(OnDisk(s.file), token) == Found(s.table, token))
      && RestartsAgree(Next(s, es[0]), es[1..], token))
  }

  ghost predicate StaysThroughout(s: State, es: seq<Event>, token: string)
    decreases |es|
  {
    token in s.table && (es == [] || StaysThroughout(Next(s, es[0]), es[1..], token))
  }

  /**
   While a token stays, the secret that first took it and the date it was made never change, over
   restarts too as long as they find it as it was.
   */
  lemma {:induction false} FirstSecretHolds(s: State, es: seq<Event>, token: string)
    requires SoundState(s) && Possible(s, es) && RestartsAgree(s, es, token) && StaysThroughout(s, es, token)
    ensures token in Final(s, es).table
    ensures var row, row' := s.table[token], Final(s, es).table[token];
      && (row.secretHash != "" ==> row'.secretHash == row.secretHash)
      && (row.createdAt != ZERO_TIME ==> row'.createdAt == row.createdAt)
    decreases |es|
  {
    if es != [] {
      SecretStep(s, es[0], token);
      SoundStep(s, es[0]);
      hide Next, SoundState, Enabled, OnDisk;
      FirstSecretHolds(Next(s, es[0]), es[1..], token);
    }
  }

  lemma SecretStep(s: State, e: Event, token: string)
    requires SoundState(s) && token in s.table && token in Next(s, e).table
    requires e.Reopen? ==> Found(OnDisk(s.file), token) == Found(s.table, token)
    ensures var row, row' := s.table[token], Next(s, e).table[token];
      && (row.secretHash != "" ==> row'.secretHash == row.secretHash)
      && (row.createdAt != ZERO_TIME ==> row'.createdAt == row.createdAt)
  {
    hide Load, Listed, Watches, Normalise;
  }

  /**
   Where they do not find it, the first secret can be lost: a device registers without a secret,
   then with one while the disk refuses, is told so, and the process starts over. Its token has
   stayed throughout, and is owned by nobody again.
   */
  lemma ARestartCanLoseTheSecret(limits: Limits, r: Registration, secret: string)
    requires r.secretHash == "" && secret != "" && PutVerdict(limits, map[], r) == Stored
    ensures var s0, owned := Init(limits), r.(secretHash := secret);
      var s1 := Next(s0, Put(r, true));
      var s2 := Next(s1, Put(owned, false));
      && Possible(s0, [Put(r, true), Put(owned, false), Reopen])
      && Reply(s1, Put(owned, false)) == WriteFailed
      && r.token in s2.table && s2.table[r.token].secretHash == secret
      && r.token in Next(s2, Reopen).table && Next(s2, Reopen).table[r.token].secretHash == ""
  {
    var s0, owned := Init(limits), r.(secretHash := secret);
    var first, second := Put(r, true), Put(owned, false);
    EmptyIsSound(limits);
    SoundStep(s0, first);
    OwnedIsStored(limits, r, owned);
    TakenPut(s0, r);
    var s1 := Next(s0, first);
    RefusedPut(s1, owned);
    var s2 := Next(s1, second);
    Reopened(s2);
    UnderItsToken(map[], r);
    UnderItsToken(s1.table, owned);
    hide Next, PutVerdict, PutTable, Load, SoundState, Enabled, Writes;
    ThreeSteps(s0, first, second, Reopen);
  }

  lemma TakenPut(s: State, r: Registration)
    requires PutVerdict(s.limits, s.table, r) == Stored
    ensures var put := Put(r, true);
      && Enabled(s, put) && Writes(s, put)
      && Next(s, put).limits == s.limits && Next(s, put).table == PutTable(s.table, r)
  {
    hide PutVerdict, PutTable, Listed;
  }

  lemma RefusedPut(s: State, r: Registration)
    requires PutVerdict(s.limits, s.table, r) == Stored
    ensures var put := Put(r, false);
      Enabled(s, put) && Reply(s, put) == WriteFailed && Next(s, put) == s.(table := PutTable(s.table, r))
  {
    hide PutVerdict, PutTable, Listed;
  }

  lemma UnderItsToken(table: Table, r: Registration)
    ensures r.token in PutTable(table, r) && PutTable(table, r)[r.token].secretHash == r.secretHash
  {
    hide Kept;
  }

  lemma OwnedIsStored(limits: Limits, r: Registration, owned: Registration)
    requires PutVerdict(limits, map[], r) == Stored && r.secretHash == "" && owned == r.(secretHash := owned.secretHash)
    ensures PutVerdict(limits, PutTable(map[], r), owned) == Stored
  {
    var none: Table := map[];
    var table := PutTable(none, r);
    assert table.Keys == {r.token} && |table| == |table.Keys|;
    var row := Prepared(table, owned);
    assert Superseded(table, row) == {} && OtherWatchers(table, row) == {};
    assert OtherWatchers(none, Prepared(none, r)) == {} && Superseded(none, Prepared(none, r)) == {};
    hide Watches, Kept;
  }

  lemma ThreeSteps(s: State, a: Event, b: Event, c: Event)
    requires Enabled(s, a) && Enabled(Next(s, a), b) && Enabled(Next(Next(s, a), b), c)
    ensures Possible(s, [a, b, c])
  {
    hide Enabled, Next;
    assert [a, b, c][1..] == [b, c] && [b, c][1..] == [c] && [c][1..] == [];
    assert Possible(Next(Next(s, a), b), [c]);
    assert Possible(Next(s, a), [b, c]);
  }

  /** The ways out for an owned row: its own secret, two of the relay's own, or its own device. */
  ghost predicate MayRemove(e: Event, token: string, row: Registration) {
    match e
    case Put(r, _) => r.token != token && SameDevice(row, r)
    case DeleteIfOwned(t, presented, _) => t == token && presented == row.secretHash
    case Delete(t, _) => t == token
    case Prune(seen, expired, _) => Stale(row, seen, expired)
    case Reopen => false
  }

  lemma RemovalStep(s: State, e: Event, token: string)
    requires Keyed(s.table) && token in s.table && s.table[token].secretHash != ""
    requires e.Reopen? ==> Found(OnDisk(s.file), token) == Found(s.table, token)
    ensures token in Next(s, e).table || MayRemove(e, token, s.table[token])
    ensures token in Next(s, e).table ==> Next(s, e).table[token].secretHash == s.table[token].secretHash
  {
    hide Load, Listed, Watches, Normalise;
  }

  /**
   In any run whose restarts find it as it was, an owned row that is gone was removed by one of
   those: a step before which it was still there and still owned by the same secret, and after
   which it was not there.
   */
  lemma {:induction false} OwnedRowsLeaveOnlySo(s: State, es: seq<Event>, token: string) returns (i: nat)
    requires SoundState(s) && token in s.table && s.table[token].secretHash != ""
    requires Possible(s, es) && RestartsAgree(s, es, token) && token !in Final(s, es).table
    ensures i < |es| && token in Final(s, es[..i]).table
    ensures Final(s, es[..i]).table[token].secretHash == s.table[token].secretHash
    ensures MayRemove(es[i], token, Final(s, es[..i]).table[token])
    ensures token !in Final(s, es[..i + 1]).table
    decreases |es|
  {
    var e, rest := es[0], es[1..];
    RemovalStep(s, e, token);
    SoundStep(s, e);
    hide Next, SoundState, Enabled, OnDisk, MayRemove, Final;
    if token in Next(s, e).table {
      OneStepOn(s, es, |rest|);
      var j := OwnedRowsLeaveOnlySo(Next(s, e), rest, token);
      i := j + 1;
      OneStepOn(s, es, j);
      OneStepOn(s, es, j + 1);
    } else {
      i := 0;
      OneStepOn(s, es, 0);
    }
  }

  /** Going `j` steps on from the first step of a run is going one more from its start. */
  lemma OneStepOn(s: State, es: seq<Event>, j: nat)
    requires j < |es|
    ensures Final(s, es[..j + 1]) == Final(Next(s, es[0]), es[1..][..j])
    ensures Final(s, es[..0]) == s && Final(Next(s, es[0]), es[1..][..0]) == Next(s, es[0])
    ensures Final(Next(s, es[0]), es[1..]) == Final(s, es) && es[1..][..|es| - 1] == es[1..]
  {
    assert es[..j + 1][0] == es[0] && es[..j + 1][1..] == es[1..][..j];
    hide Next;
  }

  /** A refusal changes nothing, in memory or on disk. */
  lemma RefusalsChangeNothing(s: State, e: Event)
    requires Reply(s, e).Refused?
    ensures Next(s, e) == s
  {
  }

  // ------------------------------------------------------------------ coming back

  function Watchers(table: Table, address: string): set<string> {
    set t | t in table && Watches(table[t], address)
  }

  /** The row under this token is owned, and not by the secret this registration shows. */
  predicate LacksSecret(table: Table, r: Registration)
    requires r.token in table
  {
    table[r.token].secretHash != "" && table[r.token].secretHash != r.secretHash
  }

  /**
   A device that is already here registers again under its token, with whatever accounts, times
   and mode it likes. It never meets the limit on rows; and past the checks of what it sent it is
   refused exactly when the rows that watch its primary address, itself among them, are more than
   the cap. Those include rows that name the address second, which were let in without being
   counted against it.
   */
  lemma WhenARefreshIsRefused(limits: Limits, table: Table, r: Registration)
    requires Sound(limits, table) && r.token in table && SameDevice(table[r.token], r)
    ensures var row := Prepared(table, r);
      && PutTable(table, r) == table[r.token := row]
      && PutVerdict(limits, table, r) ==
         if !r.mode.Valid() then UnknownMode
         else if LacksSecret(table, r) then WrongSecret
         else if |row.gmailAccounts| > MAX_GMAIL_ACCOUNTS then TooManyAccounts
         else if limits.maxPerAddress > 0 && row.gmailAddress != ""
                 && |Watchers(table, row.gmailAddress) + {r.token}| > limits.maxPerAddress
         then TooManyForAddress
         else Stored
  {
    var row := Prepared(table, r);
    assert NormalForm(table[r.token]);
    assert Superseded(table, row) == {};
    assert table - {} == table;
    SelfAndOthers(table, row);
    ReturningIsNotGrowth(limits, table, r);
  }

  lemma SelfAndOthers(table: Table, row: Registration)
    requires Keyed(table) && OneRowPerDevice(table) && row.token in table && SameDevice(table[row.token], row)
    ensures |Watchers(table, row.gmailAddress) + {row.token}| == 1 + |OtherWatchers(table, row)|
  {
    var others := OtherWatchers(table, row);
    assert Watchers(table, row.gmailAddress) + {row.token} == others + {row.token};
    assert row.token !in others;
  }

  /** The row it was stored as, put again: stored as it was, or refused by the rows that watch. */
  lemma WhenTheSameRowIsRefused(limits: Limits, table: Table, t: string)
    requires Sound(limits, table) && t in table
    ensures PutTable(table, table[t]) == table
    ensures PutVerdict(limits, table, table[t]) ==
      if limits.maxPerAddress > 0 && table[t].gmailAddress != ""
         && |Watchers(table, table[t].gmailAddress)| > limits.maxPerAddress
      then TooManyForAddress else Stored
  {
    var r := table[t];
    NormalRowIsFixed(table, t);
    assert r.token == t && SameDevice(r, r) && r.mode.Valid() && !LacksSecret(table, r);
    assert |r.gmailAccounts| <= MAX_GMAIL_ACCOUNTS;
    assert table[t := r] == table;
    assert Watchers(table, r.gmailAddress) + {t} == Watchers(table, r.gmailAddress);
    hide *;
    WhenARefreshIsRefused(limits, table, r);
  }

  // ------------------------------------------------------------------ a refresh that is refused

  predicate IsHex(c: char) {
    '0' <= c <= '9' || 'a' <= c <= 'f' || 'A' <= c <= 'F'
  }

  predicate ValidDeviceToken(token: string) {
    32 <= |token| <= 200 && forall i :: 0 <= i < |token| ==> IsHex(token[i])
  }

  /** A registration as the handler makes them: both tokens of the right shape, and no date of creation. */
  predicate FromHandler(r: Registration) {
    && ValidToken(r.token) && ValidDeviceToken(r.deviceToken) && r.topic != "" && r.mode.Valid()
    && r.createdAt == ZERO_TIME
  }

  const TOKEN_LENGTH := 32

  function PowerOfTen(width: nat): nat {
    if width == 0 then 1 else 10 * PowerOfTen(width - 1)
  }

  function Digit(n: nat): char {
    '0' + (n % 10) as char
  }

  /** The last `width` digits of a number: a token and a device token both, when it is 32 of them. */
  function Digits(n: nat, width: nat): string {
    if width == 0 then "" else Digits(n / 10, width - 1) + [Digit(n)]
  }

  lemma {:induction false} DigitsAreDigits(n: nat, width: nat)
    ensures |Digits(n, width)| == width
    ensures forall i :: 0 <= i < width ==> '0' <= Digits(n, width)[i] <= '9'
  {
    if width > 0 {
      DigitsAreDigits(n / 10, width - 1);
    }
  }

  lemma {:induction false} DigitsDiffer(m: nat, n: nat, width: nat)
    requires m < PowerOfTen(width) && n < PowerOfTen(width) && m != n
    ensures Digits(m, width) != Digits(n, width)
  {
    if width > 0 {
      DigitsAreDigits(m / 10, width - 1);
      DigitsAreDigits(n / 10, width - 1);
      var a, b := Digits(m, width), Digits(n, width);
      assert a[..width - 1] == Digits(m / 10, width - 1) && b[..width - 1] == Digits(n / 10, width - 1);
      assert a[width - 1] == Digit(m) && b[width - 1] == Digit(n);
      if m / 10 != n / 10 {
        DigitsDiffer(m / 10, n / 10, width - 1);
      }
    }
  }

  /** How many devices such tokens tell apart: more than any cap of 64 bits. */
  function MostDevices(): nat {
    PowerOfTen(TOKEN_LENGTH)
  }

  function Token(n: nat): string {
    Digits(n, TOKEN_LENGTH)
  }

  lemma TokensDiffer(m: nat, n: nat)
    requires m < MostDevices() && n < MostDevices() && m != n
    ensures Token(m) != Token(n)
  {
    DigitsDiffer(m, n, TOKEN_LENGTH);
  }

  /** What device number `n` sends, as the handler passes it on: seen now, created when the store says. */
  function Sent(n: nat, accounts: seq<GmailAccount>, now: Time): Registration {
    Registration(Token(n), Token(n), "app", false, Alert, "", accounts, ZERO_TIME, now, "", ZERO_TIME)
  }

  lemma SentIsFromHandler(n: nat, accounts: seq<GmailAccount>, now: Time)
    ensures FromHandler(Sent(n, accounts, now)) && Token(n) != ""
  {
    DigitsAreDigits(n, TOKEN_LENGTH);
    hide Digits;
  }

  /** The store asks nothing of an address but that it is not blank, so digits do here too. */
  const SHARED: string := Token(0)

  /** The device that comes first, with an address of its own. */
  function First(now: Time): Registration {
    Sent(0, [GmailAccount(SHARED, "")], now)
  }

  /** The others: each with an address of its own, and the first one's second. */
  function Other(n: nat, now: Time): Registration
    requires 0 < n
  {
    Sent(n, [GmailAccount(Token(n), ""), GmailAccount(SHARED, "")], now)
  }

  /** The first device registers, and then `n` others. */
  function Crowding(n: nat, now: Time): seq<Event> {
    if n == 0 then [Put(First(now), true)] else Crowding(n - 1, now) + [Put(Other(n, now), true)]
  }

  ghost predicate AllFine(s: State, es: seq<Event>)
    decreases |es|
  {
    es == [] || (Reply(s, es[0]) == Fine && AllFine(Next(s, es[0]), es[1..]))
  }

  lemma {:induction false} FineOneMore(s: State, es: seq<Event>, e: Event)
    requires AllFine(s, es) && Possible(s, es) && Reply(Final(s, es), e) == Fine && Enabled(Final(s, es), e)
    ensures AllFine(s, es + [e]) && Possible(s, es + [e]) && Final(s, es + [e]) == Next(Final(s, es), e)
    decreases |es|
  {
    hide Next, Reply, Enabled;
    if es == [] {
      assert ([] + [e])[1..] == [];
    } else {
      assert (es + [e])[1..] == es[1..] + [e];
      FineOneMore(Next(s, es[0]), es[1..], e);
    }
  }

  lemma {:induction false} DigitsAreNormal(s: string)
    requires s != "" && forall i :: 0 <= i < |s| ==> '0' <= s[i] <= '9'
    ensures Normalise(s) == s
  {
    assert Bare(s) && TrimLeft(s) == s && TrimRight(s) == s && ToLower(s) == s;
  }

  lemma TokenIsNormal(n: nat)
    ensures Normalise(Token(n)) == Token(n) && Token(n) != ""
  {
    DigitsAreDigits(n, TOKEN_LENGTH);
    hide Digits, Normalise;
    DigitsAreNormal(Token(n));
  }

  /** What is stored of one of them, if its token is new. */
  function StoredAs(r: Registration): Registration
    requires r.gmailAccounts != []
  {
    r.(createdAt := r.seenAt, gmailAddress := r.gmailAccounts[0].address)
  }

  /** The first device and `n` others, all watching its address, each with one of its own. */
  ghost predicate Crowded(table: Table, n: nat, now: Time) {
    && |table| == n + 1
    && First(now).token in table && table[First(now).token] == StoredAs(First(now))
    && forall t :: t in table ==> NoLater(t, n) && InCrowd(table[t], n)
  }

  /** This is no token of a device after the first and `n` others. */
  ghost predicate NoLater(token: string, n: nat) {
    forall m :: n < m < MostDevices() ==> token != Token(m)
  }

  ghost predicate InCrowd(row: Registration, n: nat) {
    && NoLater(row.deviceToken, n) && Watches(row, SHARED)
    && forall address :: Watches(row, address) ==> NoLater(address, n)
  }

  lemma FirstIsKept(now: Time)
    ensures Kept(First(now).gmailAccounts) == First(now).gmailAccounts
  {
    hide Token;
    TokenIsNormal(0);
    KeptKeepsNormal(First(now).gmailAccounts);
  }

  lemma OtherIsKept(n: nat, now: Time)
    requires 0 < n
    ensures Kept(Other(n, now).gmailAccounts) == Other(n, now).gmailAccounts
  {
    hide Token;
    TokenIsNormal(0);
    TokenIsNormal(n);
    KeptKeepsNormal(Other(n, now).gmailAccounts);
  }

  /** A device nobody stored is like, with an address nobody watches named first, is let in. */
  lemma NothingAgainst(limits: Limits, table: Table, r: Registration, row: Registration)
    requires r.token != "" && r.deviceToken != "" && r.topic != "" && r.mode.Valid() && r.token !in table
    requires Prepared(table, r) == row && row.token == r.token && |row.gmailAccounts| <= MAX_GMAIL_ACCOUNTS
    requires forall t :: t in table ==> !SameDevice(table[t], row) && !Watches(table[t], row.gmailAddress)
    requires limits.maxRegistrations == 0 || limits.maxRegistrations > |table|
    ensures PutVerdict(limits, table, r) == Stored && PutTable(table, r) == table[r.token := row]
  {
    assert Superseded(table, row) == {} && OtherWatchers(table, row) == {};
    assert table - {} == table;
  }

  lemma FirstIsAlone(limits: Limits, now: Time)
    ensures var none: Table := map[];
      PutVerdict(limits, none, First(now)) == Stored && Crowded(PutTable(none, First(now)), 0, now)
  {
    hide Token, MostDevices, Crowded;
    var none: Table := map[];
    var row := StoredAs(First(now));
    FirstIsKept(now);
    SentIsFromHandler(0, First(now).gmailAccounts, now);
    assert Prepared(none, First(now)) == row;
    hide Prepared, PutVerdict, PutTable;
    NothingAgainst(limits, none, First(now), row);
    OneCrowds(now);
  }

  lemma OneCrowds(now: Time)
    ensures Crowded(map[First(now).token := StoredAs(First(now))], 0, now)
  {
    hide Token, MostDevices;
    var row := StoredAs(First(now));
    var next: Table := map[First(now).token := row];
    assert next.Keys == {row.token} && |next| == |next.Keys|;
    assert row.gmailAccounts[0].address == SHARED;
    SharedIsNoLater(0);
    hide NoLater;
  }

  lemma SharedIsNoLater(n: nat)
    ensures NoLater(SHARED, n)
  {
    hide Token, MostDevices;
    forall m | n < m < MostDevices() ensures SHARED != Token(m) {
      TokensDiffer(0, m);
    }
  }

  /** The token of device number `n` is no earlier device's, and no later one's. */
  lemma OnlyItsOwn(n: nat)
    requires 0 < n < MostDevices()
    ensures NoLater(Token(n), n) && !NoLater(Token(n), n - 1)
  {
    hide Token, MostDevices;
    forall m | n < m < MostDevices() ensures Token(n) != Token(m) {
      TokensDiffer(n, m);
    }
  }

  lemma StillNoLater(t: string, n: nat)
    requires 0 < n && NoLater(t, n - 1)
    ensures NoLater(t, n)
  {
  }

  lemma OtherIsNew(table: Table, n: nat, now: Time)
    requires 0 < n < MostDevices() && Crowded(table, n - 1, now)
    ensures var r, row := Other(n, now), StoredAs(Other(n, now));
      && r.token !in table && Prepared(table, r) == row
      && forall t :: t in table ==> !SameDevice(table[t], row) && !Watches(table[t], row.gmailAddress)
  {
    hide Token, MostDevices;
    var r, row := Other(n, now), StoredAs(Other(n, now));
    OnlyItsOwn(n);
    assert r.token !in table by { hide InCrowd, NoLater; }
    OtherIsKept(n, now);
    forall t | t in table ensures !SameDevice(table[t], row) && !Watches(table[t], row.gmailAddress) {
      assert InCrowd(table[t], n - 1);
      hide Watches, NoLater;
    }
  }

  lemma OtherIsInCrowd(n: nat, now: Time)
    requires 0 < n < MostDevices()
    ensures InCrowd(StoredAs(Other(n, now)), n)
  {
    hide Token, MostDevices;
    var row := StoredAs(Other(n, now));
    OnlyItsOwn(n);
    SharedIsNoLater(n);
    assert row.gmailAccounts[0].address == Token(n) && row.gmailAccounts[1].address == SHARED;
    hide NoLater;
  }

  lemma StillInCrowd(row: Registration, n: nat)
    requires 0 < n && InCrowd(row, n - 1)
    ensures InCrowd(row, n)
  {
    hide Token, MostDevices, Watches;
  }

  lemma OtherJoins(table: Table, row: Registration, n: nat, now: Time)
    requires 0 < n < MostDevices() && Crowded(table, n - 1, now)
    requires row == StoredAs(Other(n, now)) && row.token !in table
    ensures Crowded(table[row.token := row], n, now)
  {
    hide Token, MostDevices;
    var next := table[row.token := row];
    assert next.Keys == table.Keys + {row.token};
    assert |next| == |next.Keys| && |table| == |table.Keys|;
    assert row.token == Token(n) && First(now).token in table;
    OtherIsInCrowd(n, now);
    OnlyItsOwn(n);
    hide Watches, StoredAs, NoLater;
    forall t | t in table ensures NoLater(t, n) && InCrowd(table[t], n) {
      assert InCrowd(table[t], n - 1);
      StillNoLater(t, n);
      StillInCrowd(table[t], n);
    }
  }

  lemma OneMoreCrowds(limits: Limits, table: Table, n: nat, now: Time)
    requires 0 < n < MostDevices() && Crowded(table, n - 1, now)
    requires limits.maxRegistrations == 0 || limits.maxRegistrations > n
    ensures PutVerdict(limits, table, Other(n, now)) == Stored
    ensures Crowded(PutTable(table, Other(n, now)), n, now)
  {
    hide Token, MostDevices;
    var r, row := Other(n, now), StoredAs(Other(n, now));
    OtherIsNew(table, n, now);
    OtherJoins(table, row, n, now);
    SentIsFromHandler(n, r.gmailAccounts, now);
    hide Prepared, PutVerdict, PutTable, Watches;
    NothingAgainst(limits, table, r, row);
  }

  lemma {:induction false} CrowdingRuns(limits: Limits, n: nat, now: Time)
    requires n < MostDevices()
    requires limits.maxRegistrations == 0 || limits.maxRegistrations > n
    ensures Possible(Init(limits), Crowding(n, now)) && AllFine(Init(limits), Crowding(n, now))
    ensures var s := Final(Init(limits), Crowding(n, now)); s.limits == limits && Crowded(s.table, n, now)
  {
    hide Crowded, Next, Reply, Enabled, PutVerdict, PutTable, Token, MostDevices;
    if n == 0 {
      CrowdBegins(limits, now);
      FineOneMore(Init(limits), [], Put(First(now), true));
      assert [] + [Put(First(now), true)] == [Put(First(now), true)];
    } else {
      CrowdingRuns(limits, n - 1, now);
      CrowdGrows(Final(Init(limits), Crowding(n - 1, now)), n, now);
      FineOneMore(Init(limits), Crowding(n - 1, now), Put(Other(n, now), true));
    }
  }

  lemma CrowdBegins(limits: Limits, now: Time)
    ensures var e := Put(First(now), true);
      && Reply(Init(limits), e) == Fine && Enabled(Init(limits), e)
      && Next(Init(limits), e).limits == limits && Crowded(Next(Init(limits), e).table, 0, now)
  {
    FirstIsAlone(limits, now);
    hide Crowded, PutVerdict, PutTable, First, Listed, MostDevices;
  }

  lemma CrowdGrows(s: State, n: nat, now: Time)
    requires 0 < n < MostDevices() && Crowded(s.table, n - 1, now)
    requires s.limits.maxRegistrations == 0 || s.limits.maxRegistrations > n
    ensures var e := Put(Other(n, now), true);
      && Reply(s, e) == Fine && Enabled(s, e)
      && Next(s, e).limits == s.limits && Crowded(Next(s, e).table, n, now)
  {
    OneMoreCrowds(s.limits, s.table, n, now);
    hide Crowded, PutVerdict, PutTable, Other, Listed, MostDevices;
  }

  ghost predicate AllFromHandler(es: seq<Event>) {
    forall i :: 0 <= i < |es| ==> es[i].Put? && FromHandler(es[i].row)
  }

  lemma {:induction false} CrowdIsFromHandler(n: nat, now: Time)
    ensures AllFromHandler(Crowding(n, now))
  {
    hide Token, FromHandler;
    if n == 0 {
      SentIsFromHandler(0, First(now).gmailAccounts, now);
    } else {
      CrowdIsFromHandler(n - 1, now);
      SentIsFromHandler(n, Other(n, now).gmailAccounts, now);
    }
  }

  /**
   That refusal is reachable at every cap short of 10^32, by registrations of the shape handlers
   let through: a device registers, as many others as the cap name an address of their own first
   and its address second, all of them welcome and no cap exceeded, and then the first cannot
   register again.
   */
  lemma ARefreshCanBeRefused(limits: Limits, now: Time, later: Time)
    requires 0 < limits.maxPerAddress < MostDevices()
    requires limits.maxRegistrations == 0 || limits.maxRegistrations > limits.maxPerAddress
    ensures var es := Crowding(limits.maxPerAddress, now);
      var s := Final(Init(limits), es);
      && Possible(Init(limits), es) && AllFine(Init(limits), es) && AllFromHandler(es)
      && First(later).token in s.table && SameDevice(s.table[First(later).token], First(later))
      && WithinLimits(limits, s.table) && FromHandler(First(later))
      && Reply(s, Put(First(later), true)) == Refused(TooManyForAddress)
  {
    var n := limits.maxPerAddress;
    var s := Final(Init(limits), Crowding(n, now));
    CrowdingRuns(limits, n, now);
    CrowdIsFromHandler(n, now);
    SentIsFromHandler(0, First(later).gmailAccounts, later);
    SoundFromNothing(limits, Crowding(n, now));
    assert Sound(limits, s.table) && WithinLimits(limits, s.table);
    assert First(later) == Sent(0, First(later).gmailAccounts, later);
    hide *;
    CrowdedOut(limits, s.table, n, now, later);
    RefusedSo(s, First(later));
    assert s.limits == limits;
  }

  lemma RefusedSo(s: State, r: Registration)
    requires PutVerdict(s.limits, s.table, r) != Stored
    ensures Reply(s, Put(r, true)) == Refused(PutVerdict(s.limits, s.table, r))
  {
    hide PutVerdict;
  }

  lemma CrowdedOut(limits: Limits, table: Table, n: nat, now: Time, later: Time)
    requires Sound(limits, table) && Crowded(table, n, now) && n == limits.maxPerAddress && 0 < n
    ensures First(later).token in table && SameDevice(table[First(later).token], First(later))
    ensures PutVerdict(limits, table, First(later)) == TooManyForAddress
  {
    hide Token, MostDevices;
    var r := First(later);
    FirstIsPrepared(table, later);
    AllWatch(table, n, now);
    hide Sound, NoLater, Prepared, PutTable, PutVerdict, Watchers;
    WhenARefreshIsRefused(limits, table, r);
  }

  lemma FirstIsPrepared(table: Table, later: Time)
    ensures Prepared(table, First(later)).gmailAddress == SHARED
    ensures |Prepared(table, First(later)).gmailAccounts| == 1
  {
    hide Token;
    FirstIsKept(later);
    hide Kept;
  }

  lemma AllWatch(table: Table, n: nat, now: Time)
    requires Crowded(table, n, now)
    ensures |Watchers(table, SHARED) + {First(now).token}| == n + 1
  {
    hide Token, MostDevices, NoLater;
    assert forall t :: t in table ==> InCrowd(table[t], n);
    assert Watchers(table, SHARED) + {First(now).token} == table.Keys;
    assert |table| == |table.Keys|;
  }

  /** Sixteen others are enough where a store has the limits it has unless it is given others. */
  lemma ARefreshCanBeRefusedByDefault(now: Time, later: Time)
    ensures var es := Crowding(16, now);
      && AllFine(Init(DEFAULT_LIMITS), es) && AllFromHandler(es) && FromHandler(First(later))
      && Reply(Final(Init(DEFAULT_LIMITS), es), Put(First(later), true)) == Refused(TooManyForAddress)
  {
    ManyDevices(TOKEN_LENGTH, 2);
    assert DEFAULT_LIMITS.maxPerAddress == 16;
    hide *;
    ARefreshCanBeRefused(DEFAULT_LIMITS, now, later);
  }

  lemma {:induction false} ManyDevices(width: nat, least: nat)
    requires least <= width
    ensures PowerOfTen(width) >= PowerOfTen(least)
  {
    if least < width {
      ManyDevices(width - 1, least);
    }
  }

  // ------------------------------------------------------------------ fan-out

  /**
   The limit for an address does not bound how many devices one notification goes to: at every
   limit, as many watch one address as the store will hold at all, each registered as handlers
   register them. What the limit does bound is the rows that name the address first.
   */
  lemma FanOutIsNotBounded(limits: Limits, n: nat, now: Time)
    requires n < MostDevices()
    requires limits.maxRegistrations == 0 || limits.maxRegistrations > n
    ensures var es := Crowding(n, now);
      var s := Final(Init(limits), es);
      && Possible(Init(limits), es) && AllFine(Init(limits), es) && AllFromHandler(es)
      && Watching(s.table, SHARED) == s.table && |s.table| == n + 1
      && (0 < limits.maxPerAddress ==> |PrimaryRows(s.table, SHARED)| <= limits.maxPerAddress)
  {
    var s := Final(Init(limits), Crowding(n, now));
    CrowdingRuns(limits, n, now);
    CrowdIsFromHandler(n, now);
    SoundFromNothing(limits, Crowding(n, now));
    AllAreTold(s.table, n, now);
    assert Sound(limits, s.table) && SHARED != "";
    hide Crowding, Next, Reply, Possible, Final, Crowded, AllFine, AllFromHandler, Watching, PrimaryRows;
  }

  lemma AllAreTold(table: Table, n: nat, now: Time)
    requires Crowded(table, n, now)
    ensures Watching(table, SHARED) == table && |table| == n + 1
  {
    hide Token, MostDevices, NoLater;
    TokenIsNormal(0);
    assert forall t :: t in table ==> InCrowd(table[t], n);
    hide Watches, Normalise;
  }
}
