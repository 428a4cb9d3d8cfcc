/**
 The registration store as operations on a table of rows and the file that mirrors it. Whether
 the disk takes a write is part of the operation.
 */
module Store {
  import opened Types
  import opened Text
  import opened Listing

  /** Zero means no limit. */
  datatype Limits = Limits(maxRegistrations: nat, maxPerAddress: nat)

  const DEFAULT_LIMITS := Limits(5000, 16)

  const MAX_GMAIL_ACCOUNTS := 8

  /** What is on disk. Encoding rows and decoding them again is taken to be the identity. */
  datatype File = Missing | Empty | Corrupt | Rows(rows: seq<Registration>)

  datatype State = State(limits: Limits, table: Table, file: File)

  datatype Verdict =
    | Stored
    | Incomplete
    | UnknownMode
    | WrongSecret
    | TooManyAccounts
    | SiteFull
    | TooManyForAddress

  /** `presented` is the hash of the secret a caller showed; `Reopen` is the process starting over. */
  datatype Event =
    | Put(row: Registration, diskTakes: bool)
    | DeleteIfOwned(token: string, presented: string, diskTakes: bool)
    | Delete(token: string, diskTakes: bool)
    | Prune(seenBefore: Time, expiredBefore: Time, diskTakes: bool)
    | Reopen

  /** What the caller is told. */
  datatype Answer = Fine | Refused(why: Verdict) | WriteFailed

  // ------------------------------------------------------------------ what Put makes of a row

  function Kept(accounts: seq<GmailAccount>): seq<GmailAccount> {
    if accounts == [] then []
    else
      var address := Normalise(accounts[0].address);
      (if address == "" then [] else [GmailAccount(address, accounts[0].tag)]) + Kept(accounts[1..])
  }

  /** One shape inside: addresses normalised, blanks dropped, each field filled from the other. */
  function Prepared(table: Table, r: Registration): Registration {
    var born := if r.token in table then table[r.token].createdAt else r.createdAt;
    var address := Normalise(r.gmailAddress);
    var kept := Kept(r.gmailAccounts);
    var accounts := if kept == [] && address != "" then [GmailAccount(address, "")] else kept;
    r.(createdAt := if born == ZERO_TIME then r.seenAt else born,
       gmailAddress := if address == "" && accounts != [] then accounts[0].address else address,
       gmailAccounts := accounts)
  }

  predicate SameDevice(a: Registration, b: Registration) {
    a.deviceToken == b.deviceToken && a.topic == b.topic
  }

  predicate Watches(r: Registration, address: string) {
    r.gmailAddress == address || exists i :: 0 <= i < |r.gmailAccounts| && r.gmailAccounts[i].address == address
  }

  /** The rows a notification for an address is for; a blank address is nobody's. */
  function Watching(table: Table, address: string): Table {
    var a := Normalise(address);
    if a == "" then map[] else map t | t in table && Watches(table[t], a) :: table[t]
  }

  /** The rows a Put replaces: the same device and app, under another token. */
  function Superseded(table: Table, r: Registration): set<string> {
    set t | t in table && t != r.token && SameDevice(table[t], r)
  }

  /** How many rows there would be: a net count, less what is replaced. */
  function After(table: Table, r: Registration): int {
    |table| + 1 - |Superseded(table, r)| - (if r.token in table then 1 else 0)
  }

  /** The other devices already watching the row's primary address. */
  function OtherWatchers(table: Table, r: Registration): set<string> {
    set t | t in table && t != r.token && !SameDevice(table[t], r) && Watches(table[t], r.gmailAddress)
  }

  function PutVerdict(limits: Limits, table: Table, r: Registration): Verdict {
    var row := Prepared(table, r);
    if r.token == "" || r.deviceToken == "" || r.topic == "" then Incomplete
    else if !r.mode.Valid() then UnknownMode
    else if r.token in table && table[r.token].secretHash != "" && table[r.token].secretHash != r.secretHash
    then WrongSecret
    else if |row.gmailAccounts| > MAX_GMAIL_ACCOUNTS then TooManyAccounts
    else if limits.maxRegistrations > 0 && After(table, row) > limits.maxRegistrations then SiteFull
    else if row.gmailAddress != "" && limits.maxPerAddress > 0
            && 1 + |OtherWatchers(table, row)| > limits.maxPerAddress
    then TooManyForAddress
    else Stored
  }

  function PutTable(table: Table, r: Registration): Table {
    var row := Prepared(table, r);
    (table - Superseded(table, row))[r.token := row]
  }

  predicate Stale(r: Registration, seenBefore: Time, expiredBefore: Time) {
    r.seenAt < seenBefore || (r.expiresAt != ZERO_TIME && r.expiresAt < expiredBefore)
  }

  function Pruned(table: Table, seenBefore: Time, expiredBefore: Time): Table {
    map t | t in table && !Stale(table[t], seenBefore, expiredBefore) :: table[t]
  }

  // ------------------------------------------------------------------ steps

  predicate OwnedByAnother(table: Table, token: string, presented: string) {
    token in table && table[token].secretHash != "" && table[token].secretHash != presented
  }

  /** The table after an operation, whatever the disk does. */
  ghost function TableAfter(s: State, e: Event): Table {
    match e
    case Put(r, _) => if PutVerdict(s.limits, s.table, r) == Stored then PutTable(s.table, r) else s.table
    case DeleteIfOwned(t, presented, _) =>
      if OwnedByAnother(s.table, t, presented) then s.table else s.table - {t}
    case Delete(t, _) => s.table - {t}
    case Prune(seen, expired, _) => Pruned(s.table, seen, expired)
    case Reopen => if s.file.Rows? then Load(s.file.rows) else map[]
  }

  /** Only an operation that has something to write touches the disk. */
  ghost predicate TriesToWrite(s: State, e: Event) {
    match e
    case Put(r, _) => PutVerdict(s.limits, s.table, r) == Stored
    case DeleteIfOwned(t, presented, _) => t in s.table && !OwnedByAnother(s.table, t, presented)
    case Delete(t, _) => t in s.table
    case Prune(seen, expired, _) => exists t :: t in s.table && Stale(s.table[t], seen, expired)
    case Reopen => false
  }

  ghost predicate Writes(s: State, e: Event) {
    TriesToWrite(s, e) && e.diskTakes
  }

  ghost predicate Enabled(s: State, e: Event) {
    e.Reopen? ==> !s.file.Corrupt?
  }

  ghost function Next(s: State, e: Event): State {
    var table := TableAfter(s, e);
    State(s.limits, table, if Writes(s, e) then Rows(Listed(table)) else s.file)
  }

  ghost function Reply(s: State, e: Event): Answer {
    if e.Put? && PutVerdict(s.limits, s.table, e.row) != Stored then Refused(PutVerdict(s.limits, s.table, e.row))
    else if e.DeleteIfOwned? && OwnedByAnother(s.table, e.token, e.presented) then Refused(WrongSecret)
    else if TriesToWrite(s, e) && !e.diskTakes then WriteFailed
    else Fine
  }

  function Init(limits: Limits): State {
    State(limits, map[], Missing)
  }

  ghost predicate Possible(s: State, es: seq<Event>)
    decreases |es|
  {
    es == [] || (Enabled(s, es[0]) && Possible(Next(s, es[0]), es[1..]))
  }

  ghost function Final(s: State, es: seq<Event>): State
    decreases |es|
  {
    if es == [] then s else Final(Next(s, es[0]), es[1..])
  }
}
