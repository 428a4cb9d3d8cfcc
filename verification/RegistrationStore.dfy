/** The store as the relay holds it: a map of rows under one lock, rewritten whole to its file. */
module RegistrationStore {
  import opened Types
  import opened Text
  import opened Listing
  import opened Store
  import StoreOperations

  /** The hash of no secret is no hash; the hash itself is whatever function it is. */
  function HashSecret(hash: string -> string, secret: string): string {
    if secret == "" then "" else hash(secret)
  }

  class RegistrationStore {
    const limits: Limits
    const hash: string -> string
    var registrations: Table
    var file: File

    ghost predicate Valid()
      reads this
    {
      Keyed(registrations)
    }

    ghost function View(): State
      reads this
    {
      State(limits, registrations, file)
    }

    constructor (limits: Limits, hash: string -> string, file: File)
      requires !file.Corrupt?
      ensures Valid() && this.limits == limits && this.hash == hash && this.file == file
      ensures registrations == if file.Rows? then Load(file.rows) else map[]
    {
      this.limits, this.hash, this.file := limits, hash, file;
      registrations := if file.Rows? then Load(file.rows) else map[];
      new;
      if file.Rows? {
        LoadedRows(file.rows);
      }
    }

    /** Opens what is on disk; there is no store to be had from a file that cannot be parsed. */
    static method Open(limits: Limits, hash: string -> string, file: File) returns (store: RegistrationStore?)
      ensures store == null <==> file.Corrupt?
      ensures store != null ==>
        && fresh(store) && store.Valid() && store.hash == hash
        && store.View() == State(limits, if file.Rows? then Load(file.rows) else map[], file)
    {
      if file.Corrupt? {
        return null;
      }
      store := new RegistrationStore(limits, hash, file);
    }

    /** A row found is the one filed under the token, and carries it. */
    method Get(token: string) returns (row: Option<Registration>)
      requires Valid()
      ensures row.Some? <==> token in View().table
      ensures row.Some? ==> row.value.token == token && row.value == View().table[token]
    {
      row := if token in registrations then Some(registrations[token]) else None;
    }

    method Put(row: Registration, diskTakes: bool) returns (answer: Answer)
      requires Valid()
      modifies this
      ensures Valid()
      ensures View() == Next(old(View()), Event.Put(row, diskTakes))
      ensures answer == Reply(old(View()), Event.Put(row, diskTakes))
    {
      var verdict, r := Consider(row);
      if verdict != Stored {
        return Refused(verdict);
      }
      ghost var before := registrations;
      registrations := registrations[r.token := r];
      DropSuperseded(before, r);
      assert registrations == PutTable(before, row);
      var written := FlushLocked(diskTakes);
      answer := if written then Fine else WriteFailed;
    }

    /** Everything Put checks, in its order, and the row as it would be stored. */
    method Consider(row: Registration) returns (verdict: Verdict, r: Registration)
      ensures verdict == PutVerdict(limits, registrations, row)
      ensures verdict == Stored ==> r == Prepared(registrations, row)
    {
      r := row;
      if r.token == "" || r.deviceToken == "" || r.topic == "" {
        return Incomplete, r;
      }
      if !r.mode.Valid() {
        return UnknownMode, r;
      }
      var replacing := r.token in registrations;
      if replacing {
        var existing := registrations[r.token];
        r := r.(createdAt := existing.createdAt);
        if existing.secretHash != "" && existing.secretHash != r.secretHash {
          return WrongSecret, r;
        }
      }
      r := InOneShape(r);
      assert r == Prepared(registrations, row);
      if |r.gmailAccounts| > MAX_GMAIL_ACCOUNTS {
        return TooManyAccounts, r;
      }
      var superseded := CountSuperseded(r);
      var after := |registrations| + 1 - superseded;
      if replacing {
        after := after - 1;
      }
      if limits.maxRegistrations > 0 && after > limits.maxRegistrations {
        return SiteFull, r;
      }
      if r.gmailAddress != "" && limits.maxPerAddress > 0 {
        var forAddress := CountForAddress(r);
        if forAddress > limits.maxPerAddress {
          return TooManyForAddress, r;
        }
      }
      verdict := Stored;
    }

    method InOneShape(row: Registration) returns (r: Registration)
      requires row.token in registrations ==> row.createdAt == registrations[row.token].createdAt
      ensures r == Prepared(registrations, row)
    {
      r := row;
      if r.createdAt == ZERO_TIME {
        r := r.(createdAt := r.seenAt);
      }
      r := r.(gmailAddress := Normalise(r.gmailAddress));
      var kept := KeepAccounts(r.gmailAccounts);
      r := r.(gmailAccounts := kept);
      if |r.gmailAccounts| == 0 && r.gmailAddress != "" {
        r := r.(gmailAccounts := [GmailAccount(r.gmailAddress, "")]);
      }
      if r.gmailAddress == "" && |r.gmailAccounts| > 0 {
        r := r.(gmailAddress := r.gmailAccounts[0].address);
      }
    }

    /** Normalises every address and drops the blank ones. */
    method KeepAccounts(accounts: seq<GmailAccount>) returns (kept: seq<GmailAccount>)
      ensures kept == Kept(accounts)
    {
      kept := [];
      var i := 0;
      while i < |accounts|
        invariant 0 <= i <= |accounts| && kept == Kept(accounts[..i])
      {
        var address := Normalise(accounts[i].address);
        KeptJoined(accounts[..i], accounts[i]);
        assert accounts[..i + 1] == accounts[..i] + [accounts[i]];
        if address != "" {
          kept := kept + [GmailAccount(address, accounts[i].tag)];
        }
        i := i + 1;
      }
      assert accounts[..i] == accounts;
    }

    method CountSuperseded(r: Registration) returns (superseded: nat)
      ensures superseded == |Superseded(registrations, r)|
    {
      superseded := 0;
      var left := registrations.Keys;
      ghost var counted: set<string> := {};
      while left != {}
        invariant left <= registrations.Keys
        invariant counted == (set t | t in Superseded(registrations, r) && t !in left)
        invariant superseded == |counted|
        decreases left
      {
        var token :| token in left;
        left := left - {token};
        var other := registrations[token];
        if token != r.token && other.deviceToken == r.deviceToken && other.topic == r.topic {
          superseded := superseded + 1;
          counted := counted + {token};
        }
      }
      assert counted == Superseded(registrations, r);
    }

    /** The devices that would be watching the row's primary address, itself included. */
    method CountForAddress(r: Registration) returns (forAddress: nat)
      ensures forAddress == 1 + |OtherWatchers(registrations, r)|
    {
      forAddress := 1;
      var left := registrations.Keys;
      ghost var counted: set<string> := {};
      while left != {}
        invariant left <= registrations.Keys
        invariant counted == (set t | t in OtherWatchers(registrations, r) && t !in left)
        invariant forAddress == 1 + |counted|
        decreases left
      {
        var token :| token in left;
        left := left - {token};
        var other := registrations[token];
        if token == r.token {
        } else if other.deviceToken == r.deviceToken && other.topic == r.topic {
        } else if Watches(other, r.gmailAddress) {
          forAddress := forAddress + 1;
          counted := counted + {token};
        }
      }
      assert counted == OtherWatchers(registrations, r);
    }

    /** Whatever else was stored for the same device and topic makes way for the row just written. */
    method DropSuperseded(ghost before: Table, r: Registration)
      requires Keyed(before) && registrations == before[r.token := r]
      modifies this`registrations
      ensures registrations == (before - Superseded(before, r))[r.token := r]
      ensures Keyed(registrations)
    {
      var left := registrations.Keys;
      ghost var gone := Superseded(before, r);
      while left != {}
        invariant left <= before.Keys + {r.token}
        invariant forall t :: t in registrations <==>
          t == r.token || (t in before && (t in left || t !in gone))
        invariant forall t :: t in registrations ==>
          registrations[t] == if t == r.token then r else before[t]
        decreases left
      {
        var token :| token in left;
        left := left - {token};
        if token != r.token {
          var other := registrations[token];
          if other.deviceToken == r.deviceToken && other.topic == r.topic {
            registrations := registrations - {token};
          }
        }
      }
    }

    method DeleteIfOwned(token: string, secret: string, diskTakes: bool) returns (answer: Answer)
      requires Valid()
      modifies this
      ensures Valid()
      ensures View() == Next(old(View()), Event.DeleteIfOwned(token, HashSecret(hash, secret), diskTakes))
      ensures answer == Reply(old(View()), Event.DeleteIfOwned(token, HashSecret(hash, secret), diskTakes))
      ensures var shown := if secret == "" then "" else hash(secret);
        if token in old(registrations) && old(registrations)[token].secretHash !in {"", shown}
        then registrations == old(registrations) && answer == Refused(WrongSecret)
        else registrations == old(registrations) - {token} && !answer.Refused?
    {
      if token !in registrations {
        assert registrations - {token} == registrations;
        return Fine;
      }
      var existing := registrations[token];
      if existing.secretHash != "" && existing.secretHash != HashSecret(hash, secret) {
        return Refused(WrongSecret);
      }
      registrations := registrations - {token};
      var written := FlushLocked(diskTakes);
      answer := if written then Fine else WriteFailed;
    }

    method Delete(token: string, diskTakes: bool) returns (answer: Answer)
      requires Valid()
      modifies this
      ensures Valid()
      ensures View() == Next(old(View()), Event.Delete(token, diskTakes))
      ensures answer == Reply(old(View()), Event.Delete(token, diskTakes))
    {
      if token !in registrations {
        assert registrations - {token} == registrations;
        return Fine;
      }
      registrations := registrations - {token};
      var written := FlushLocked(diskTakes);
      answer := if written then Fine else WriteFailed;
    }

    method Prune(seenBefore: Time, expiredBefore: Time, diskTakes: bool) returns (removed: nat, answer: Answer)
      requires Valid()
      modifies this
      ensures Valid()
      ensures View() == Next(old(View()), Event.Prune(seenBefore, expiredBefore, diskTakes))
      ensures answer == Reply(old(View()), Event.Prune(seenBefore, expiredBefore, diskTakes))
      ensures removed == |old(registrations)| - |registrations|
      ensures forall t :: t in registrations <==>
        && t in old(registrations) && seenBefore <= old(registrations)[t].seenAt
        && (old(registrations)[t].expiresAt == 0.0 || expiredBefore <= old(registrations)[t].expiresAt)
      ensures forall t :: t in registrations ==> registrations[t] == old(registrations)[t]
    {
      ghost var was := registrations;
      removed := 0;
      var left := registrations.Keys;
      while left != {}
        invariant left <= registrations.Keys <= was.Keys
        invariant forall t :: t in registrations ==> registrations[t] == was[t]
        invariant forall t :: t in was ==>
          (t in registrations <==> t in left || !Stale(was[t], seenBefore, expiredBefore))
        invariant removed == |was| - |registrations|
        invariant file == old(file)
        decreases left
      {
        var token :| token in left;
        left := left - {token};
        var r := registrations[token];
        var expired := r.expiresAt != ZERO_TIME && r.expiresAt < expiredBefore;
        if r.seenAt < seenBefore || expired {
          ghost var before := registrations;
          registrations := registrations - {token};
          assert registrations.Keys == before.Keys - {token};
          assert |registrations| == |registrations.Keys| && |before| == |before.Keys|;
          removed := removed + 1;
        }
      }
      assert registrations == Pruned(was, seenBefore, expiredBefore);
      SomethingWent(was, registrations);
      if removed == 0 {
        return 0, Fine;
      }
      var written := FlushLocked(diskTakes);
      answer := if written then Fine else WriteFailed;
    }

    /** Rewrites the file whole, or fails and leaves it as it was. */
    method FlushLocked(diskTakes: bool) returns (written: bool)
      requires Valid()
      modifies this`file
      ensures written == diskTakes
      ensures file == if diskTakes then Rows(Listed(registrations)) else old(file)
    {
      var list := Collect(registrations);
      ListedLists(registrations);
      OneListing(list, Listed(registrations), registrations);
      if !diskTakes {
        return false;
      }
      file := Rows(list);
      return true;
    }

    /** Every row watching an address, in ascending order of token. */
    method ByGmail(address: string) returns (found: seq<Registration>)
      requires Valid()
      ensures Lists(found, Watching(registrations, address))
      ensures forall r: Registration :: r in found <==>
        && Normalise(address) != "" && r.token in registrations && registrations[r.token] == r
        && StoreOperations.Names(r, Normalise(address))
      ensures forall i, j :: 0 <= i < j < |found| ==> Before(found[i].token, found[j].token)
    {
      var a := Normalise(address);
      if a == "" {
        StoreOperations.ListedAreTold([], registrations, address);
        return [];
      }
      var watching: Table := map[];
      var left := registrations.Keys;
      while left != {}
        invariant left <= registrations.Keys
        invariant watching == Watching(registrations - left, address)
        decreases left
      {
        var token :| token in left;
        left := left - {token};
        if Watches(registrations[token], a) {
          watching := watching[token := registrations[token]];
        }
      }
      assert registrations - left == registrations;
      found := Collect(watching);
      StoreOperations.ListedAreTold(found, registrations, address);
    }
  }

  /** The rows of a table in whatever order they are met, then sorted by token. */
  method Collect(table: Table) returns (list: seq<Registration>)
    requires Keyed(table)
    ensures Lists(list, table)
  {
    var met: seq<Registration> := [];
    var left := table.Keys;
    ghost var done: Table := map[];
    while left != {}
      invariant left <= table.Keys && done.Keys == table.Keys - left
      invariant forall t :: t in done ==> done[t] == table[t]
      invariant Lists(Sorted(met), done)
      decreases left
    {
      var token :| token in left;
      SortedOneMore(met, done, table[token]);
      met := met + [table[token]];
      done, left := done[token := table[token]], left - {token};
    }
    assert done == table;
    list := Sorted(met);
  }

  lemma SortedOneMore(met: seq<Registration>, done: Table, r: Registration)
    requires Lists(Sorted(met), done) && r.token !in done
    ensures Lists(Sorted(met + [r]), done[r.token := r])
  {
    ListsOneMore(Sorted(met), done, r);
    assert (met + [r])[..|met|] == met;
  }

  lemma SomethingWent(was: Table, now: Table)
    requires now.Keys <= was.Keys && forall t :: t in now ==> now[t] == was[t]
    ensures |now| == |was| <==> now == was
    ensures now != was ==> exists t :: t in was && t !in now
  {
    assert |now| == |now.Keys| && |was| == |was.Keys|;
    assert was.Keys == now.Keys + (was.Keys - now.Keys);
    if was.Keys - now.Keys == {} {
      assert now == was;
    } else {
      var t :| t in was.Keys - now.Keys;
      assert t in was && t !in now;
    }
  }

  lemma {:induction false} KeptJoined(accounts: seq<GmailAccount>, account: GmailAccount)
    ensures var address := Normalise(account.address);
      Kept(accounts + [account]) ==
      Kept(accounts) + (if address == "" then [] else [GmailAccount(address, account.tag)])
  {
    if accounts == [] {
      assert ([] + [account])[1..] == [];
    } else {
      assert (accounts + [account])[1..] == accounts[1..] + [account];
      KeptJoined(accounts[1..], account);
    }
  }

  // ------------------------------------------------------------------ tags

  /** The tag a row knows an address by, or none. */
  function TagFor(accounts: seq<GmailAccount>, address: string): string {
    if accounts == [] then ""
    else if accounts[0].address == Normalise(address) then accounts[0].tag
    else TagFor(accounts[1..], address)
  }

  /** The first account with the address gives its tag, however the address is spelled. */
  lemma {:induction false} TagIsTheFirstMatch(accounts: seq<GmailAccount>, address: string, i: nat)
    requires i < |accounts| && accounts[i].address == Normalise(address)
    requires forall j :: 0 <= j < i ==> accounts[j].address != Normalise(address)
    ensures TagFor(accounts, address) == accounts[i].tag
    ensures TagFor(accounts, Normalise(address)) == accounts[i].tag
    decreases i
  {
    NormaliseTwice(address);
    if i > 0 {
      TagIsTheFirstMatch(accounts[1..], address, i - 1);
    }
  }

  lemma {:induction false} NoMatchNoTag(accounts: seq<GmailAccount>, address: string)
    requires forall j :: 0 <= j < |accounts| ==> accounts[j].address != Normalise(address)
    ensures TagFor(accounts, address) == ""
  {
    if accounts != [] {
      NoMatchNoTag(accounts[1..], address);
    }
  }
}
