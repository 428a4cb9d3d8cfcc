/**
 What each operation of the store does and answers, said of the rows before and after it: who is
 refused and why, what is stored, and which rows go.
 */
module StoreOperations {
  import opened Types
  import opened Text
  import opened Listing
  import opened Store
  import opened StoreInvariants

  /** The row asks to be told of this address, in one field or the other. */
  ghost predicate Names(r: Registration, address: string) {
    r.gmailAddress == address || exists a :: a in r.gmailAccounts && a.address == address
  }

  ghost function Naming(table: Table, address: string): set<string> {
    set t | t in table && Names(table[t], address)
  }

  lemma NamesIsWatches(r: Registration, address: string)
    ensures Names(r, address) <==> Watches(r, address)
  {
    if a :| a in r.gmailAccounts && a.address == address {
      var i :| 0 <= i < |r.gmailAccounts| && r.gmailAccounts[i] == a;
    }
    if i :| 0 <= i < |r.gmailAccounts| && r.gmailAccounts[i].address == address {
      assert r.gmailAccounts[i] in r.gmailAccounts;
    }
  }

  // ------------------------------------------------------------------ Put

  /** The limit for an address, counting every row that names it in either field. */
  ghost predicate FitsAddress(limits: Limits, next: Table, address: string) {
    limits.maxPerAddress == 0 || address == "" || |Naming(next, address)| <= limits.maxPerAddress
  }

  lemma NamingAfter(table: Table, row: Registration)
    ensures var next := (table - Superseded(table, row))[row.token := row];
      |Naming(next, row.gmailAddress)| == 1 + |OtherWatchers(table, row)|
  {
    var next, others := (table - Superseded(table, row))[row.token := row], OtherWatchers(table, row);
    assert row.token !in others && Names(row, row.gmailAddress);
    forall t ensures t in Naming(next, row.gmailAddress) <==> t in others + {row.token} {
      if t in table {
        NamesIsWatches(table[t], row.gmailAddress);
      }
      hide Watches, Names;
    }
    hide *;
    assert Naming(next, row.gmailAddress) == others + {row.token};
  }

  /**
   The answer to a Put, by the first thing that is wrong: with what was sent, with its secret, or
   with the table as it would be, whose rows and whose rows naming the primary address are counted.
   */
  lemma WhatPutAnswers(limits: Limits, table: Table, r: Registration)
    ensures var next := PutTable(table, r);
      r.token in next && PutVerdict(limits, table, r) ==
        if r.token == "" || r.deviceToken == "" || r.topic == "" then Incomplete
        else if r.mode != Alert && r.mode != Background then UnknownMode
        else if r.token in table && table[r.token].secretHash != "" && table[r.token].secretHash != r.secretHash
        then WrongSecret
        else if |next[r.token].gmailAccounts| > 8 then TooManyAccounts
        else if limits.maxRegistrations != 0 && |next| > limits.maxRegistrations then SiteFull
        else if !FitsAddress(limits, next, next[r.token].gmailAddress) then TooManyForAddress
        else Stored
  {
    var row := Prepared(table, r);
    assert PutTable(table, r) == (table - Superseded(table, row))[row.token := row] && row.token == r.token;
    NetCountIsExact(table, r);
    NamingAfter(table, row);
    hide Prepared, Superseded, OtherWatchers, Naming, PutTable;
  }

  /** What was sent with an address in it, respelled; blank ones dropped; read from the last. */
  function Respelled(accounts: seq<GmailAccount>): seq<GmailAccount> {
    if accounts == [] then []
    else
      var last := accounts[|accounts| - 1];
      Respelled(accounts[..|accounts| - 1])
      + if Normalise(last.address) == "" then [] else [GmailAccount(Normalise(last.address), last.tag)]
  }

  lemma {:induction false} KeptIsRespelled(accounts: seq<GmailAccount>)
    ensures Kept(accounts) == Respelled(accounts)
  {
    if accounts != [] {
      var front, last := accounts[..|accounts| - 1], accounts[|accounts| - 1];
      KeptIsRespelled(front);
      KeptOneMore(front, last);
      assert accounts == front + [last];
    }
  }

  lemma {:induction false} KeptOneMore(accounts: seq<GmailAccount>, account: GmailAccount)
    ensures Kept(accounts + [account]) == Kept(accounts) + Kept([account])
  {
    if accounts == [] {
      assert [] + [account] == [account];
    } else {
      assert (accounts + [account])[1..] == accounts[1..] + [account];
      KeptOneMore(accounts[1..], account);
    }
  }

  /**
   The row as it is stored: as it was sent, but for the date it already had, or else the one it was
   sent with, or else the instant it was seen; its accounts respelled, or the one address it came
   with if it has none; and as its primary address that one, or else its first account's.
   */
  lemma WhatPutStores(table: Table, r: Registration)
    ensures r.token in PutTable(table, r)
    ensures var row, accounts := PutTable(table, r)[r.token], Respelled(r.gmailAccounts);
      var date := if r.token in table then table[r.token].createdAt else r.createdAt;
      var address := Normalise(r.gmailAddress);
      && row == r.(createdAt := row.createdAt, gmailAddress := row.gmailAddress, gmailAccounts := row.gmailAccounts)
      && row.createdAt == (if date != 0.0 then date else r.seenAt)
      && row.gmailAccounts == (if accounts == [] && address != "" then [GmailAccount(address, "")] else accounts)
      && row.gmailAddress == (if address == "" && accounts != [] then accounts[0].address else address)
  {
    KeptIsRespelled(r.gmailAccounts);
    hide Kept, Respelled, Normalise;
  }

  // ------------------------------------------------------------------ what goes

  /** Pruning leaves a row exactly if it was seen since the one cut and did not expire before the other. */
  lemma WhatPruneLeaves(s: State, seenBefore: Time, expiredBefore: Time, diskTakes: bool, token: string)
    ensures var next := Next(s, Prune(seenBefore, expiredBefore, diskTakes)).table;
      && (token in next <==>
            && token in s.table && seenBefore <= s.table[token].seenAt
            && (s.table[token].expiresAt == 0.0 || expiredBefore <= s.table[token].expiresAt))
      && (token in next ==> next[token] == s.table[token])
  {
  }

  /**
   A device's own delete: of a row without a secret, or with the secret shown, it is done; of any
   other row it is refused; and where there is no row there is nothing to do.
   */
  lemma WhatDeleteIfOwnedDoes(s: State, token: string, presented: string, diskTakes: bool)
    ensures var e := DeleteIfOwned(token, presented, diskTakes);
      && Next(s, e).table ==
         (if token in s.table && s.table[token].secretHash != "" && s.table[token].secretHash != presented
          then s.table else s.table - {token})
      && Reply(s, e) ==
         (if token !in s.table then Fine
          else if s.table[token].secretHash != "" && s.table[token].secretHash != presented then Refused(WrongSecret)
          else if diskTakes then Fine else WriteFailed)
  {
  }

  lemma WhatDeleteDoes(s: State, token: string, diskTakes: bool)
    ensures var e := Delete(token, diskTakes);
      && Next(s, e).table == s.table - {token}
      && (Reply(s, e) == WriteFailed <==> token in s.table && !diskTakes)
      && (Reply(s, e) == Fine <==> token !in s.table || diskTakes)
  {
  }

  // ------------------------------------------------------------------ the file and the answer

  /** An operation that changed the table, or a Put that was not refused. */
  ghost predicate HasNews(s: State, e: Event) {
    Next(s, e).table != s.table || (e.Put? && PutVerdict(s.limits, s.table, e.row) == Stored)
  }

  /**
   While the process runs, the file is rewritten exactly if there is news and the disk takes it,
   and then holds the rows of the table in their order; and it is a failure exactly if there is
   news and the disk does not.
   */
  lemma WhatIsWritten(s: State, e: Event)
    requires Keyed(s.table) && !e.Reopen?
    ensures Next(s, e).file == if HasNews(s, e) && e.diskTakes then Rows(Listed(Next(s, e).table)) else s.file
    ensures Reply(s, e) == WriteFailed <==> HasNews(s, e) && !e.diskTakes
    ensures Reply(s, e).Refused? ==> Next(s, e) == s
  {
    hide Listed, PutVerdict, Load, PutTable;
    NewsIfAny(s, e);
  }

  lemma NewsIfAny(s: State, e: Event)
    requires !e.Reopen?
    ensures HasNews(s, e) <==> TriesToWrite(s, e)
  {
    hide Listed, PutVerdict, Load, PutTable;
    match e
    case Prune(seen, expired, _) =>
      if t :| t in s.table && Stale(s.table[t], seen, expired) {
        assert t !in Pruned(s.table, seen, expired);
      } else {
        assert Pruned(s.table, seen, expired) == s.table;
      }
    case DeleteIfOwned(t, _, _) =>
      assert t !in s.table ==> s.table - {t} == s.table;
    case Delete(t, _) =>
      assert t !in s.table ==> s.table - {t} == s.table;
    case _ =>
  }

  /**
   Starting over is possible with any file but one that cannot be parsed, changes no file, and
   finds the rows of the file, or none where there is no file or an empty one.
   */
  lemma WhatReopenFinds(s: State)
    ensures Enabled(s, Reopen) <==> !s.file.Corrupt?
    ensures Next(s, Reopen) == State(s.limits, if s.file.Rows? then Load(s.file.rows) else map[], s.file)
  {
    hide Load, Listed;
  }

  // ------------------------------------------------------------------ who is told

  /** A notification is for exactly the rows that name its address, however it is spelled. */
  lemma WhoIsTold(table: Table, address: string, token: string)
    ensures token in Watching(table, address) <==>
      Normalise(address) != "" && token in table && Names(table[token], Normalise(address))
    ensures token in Watching(table, address) ==> Watching(table, address)[token] == table[token]
  {
    if token in table {
      NamesIsWatches(table[token], Normalise(address));
    }
    hide Watches, Names, Normalise;
  }

  /** So the listing of those rows holds exactly them. */
  lemma ListedAreTold(rows: seq<Registration>, table: Table, address: string)
    requires Keyed(table) && Lists(rows, Watching(table, address))
    ensures forall r: Registration :: r in rows <==>
      && Normalise(address) != "" && r.token in table && table[r.token] == r && Names(r, Normalise(address))
  {
    forall r: Registration
      ensures r in rows <==>
        && Normalise(address) != "" && r.token in table && table[r.token] == r && Names(r, Normalise(address))
    {
      WhoIsTold(table, address, r.token);
      hide Watching, Names, Normalise;
      if r.token in Watching(table, address) {
        assert Watching(table, address)[r.token] in rows;
      }
    }
  }
}
