/** A table written out: its rows in ascending order of token, and the table they make again. */
module Listing {
  import opened Types
  import opened Text

  /** Rows by delivery token. */
  type Table = map<string, Registration>

  /** Each row is under its own token. */
  ghost predicate Keyed(table: Table) {
    forall t :: t in table ==> table[t].token == t
  }

  ghost predicate Ascending(rows: seq<Registration>) {
    forall i, j :: 0 <= i < j < |rows| ==> Before(rows[i].token, rows[j].token)
  }

  /** Every row of the table, once, in ascending order of token. */
  ghost predicate Lists(rows: seq<Registration>, table: Table) {
    && Ascending(rows)
    && (forall r :: r in rows ==> r.token in table && table[r.token] == r)
    && (forall t :: t in table ==> table[t] in rows)
  }

  function Insert(rows: seq<Registration>, r: Registration): (out: seq<Registration>)
    ensures |out| == |rows| + 1
    ensures forall q :: q in out <==> q == r || q in rows
  {
    if rows == [] || Before(r.token, rows[0].token) then [r] + rows
    else [rows[0]] + Insert(rows[1..], r)
  }

  /** The rows sorted by token. */
  function Sorted(rows: seq<Registration>): seq<Registration> {
    if rows == [] then [] else Insert(Sorted(rows[..|rows| - 1]), rows[|rows| - 1])
  }

  lemma {:induction false} InsertKeepsOrder(rows: seq<Registration>, r: Registration)
    requires Ascending(rows) && forall q :: q in rows ==> q.token != r.token
    ensures Ascending(Insert(rows, r))
  {
    if rows == [] {
    } else if Before(r.token, rows[0].token) {
      forall j | 0 < j < |rows| ensures Before(r.token, rows[j].token) {
        BeforeIsTransitive(r.token, rows[0].token, rows[j].token);
      }
    } else {
      InsertKeepsOrder(rows[1..], r);
      BeforeIsTotal(rows[0].token, r.token);
      assert rows[0] in rows;
      var out := Insert(rows[1..], r);
      forall j | 0 <= j < |out| ensures Before(rows[0].token, out[j].token) {
        assert out[j] in out;
      }
    }
  }

  lemma ListsOneMore(rows: seq<Registration>, table: Table, r: Registration)
    requires Lists(rows, table) && r.token !in table
    ensures Lists(Insert(rows, r), table[r.token := r])
  {
    forall q | q in rows ensures q.token != r.token {
      assert q.token in table;
    }
    InsertKeepsOrder(rows, r);
  }

  /** There is only one listing: what is written does not depend on the order rows were met in. */
  lemma {:induction false} OneListing(a: seq<Registration>, b: seq<Registration>, table: Table)
    requires Keyed(table) && Lists(a, table) && Lists(b, table)
    ensures a == b
    decreases |a|
  {
    assert a != [] ==> a[0] in a && a[0] in b;
    assert b != [] ==> b[0] in b && b[0] in a;
    if a != [] && b != [] {
      assert a[0] in a && b[0] in b;
      assert a[0] in b && b[0] in a;
      if a[0] != b[0] {
        var i :| 0 <= i < |a| && a[i] == b[0];
        var j :| 0 <= j < |b| && b[j] == a[0];
        assert Before(a[0].token, b[0].token) && Before(b[0].token, a[0].token);
        BeforeIsStrict(a[0].token, b[0].token);
      }
      ListsAllButFirst(a, table);
      ListsAllButFirst(b, table);
      OneListing(a[1..], b[1..], table - {a[0].token});
    }
  }

  lemma ListsAllButFirst(rows: seq<Registration>, table: Table)
    requires Keyed(table) && Lists(rows, table) && rows != []
    ensures Keyed(table - {rows[0].token}) && Lists(rows[1..], table - {rows[0].token})
  {
    var rest, table' := rows[1..], table - {rows[0].token};
    forall r | r in rest ensures r.token in table' && table'[r.token] == r {
      var i :| 0 <= i < |rest| && rest[i] == r;
      assert rows[i + 1] == r && r in rows;
      assert Before(rows[0].token, r.token);
      BeforeIsStrict(rows[0].token, r.token);
    }
    forall t | t in table' ensures table'[t] in rest {
      assert table[t] in rows && table[t] != rows[0];
    }
  }

  /** A token of the table. */
  ghost function AnyToken(table: Table): (t: string)
    requires table != map[]
    ensures t in table
  {
    var t :| t in table;
    t
  }

  /** The listing of a table. */
  ghost function Listed(table: Table): seq<Registration>
    decreases |table|
  {
    if table == map[] then []
    else
      var t := AnyToken(table);
      Insert(Listed(table - {t}), table[t])
  }

  lemma {:induction false} ListedLists(table: Table)
    requires Keyed(table)
    ensures Lists(Listed(table), table)
    ensures forall i, j :: 0 <= i < j < |Listed(table)| ==> Before(Listed(table)[i].token, Listed(table)[j].token)
    decreases |table|
  {
    if table != map[] {
      var t := AnyToken(table);
      ListedLists(table - {t});
      ListsOneMore(Listed(table - {t}), table - {t}, table[t]);
      assert (table - {t})[t := table[t]] == table;
    }
  }

  /** The table a file's rows make, a later row replacing an earlier one with its token. */
  function Load(rows: seq<Registration>): Table {
    if rows == [] then map[]
    else Load(rows[..|rows| - 1])[rows[|rows| - 1].token := rows[|rows| - 1]]
  }

  lemma {:induction false} LoadedRows(rows: seq<Registration>)
    ensures Keyed(Load(rows))
    ensures forall t :: t in Load(rows) ==> Load(rows)[t] in rows
    ensures forall r :: r in rows ==> r.token in Load(rows)
  {
    if rows != [] {
      LoadedRows(rows[..|rows| - 1]);
      assert rows == rows[..|rows| - 1] + [rows[|rows| - 1]];
    }
  }

  /** Of several rows with one token in a file, the last is the one that is loaded. */
  lemma {:induction false} LastRowWins(rows: seq<Registration>, i: nat)
    requires i < |rows| && forall j :: i < j < |rows| ==> rows[j].token != rows[i].token
    ensures rows[i].token in Load(rows) && Load(rows)[rows[i].token] == rows[i]
    decreases |rows|
  {
    if i < |rows| - 1 {
      LastRowWins(rows[..|rows| - 1], i);
    }
  }

  /** Reading back what was written gives the table that was written. */
  lemma LoadUndoesListing(table: Table, rows: seq<Registration>)
    requires Keyed(table) && Lists(rows, table)
    ensures Load(rows) == table
  {
    LoadedRows(rows);
    var loaded := Load(rows);
    forall t | t in loaded ensures t in table && loaded[t] == table[t] {
      assert loaded[t] in rows && loaded[t].token == t;
    }
    forall t | t in table ensures t in loaded {
      assert table[t] in rows;
    }
  }
}
