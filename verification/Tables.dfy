/** Dumping the database's tables and reading the dump back. */
module TableDump {
  import opened Itch
  import opened Orders
  import opened Records
  import opened TableModel
  import opened Sorting

  predicate KeyLess(a: Key, b: Key) {
    StringLess(a.ticker, b.ticker) || (a.ticker == b.ticker && StringLess(a.group, b.group))
  }

  lemma KeyOrder()
    ensures TotalOrder(KeyLess)
  {
    forall a, b
      ensures !KeyLess(a, a) && (a == b || KeyLess(a, b) || KeyLess(b, a))
    {
      StringTotal(a.ticker, b.ticker);
      StringTotal(a.group, b.group);
    }
    forall a, b, c | KeyLess(a, b) && KeyLess(b, c)
      ensures KeyLess(a, c)
    {
      if StringLess(a.ticker, b.ticker) && StringLess(b.ticker, c.ticker) {
        StringTransitive(a.ticker, b.ticker, c.ticker);
      } else if a.ticker == b.ticker == c.ticker {
        StringTransitive(a.group, b.group, c.group);
      }
    }
  }

  ghost function Keys(t: Tables): (r: seq<Key>)
    ensures forall k :: k in r <==> k in t.books
  {
    KeyOrder();
    Ascending(t.books.Keys, KeyLess)
  }

  ghost function Numbers(s: set<nat>): (r: seq<nat>)
    ensures forall k :: k in r <==> k in s
  {
    NatOrder();
    Ascending(s, NatLess)
  }

  /** The self-contained snapshot record of one row. */
  function DumpUpdate(m: Meta, k: Key, r: Row): Update {
    Update(m.epoch, 0, m.session, r.seq_, r.ns, '#', k.ticker, k.group, r.static_, r.state, r.book, r.trade, NoDelta)
  }

  function RowUpdates(t: Tables, keys: seq<Key>): (us: seq<Update>)
    requires forall k :: k in keys ==> k in t.books
  {
    seq(|keys|, i requires 0 <= i < |keys| => DumpUpdate(t.meta, keys[i], t.books[keys[i]]))
  }

  function TableTicks(table: nat, rows: map<nat, nat>, starts: seq<nat>): seq<Rec>
    requires forall s :: s in starts ==> s in rows
  {
    seq(|starts|, i requires 0 <= i < |starts| => TickRec(table, starts[i], rows[starts[i]]))
  }

  ghost function Ticks(ticks: map<nat, map<nat, nat>>, tables: seq<nat>): seq<Rec>
    requires forall i :: i in tables ==> i in ticks
  {
    if tables == [] then []
    else
      var n := tables[0];
      TableTicks(n, ticks[n], Numbers(ticks[n].Keys)) + Ticks(ticks, tables[1..])
  }

  /** Everything between the bracket marks, then the closing record. */
  ghost function Dumped(t: Tables): seq<Rec> {
    [SyncBegin] + Ticks(t.ticks, Numbers(t.ticks.Keys)) + OrderRecs(t.orders, Numbers(t.orders.Keys))
    + RowRecs(RowUpdates(t, Keys(t))) + [SyncEnd(t.meta.session, t.meta.seq_, t.meta.epoch)]
  }

  /** A row as a dump carries it: without the tape ring. */
  function Untaped(r: Row): Row {
    r.(tape := [])
  }

  function Untape(books: map<Key, Row>): map<Key, Row> {
    map k | k in books :: Untaped(books[k])
  }

  function TickTable(t: Tables, table: nat): map<nat, nat> {
    if table in t.ticks then t.ticks[table] else map[]
  }

  /** Only the tick rows, and their counter, may differ. */
  predicate TicksOnly(d: Db, e: Db) {
    e == Db(d.tables.(ticks := e.tables.ticks, meta := d.tables.meta.(tickRows := e.tables.meta.tickRows)), d.inSync)
  }

  lemma TickReceived(d: Db, table: nat, start: nat, size: nat)
    ensures var e := Receive(d, TickRec(table, start, size));
            TicksOnly(d, e) && e.tables.ticks == d.tables.ticks[table := TickTable(d.tables, table)[start := size]]
  {
  }

  lemma {:induction false} ReadTable(d: Db, table: nat, rows: map<nat, nat>, starts: seq<nat>)
    requires forall s :: s in starts ==> s in rows
    requires starts != []
    ensures var e := Final(d, TableTicks(table, rows, starts));
            TicksOnly(d, e) && e.tables.ticks
              == d.tables.ticks[table := TickTable(d.tables, table) + Pick(rows, starts)]
    decreases |starts|
  {
    var q := TableTicks(table, rows, starts);
    var was, first := TickTable(d.tables, table), starts[0];
    var d' := Receive(d, q[0]);
    TickReceived(d, table, first, rows[first]);
    assert q[1..] == TableTicks(table, rows, starts[1..]);
    assert was[first := rows[first]] + Pick(rows, starts[1..])
             == was + Pick(rows, starts) by { PickNext(was, rows, starts); }
    if |starts| == 1 {
      assert q[1..] == [];
      assert was[first := rows[first]] + Pick(rows, starts[1..]) == was[first := rows[first]];
    } else {
      ReadTable(d', table, rows, starts[1..]);
    }
  }

  /** One whole table, read where there was none. */
  lemma ReadOne(d: Db, ticks: map<nat, map<nat, nat>>, n: nat)
    requires n in ticks && ticks[n] != map[] && n !in d.tables.ticks
    ensures var e := Final(d, TableTicks(n, ticks[n], Numbers(ticks[n].Keys)));
            TicksOnly(d, e) && e.tables.ticks == d.tables.ticks[n := ticks[n]]
  {
    var starts := Numbers(ticks[n].Keys);
    var s :| s in ticks[n];
    assert s in starts;
    ReadTable(d, n, ticks[n], starts);
    PickAll(ticks[n], starts);
  }

  lemma {:induction false} ReadTicks(d: Db, ticks: map<nat, map<nat, nat>>, tables: seq<nat>)
    requires forall i :: i in tables ==> i in ticks && ticks[i] != map[]
    requires forall i, j :: 0 <= i < j < |tables| ==> tables[i] != tables[j]
    requires forall i :: i in tables ==> i !in d.tables.ticks
    ensures var e := Final(d, Ticks(ticks, tables));
            TicksOnly(d, e) && e.tables.ticks == d.tables.ticks + Pick(ticks, tables)
    decreases |tables|
  {
    if tables != [] {
      var n := tables[0];
      var q := TableTicks(n, ticks[n], Numbers(ticks[n].Keys));
      ReadOne(d, ticks, n);
      FinalAppend(d, q, Ticks(ticks, tables[1..]));
      ReadTicks(Final(d, q), ticks, tables[1..]);
      PickNext(d.tables.ticks, ticks, tables);
    }
  }

  /** Only the book rows, and the update counter, may differ. */
  predicate RowsOnly(d: Db, e: Db) {
    e == Db(d.tables.(books := e.tables.books, meta := d.tables.meta.(updates := e.tables.meta.updates)), d.inSync)
  }

  lemma ReadRow(d: Db, t: Tables, k: Key)
    requires d.inSync && k in t.books && k !in d.tables.books
    ensures var e := Receive(d, UpdateRec(DumpUpdate(t.meta, k, t.books[k])));
            RowsOnly(d, e) && e.tables.books == d.tables.books[k := Untaped(t.books[k])]
  {
    assert Key(k.ticker, k.group) == k;
  }

  lemma {:induction false} ReadRows(d: Db, t: Tables, keys: seq<Key>)
    requires d.inSync && forall k :: k in keys ==> k in t.books && k !in d.tables.books
    requires forall i, j :: 0 <= i < j < |keys| ==> keys[i] != keys[j]
    ensures var e := Final(d, RowRecs(RowUpdates(t, keys)));
            RowsOnly(d, e) && e.tables.books == d.tables.books + Pick(Untape(t.books), keys)
    decreases |keys|
  {
    if keys != [] {
      var q := RowRecs(RowUpdates(t, keys));
      assert q[1..] == RowRecs(RowUpdates(t, keys[1..]));
      ReadRow(d, t, keys[0]);
      ReadRows(Receive(d, q[0]), t, keys[1..]);
      PickNext(d.tables.books, Untape(t.books), keys);
    }
  }

  lemma AscendingDistinct<K(!new)>(s: set<K>, less: (K, K) -> bool)
    requires TotalOrder(less)
    ensures forall i, j :: 0 <= i < j < |Ascending(s, less)| ==> Ascending(s, less)[i] != Ascending(s, less)[j]
  {
    AscendingSorted(s, less);
    assert forall i, j :: 0 <= i < j < |Ascending(s, less)| ==> less(Ascending(s, less)[i], Ascending(s, less)[j]);
  }

  /** The records between the bracket marks, one kind after the other. */
  lemma ReadBody(d: Db, t: Tables)
    requires d == Db(Fresh, true) && forall i :: i in t.ticks ==> t.ticks[i] != map[]
    ensures var e := Final(Final(Final(d, Ticks(t.ticks, Numbers(t.ticks.Keys))),
              OrderRecs(t.orders, Numbers(t.orders.Keys))),
                           RowRecs(RowUpdates(t, Keys(t))));
            e.inSync && e.tables.ticks == t.ticks && e.tables.orders == t.orders && e.tables.books == Untape(t.books)
  {
    NatOrder();
    KeyOrder();
    AscendingDistinct(t.ticks.Keys, NatLess);
    AscendingDistinct(t.books.Keys, KeyLess);
    ReadTicks(d, t.ticks, Numbers(t.ticks.Keys));
    PickAll(t.ticks, Numbers(t.ticks.Keys));
    var d2 := Final(d, Ticks(t.ticks, Numbers(t.ticks.Keys)));
    FinalOrders(d2, t.orders, Numbers(t.orders.Keys));
    PickAll(t.orders, Numbers(t.orders.Keys));
    ReadRows(Final(d2, OrderRecs(t.orders, Numbers(t.orders.Keys))), t, Keys(t));
    PickAll(Untape(t.books), Keys(t));
  }

  /** Reading a dump into empty tables gives back the orders, the tick rows, the
      position and every row but its tape. */
  lemma DumpRestores(t: Tables)
    requires forall i :: i in t.ticks ==> t.ticks[i] != map[]
    ensures var e := Final(Db(Fresh, false), Dumped(t));
            && !e.inSync && e.tables.orders == t.orders && e.tables.ticks == t.ticks
                 && e.tables.books == Untape(t.books)
            && e.tables.meta.session == t.meta.session && e.tables.meta.seq_ == t.meta.seq_
                 && e.tables.meta.epoch == t.meta.epoch
  {
    var ticks := Ticks(t.ticks, Numbers(t.ticks.Keys));
    var orders := OrderRecs(t.orders, Numbers(t.orders.Keys));
    var rows := RowRecs(RowUpdates(t, Keys(t)));
    var end := SyncEnd(t.meta.session, t.meta.seq_, t.meta.epoch);
    var d0 := Db(Fresh, false);
    FinalOne(d0, SyncBegin);
    ReadBody(Db(Fresh, true), t);
    FinalAppend(d0, [SyncBegin], ticks);
    FinalAppend(d0, [SyncBegin] + ticks, orders);
    FinalAppend(d0, [SyncBegin] + ticks + orders, rows);
    FinalAppend(d0, [SyncBegin] + ticks + orders + rows, [end]);
    FinalOne(Final(d0, [SyncBegin] + ticks + orders + rows), end);
  }

  lemma FinalOne(d: Db, r: Rec)
    ensures Final(d, [r]) == Receive(d, r)
  {
    assert [r][1..] == [];
    assert Final(Receive(d, r), []) == Receive(d, r);
  }

  /** Dumping what a dump restored gives the same records. */
  lemma DumpStable(t: Tables)
    requires forall i :: i in t.ticks ==> t.ticks[i] != map[]
    ensures Dumped(Final(Db(Fresh, false), Dumped(t)).tables) == Dumped(t)
  {
    DumpRestores(t);
    var e := Final(Db(Fresh, false), Dumped(t)).tables;
    assert e.books.Keys == t.books.Keys;
    assert Keys(e) == Keys(t);
    assert RowUpdates(e, Keys(e)) == RowUpdates(t, Keys(t));
  }
}
