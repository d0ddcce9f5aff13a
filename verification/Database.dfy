/** The database process: tables updated in place and the ingest connection that
    feeds them. */
module Database {
  import opened Itch
  import opened Orders
  import opened Records
  import opened TableModel
  import opened TableDump
  import opened Sorting

  class TableStore {
    var books: map<Key, Row>
    var orders: Table
    var ticks: map<nat, map<nat, nat>>
    var meta: Meta

    ghost function View(): Tables
      reads this
    {
      Tables(books, orders, ticks, meta)
    }

    constructor ()
      ensures View() == Fresh
    {
      books, orders, ticks, meta := map[], map[], map[], Fresh.meta;
    }

    /** Returns whether the record was applied, that is, was not a duplicate. */
    method ApplyUpdate(u: Update, inSync: bool) returns (applied: bool)
      modifies this
      ensures View() == TableModel.ApplyUpdate(old(View()), u, inSync)
      ensures applied == !Duplicate(old(meta), u, inSync)
    {
      if !inSync && u.epoch == meta.epoch && u.seq_ <= meta.seq_ && meta.updates > 0 {
        meta := meta.(dups := meta.dups + 1);
        return false;
      }
      var key := Key(u.ticker, u.group);
      var tape := if key in books then books[key].tape else [];
      if u.trigger == 'E' {
        tape := Push(tape, TapeEntry(u.trade.lastNs, u.trade.lastPrice, u.trade.lastQty, u.trade.lastMatch));
      }
      books := books[key := Row(u.static_, u.state, u.seq_, u.ns, u.book, u.trade, tape)];
      orders := TableModel.ApplyDelta(orders, u.ticker, u.group, u.delta);
      meta := meta.(updates := meta.updates + 1);
      if !inSync { meta := meta.(session := u.session, epoch := u.epoch, seq_ := u.seq_); }
      return true;
    }

    /** Append, then drop from the front down to the ring's capacity. */
    static method Push(tape: seq<TapeEntry>, e: TapeEntry) returns (r: seq<TapeEntry>)
      ensures r == PushTape(tape, e)
    {
      r := tape + [e];
      while |r| > TAPE_CAP
        invariant |r| <= |tape + [e]| && r == (tape + [e])[|tape + [e]| - |r|..]
        invariant |r| >= TAPE_CAP || r == tape + [e]
      {
        r := r[1..];
      }
    }

    method ApplyOrder(n: nat, row: Order)
      modifies this
      ensures View() == TableModel.ApplyOrder(old(View()), n, row)
    {
      orders := orders[n := row];
      meta := meta.(orderRows := meta.orderRows + 1);
    }

    method ApplyTick(table: nat, start: nat, size: nat)
      modifies this
      ensures View() == TableModel.ApplyTick(old(View()), table, start, size)
    {
      var rows := if table in ticks then ticks[table] else map[];
      ticks := ticks[table := rows[start := size]];
      meta := meta.(tickRows := meta.tickRows + 1);
    }

    method ResetAll()
      modifies this
      ensures View() == Wipe(old(View()))
    {
      books, orders, ticks := map[], map[], map[];
      meta := Meta("", 0, 0, 0, 0, 0, 0, meta.syncsCompleted, meta.syncsDiscarded);
    }

    static method WalkNumbers(s: set<nat>) returns (q: seq<nat>)
      ensures q == Numbers(s)
    {
      NatOrder();
      q := Walk(s, NatLess);
    }

    /** The three loops of `dump_state`, each over its map in key order. */
    method DumpState() returns (out: seq<Rec>)
      ensures out == Dumped(View())
    {
      KeyOrder();
      var tickRecs := DumpTicks(ticks);
      var numbers := WalkNumbers(orders.Keys);
      var orderRecs := OrderRecs(orders, numbers);
      var keys := Walk(books.Keys, KeyLess);
      var rowRecs := RowRecs(RowUpdates(Tables(books, orders, ticks, meta), keys));
      out := [SyncBegin] + tickRecs + orderRecs + rowRecs + [SyncEnd(meta.session, meta.seq_, meta.epoch)];
    }

    static method DumpTicks(ticks: map<nat, map<nat, nat>>) returns (out: seq<Rec>)
      ensures out == Ticks(ticks, Numbers(ticks.Keys))
    {
      var tables := WalkNumbers(ticks.Keys);
      out := [];
      for i := 0 to |tables|
        invariant out + Ticks(ticks, tables[i..]) == Ticks(ticks, tables)
      {
        var n := tables[i];
        var starts := WalkNumbers(ticks[n].Keys);
        TicksNext(ticks, tables, i, out);
        out := out + TableTicks(n, ticks[n], starts);
      }
      assert tables[|tables|..] == [];
    }
  }

  lemma TicksNext(ticks: map<nat, map<nat, nat>>, tables: seq<nat>, i: nat, out: seq<Rec>)
    requires i < |tables| && forall n :: n in tables ==> n in ticks
    ensures var rows := TableTicks(tables[i], ticks[tables[i]], Numbers(ticks[tables[i]].Keys));
            out + Ticks(ticks, tables[i..]) == (out + rows) + Ticks(ticks, tables[i + 1..])
  {
    assert tables[i..][1..] == tables[i + 1..];
  }

  class IngestServer {
    const tables: TableStore
    var inSync: bool
    var connected: bool

    /** Tables and bracket flag; a bracket is open only on a connection. */
    ghost function View(): Db
      reads this, tables
    {
      Db(tables.View(), inSync)
    }

    ghost predicate Valid()
      reads this
    {
      inSync ==> connected
    }

    constructor ()
      ensures Valid() && View() == Db(Fresh, false) && fresh(tables)
    {
      tables := new TableStore();
      inSync, connected := false, false;
    }

    method LoseConnection()
      requires Valid()
      modifies this, tables
      ensures Valid() && View() == DropConnection(old(View())) && !connected
    {
      if !connected { return; }
      connected := false;
      if inSync {
        tables.ResetAll();
        tables.meta := tables.meta.(syncsDiscarded := tables.meta.syncsDiscarded + 1);
        inSync := false;
      }
    }

    /** A new connection kicks the one before it. */
    method OnListenReady()
      requires Valid()
      modifies this, tables
      ensures Valid() && View() == DropConnection(old(View())) && connected
    {
      if connected { LoseConnection(); }
      connected := true;
      inSync := false;
    }

    method HandleRecord(r: Rec)
      requires Valid() && connected
      modifies this, tables
      ensures Valid() && connected && View() == Receive(old(View()), r)
    {
      match r {
        case Reset => tables.ResetAll();
        case SyncBegin => inSync := true;
        case SyncEnd(session, n, epoch) =>
          if inSync {
            tables.meta := tables.meta.(session := session, seq_ := n, epoch := epoch,
                                        syncsCompleted := tables.meta.syncsCompleted + 1);
            inSync := false;
          }
        case UpdateRec(u) =>
          var applied := tables.ApplyUpdate(u, inSync);
        case OrderRec(n, row) => tables.ApplyOrder(n, row);
        case TickRec(table, start, size) => tables.ApplyTick(table, start, size);
      }
    }
  }
}
