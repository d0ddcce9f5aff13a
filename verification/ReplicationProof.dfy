/** The inductive invariant of the replication system and what it gives. */
module ReplicationProof {
  import opened Itch
  import opened Orders
  import opened Records
  import opened TableModel
  import opened Feed
  import opened BookRows
  import opened Replication
  import opened Regularity
  import Uptick

  /** No message of the stream is a phantom where it occurs. */
  ghost predicate NoPhantom(cfg: Config) {
    forall i :: 0 <= i < |cfg.stream| && cfg.stream[i].Some? ==>
      !Phantom(Fold(cfg.stream, i).orders, cfg.stream[i].value, cfg.glimpse)
  }

  /** A snapshot cannot carry an order with number 0. */
  ghost predicate NoZero(cfg: Config) {
    forall n :: 0 <= n <= |cfg.stream| ==> 0 !in Fold(cfg.stream, n).orders
  }

  /** Streams the pipeline replicates faithfully. */
  ghost predicate Sound(cfg: Config) {
    NoPhantom(cfg) && (cfg.glimpse ==> NoZero(cfg))
  }

  /** The tables are the fold of the first `n` payloads: the orders always, and
      the rows' keys, instruments, book sections and trade totals on the streams
      they can be. */
  ghost predicate TablesAt(cfg: Config, t: Tables, n: nat) {
    && n <= |cfg.stream|
    && Mirrors(t.orders, Fold(cfg.stream, n).orders, cfg.glimpse)
    && (OneGroup(cfg) ==> RowsPlaced(cfg, t.books, Fold(cfg.stream, n)))
    && (Legible(cfg) ==> RowsKeyed(cfg, t.books, Fold(cfg.stream, n)))
    && (Shown(cfg) ==> RowsShow(t.books, Fold(cfg.stream, n)))
    && (Totalled(cfg) ==> RowsTrade(t.books, Fold(cfg.stream, n)))
  }

  /** Outside a bracket the tables are the fold of the stream up to their own
      sequence; no update was ever dropped as a duplicate. */
  ghost predicate Ok(cfg: Config, d: Db) {
    (!d.inSync ==> TablesAt(cfg, d.tables, d.tables.meta.seq_)) && d.tables.meta.dups == 0
  }

  /** Ok now and after every record still in flight. */
  ghost predicate Safe(cfg: Config, d: Db, q: seq<Rec>)
    decreases |q|
  {
    Ok(cfg, d) && (q != [] ==> Safe(cfg, Receive(d, q[0]), q[1..]))
  }

  /** Nothing published between positions `a` and `b`. */
  ghost predicate Quiet(cfg: Config, a: nat, b: nat) {
    a <= b <= |cfg.stream| && forall i :: a <= i < b ==> !Published(cfg.stream[i])
  }

  /** The database's position once it has caught up with a connected handler. */
  ghost predicate CaughtUp(cfg: Config, d: Db, fh: Handler)
    requires fh.Up?
  {
    !d.inSync && d.tables.meta.epoch == fh.epoch && Quiet(cfg, d.tables.meta.seq_, fh.last)
  }

  /** The handler's market is the one that never crashed. */
  ghost predicate MarketAt(cfg: Config, c: Core, n: nat) {
    && n <= |cfg.stream|
    && Mirrors(c.orders, Fold(cfg.stream, n).orders, cfg.glimpse)
    && (OneGroup(cfg) ==> GroupedInsts(cfg, c))
    && (Legible(cfg) ==> LikeInsts(c, Fold(cfg.stream, n)))
    && (Totalled(cfg) ==> SameTotals(c.stats, Fold(cfg.stream, n).stats))
  }

  ghost predicate HandlerOk(cfg: Config, fh: Handler) {
    fh.Up? ==>
      && fh.last < fh.next <= |cfg.stream| + 1
      && (forall i :: fh.last <= i < fh.next - 1 ==> cfg.stream[i].None?)
      && MarketAt(cfg, fh.core, fh.last)
  }

  ghost predicate LinkOk(cfg: Config, s: System) {
    match s.conn
    case None => Ok(cfg, s.db) && !s.db.inSync
    case Some(l) =>
      && Safe(cfg, s.db, l.queue)
      && (l.open <==> s.fh.Up? && s.fh.connected)
      && (l.open ==> CaughtUp(cfg, Final(s.db, l.queue), s.fh))
  }

  ghost predicate Inv(cfg: Config, s: System) {
    HandlerOk(cfg, s.fh) && LinkOk(cfg, s)
  }

  // --- queues --------------------------------------------------------------------

  lemma {:induction false} SafeFinal(cfg: Config, d: Db, q: seq<Rec>)
    requires Safe(cfg, d, q)
    ensures Ok(cfg, Final(d, q))
    decreases |q|
  {
    if q != [] { SafeFinal(cfg, Receive(d, q[0]), q[1..]); }
  }

  lemma {:induction false} SafeAppend(cfg: Config, d: Db, q: seq<Rec>, r: seq<Rec>)
    requires Safe(cfg, d, q) && Safe(cfg, Final(d, q), r)
    ensures Safe(cfg, d, q + r) && Final(d, q + r) == Final(Final(d, q), r)
    decreases |q|
  {
    FinalAppend(d, q, r);
    if q == [] {
      assert q + r == r;
    } else {
      SafeAppend(cfg, Receive(d, q[0]), q[1..], r);
      assert (q + r)[1..] == q[1..] + r;
    }
  }

  lemma {:induction false} SafePrefix(cfg: Config, d: Db, q: seq<Rec>, k: nat)
    requires Safe(cfg, d, q) && k <= |q|
    ensures Safe(cfg, d, q[..k])
    decreases |q|
  {
    if k > 0 {
      SafePrefix(cfg, Receive(d, q[0]), q[1..], k - 1);
      assert q[..k][1..] == q[1..][..k - 1];
    }
  }

  lemma SafeOne(cfg: Config, d: Db, r: Rec)
    requires Ok(cfg, d) && Ok(cfg, Receive(d, r))
    ensures Safe(cfg, d, [r]) && Final(d, [r]) == Receive(d, r)
  {
    assert [r][1..] == [];
    assert Safe(cfg, Receive(d, r), []) && Final(Receive(d, r), []) == Receive(d, r);
  }

  lemma EmptyOk(cfg: Config, d: Db)
    requires d.tables.orders == map[] && d.tables.books == map[] && d.tables.meta.seq_ == 0 && d.tables.meta.dups == 0
    ensures Ok(cfg, d)
  {
    assert Fold(cfg.stream, 0) == EmptyCore;
  }

  lemma DropOk(cfg: Config, d: Db)
    requires Ok(cfg, d)
    ensures Ok(cfg, DropConnection(d)) && !DropConnection(d).inSync
  {
    if d.inSync { EmptyOk(cfg, DropConnection(d)); }
  }

  // --- a full sync ---------------------------------------------------------------

  /** Inside a bracket nothing is promised until its end. */
  lemma {:induction false} BracketSafe(cfg: Config, d: Db, q: seq<Rec>)
    requires d.inSync && d.tables.meta.dups == 0
    requires forall r :: r in q ==> r.TickRec? || r.OrderRec? || r.UpdateRec?
    ensures Safe(cfg, d, q) && Final(d, q).inSync && Final(d, q).tables.meta.dups == 0
    decreases |q|
  {
    if q != [] {
      assert q[0] in q;
      BracketSafe(cfg, Receive(d, q[0]), q[1..]);
    }
  }

  lemma {:induction false} FinalTicks(d: Db, q: seq<Rec>)
    requires forall r :: r in q ==> r.TickRec?
    ensures Final(d, q).tables.orders == d.tables.orders && Final(d, q).tables.books == d.tables.books
    ensures Final(d, q).inSync == d.inSync && Final(d, q).tables.meta.dups == d.tables.meta.dups
    decreases |q|
  {
    if q != [] {
      assert q[0] in q;
      FinalTicks(Receive(d, q[0]), q[1..]);
    }
  }

  lemma RowsFromNext(books: map<Key, Row>, rows: seq<Update>, u: Update, row: Row)
    requires RowsFrom(books, rows) && RowOf(row, u)
    ensures RowsFrom(books[Key(u.ticker, u.group) := row], rows + [u])
  {
    var books' := books[Key(u.ticker, u.group) := row];
    assert (rows + [u])[|rows|] == u;
    forall k | k in books'
      ensures Installed(books', rows + [u], k)
    {
      if k == Key(u.ticker, u.group) {
        assert u in rows + [u];
      } else {
        assert Installed(books, rows, k);
        var v :| v in rows && Key(v.ticker, v.group) == k && RowOf(books[k], v);
        assert v in rows + [u];
      }
    }
  }

  function Install(books: map<Key, Row>, u: Update): map<Key, Row> {
    var key := Key(u.ticker, u.group);
    books[key := NewRow(if key in books then Some(books[key]) else None, u)]
  }

  function InstallAll(books: map<Key, Row>, rows: seq<Update>): map<Key, Row>
    decreases |rows|
  {
    if rows == [] then books else InstallAll(Install(books, rows[0]), rows[1..])
  }

  lemma {:induction false} InstalledAll(books: map<Key, Row>, done: seq<Update>, rows: seq<Update>, all: seq<Update>)
    requires RowsFrom(books, done) && all == done + rows
    ensures RowsFrom(InstallAll(books, rows), all)
    decreases |rows|
  {
    if rows == [] {
      assert all == done;
    } else {
      var u := rows[0];
      RowsFromNext(books, done, u, Install(books, u)[Key(u.ticker, u.group)]);
      assert all == (done + [u]) + rows[1..];
      InstalledAll(Install(books, u), done + [u], rows[1..], all);
    }
  }

  /** Row records inside a bracket install themselves and no order. */
  lemma {:induction false} FinalRows(d: Db, rows: seq<Update>)
    requires d.inSync && forall i :: 0 <= i < |rows| ==> rows[i].delta == NoDelta
    ensures var e := Final(d, RowRecs(rows));
            e.tables.orders == d.tables.orders && e.tables.books == InstallAll(d.tables.books, rows)
    decreases |rows|
  {
    if rows != [] {
      var q := RowRecs(rows);
      assert q[0] == UpdateRec(rows[0]) && q[1..] == RowRecs(rows[1..]);
      FinalRows(Receive(d, q[0]), rows[1..]);
    }
  }

  lemma BracketBody(cfg: Config, d: Db, p: Dump, c: Core)
    requires d.inSync && d.tables.meta.dups == 0 && d.tables.orders == map[] && d.tables.books == map[]
               && DumpOf(cfg, p, c)
    ensures var e := Final(d, Body(p, c));
            && Safe(cfg, d, Body(p, c)) && e.inSync && e.tables.meta.dups == 0
            && e.tables.orders == c.orders && RowsFrom(e.tables.books, p.rows)
  {
    BracketSafe(cfg, d, Body(p, c));
    var orders := OrderRecs(c.orders, p.numbers);
    FinalAppend(d, p.ticks + orders, RowRecs(p.rows));
    FinalAppend(d, p.ticks, orders);
    FinalTicks(d, p.ticks);
    FinalOrders(Final(d, p.ticks), c.orders, p.numbers);
    var d2 := Final(d, p.ticks + orders);
    PickAll(c.orders, p.numbers);
    forall i | 0 <= i < |p.rows|
      ensures p.rows[i].delta == NoDelta
    {
      assert p.rows[i] in p.rows && DumpRow(cfg, p.rows[i], c);
    }
    FinalRows(d2, p.rows);
    assert p.rows == [] + p.rows;
    InstalledAll(map[], [], p.rows, p.rows);
  }

  lemma DumpTables(cfg: Config, t: Tables, p: Dump, fh: Handler)
    requires fh.Up? && HandlerOk(cfg, fh) && DumpOf(cfg, p, fh.core)
    requires t.orders == fh.core.orders && RowsFrom(t.books, p.rows)
    ensures TablesAt(cfg, t, fh.last)
  {
    var f := Fold(cfg.stream, fh.last);
    if OneGroup(cfg) {
      FoldGrouped(cfg, fh.last);
      PlacedDump(cfg, t.books, p, fh.core, f, cfg.glimpse);
      if Legible(cfg) {
        FoldMarked(cfg, fh.last);
        KeyedDump(cfg, t.books, p, fh.core, f, cfg.glimpse);
      }
      if Shown(cfg) { ShowDump(cfg, t.books, p, fh.core, f, cfg.glimpse); }
      if Totalled(cfg) { TradeDump(cfg, t.books, p, fh.core, f); }
    }
  }

  /** Whatever the database held, a full sync from a handler at position `last`
      is safe at every record, and ends at that position. */
  lemma FullSyncSafe(cfg: Config, d: Db, p: Dump, fh: Handler)
    requires Ok(cfg, d) && !d.inSync && fh.Up? && HandlerOk(cfg, fh) && DumpOf(cfg, p, fh.core)
    ensures var q := FullSync(p, fh.core, fh.session, fh.last, fh.epoch);
            Safe(cfg, d, q) && CaughtUp(cfg, Final(d, q), fh)
  {
    var d1 := Receive(d, Reset);
    var d2 := Receive(d1, SyncBegin);
    EmptyOk(cfg, d1);
    SafeOne(cfg, d, Reset);
    SafeOne(cfg, d1, SyncBegin);
    SafeAppend(cfg, d, [Reset], [SyncBegin]);
    assert [Reset] + [SyncBegin] == [Reset, SyncBegin];
    var body := Body(p, fh.core);
    BracketBody(cfg, d2, p, fh.core);
    SafeAppend(cfg, d, [Reset, SyncBegin], body);
    var d3 := Final(d2, body);
    var closing := SyncEnd(fh.session, fh.last, fh.epoch);
    var d4 := Receive(d3, closing);
    DumpTables(cfg, d4.tables, p, fh);
    SafeOne(cfg, d3, closing);
    SafeAppend(cfg, d, [Reset, SyncBegin] + body, [closing]);
  }

  // --- live updates -----------------------------------------------------------------

  lemma {:induction false} QuietFold(cfg: Config, a: nat, b: nat)
    requires Quiet(cfg, a, b)
    ensures Fold(cfg.stream, a) == Fold(cfg.stream, b)
    decreases b
  {
    if a < b { QuietFold(cfg, a, b - 1); }
  }

  lemma MarketStep(cfg: Config, c: Core, n: nat, m: Msg)
    requires n < |cfg.stream| && cfg.stream[n] == Some(m) && MarketAt(cfg, c, n)
    ensures MarketAt(cfg, Apply(c, m), n + 1)
  {
    var f := Fold(cfg.stream, n);
    assert Fold(cfg.stream, n + 1) == Apply(f, m);
    StepMirrors(c.orders, f.orders, m, cfg.glimpse);
    ApplyMovesOrders(c, m);
    ApplyMovesOrders(f, m);
    if OneGroup(cfg) {
      GroupedInstsStep(cfg, c, m);
      if Legible(cfg) { InstsStep(c, f, m); }
      if Totalled(cfg) { TotalsStep(c, f, m, cfg.glimpse); }
    }
  }

  lemma TablesStep(cfg: Config, t: Tables, c: Core, n: nat, m: Msg, u: Update, epoch: nat, t': Tables, row: Row)
    requires NoPhantom(cfg) && n < |cfg.stream| && cfg.stream[n] == Some(m)
    requires MarketAt(cfg, c, n) && TablesAt(cfg, t, n)
    requires UpdateFor(cfg, u, c, m, n + 1, epoch, cfg.sid)
    requires t'.orders == ApplyDelta(t.orders, u.ticker, u.group, u.delta)
    requires RowOf(row, u)
    requires t'.books == t.books[Key(u.ticker, u.group) := row]
    ensures TablesAt(cfg, t', n + 1)
  {
    var f := Fold(cfg.stream, n);
    assert Fold(cfg.stream, n + 1) == Apply(f, m);
    DeltaExact(c, t.orders, f.orders, m, u.group, cfg.glimpse);
    ApplyMovesOrders(f, m);
    if OneGroup(cfg) { RowsStep(cfg, t, c, n, m, u, epoch, row); }
  }

  /** The record of a message, and the rows it goes into. */
  lemma UpdatePlaced(cfg: Config, t: Tables, c: Core, n: nat, m: Msg, u: Update, epoch: nat, row: Row)
    requires OneGroup(cfg) && n < |cfg.stream| && cfg.stream[n] == Some(m)
    requires MarketAt(cfg, c, n) && TablesAt(cfg, t, n)
    requires UpdateFor(cfg, u, c, m, n + 1, epoch, cfg.sid)
    ensures u.ticker == TickerOf(Fold(cfg.stream, n), m) && (u.ticker != "" ==> InGroup(cfg, u.ticker, u.group))
    ensures RowsPlaced(cfg, t.books[Key(u.ticker, u.group) := row], Fold(cfg.stream, n + 1))
  {
    var f := Fold(cfg.stream, n);
    FoldGrouped(cfg, n);
    FoldGrouped(cfg, n + 1);
    SameTicker(c, f, m, cfg.glimpse);
    if u.ticker != "" { UpdateGroup(cfg, c, f, m, cfg.glimpse); }
    PlacedUpdate(cfg, t.books, f, m, u, row);
  }

  lemma UpdateKeyed(cfg: Config, books: map<Key, Row>, c: Core, n: nat, m: Msg, u: Update, row: Row)
    requires Legible(cfg) && n < |cfg.stream| && cfg.stream[n] == Some(m)
    requires LikeInsts(Apply(c, m), Fold(cfg.stream, n + 1))
    requires RowsPlaced(cfg, books, Fold(cfg.stream, n)) && RowsKeyed(cfg, books, Fold(cfg.stream, n))
    requires u.ticker == TickerOf(Fold(cfg.stream, n), m) && (u.ticker != "" ==> InGroup(cfg, u.ticker, u.group))
    requires UpdateTells(cfg, u, Apply(c, m)) && RowOf(row, u)
    ensures RowsKeyed(cfg, books[Key(u.ticker, u.group) := row], Fold(cfg.stream, n + 1))
  {
    FoldMarked(cfg, n + 1);
    if u.ticker != "" { TellsInst(u.static_, u.state, Apply(c, m), Fold(cfg.stream, n + 1), u.ticker); }
    KeyedUpdate(cfg, books, Fold(cfg.stream, n), m, u, row);
  }

  lemma UpdateShown(cfg: Config, books: map<Key, Row>, c: Core, n: nat, m: Msg, u: Update, row: Row)
    requires Shown(cfg) && n < |cfg.stream| && cfg.stream[n] == Some(m)
    requires Mirrors(Apply(c, m).orders, Fold(cfg.stream, n + 1).orders, cfg.glimpse)
    requires RowsPlaced(cfg, books, Fold(cfg.stream, n)) && RowsShow(books, Fold(cfg.stream, n))
    requires u.ticker == TickerOf(Fold(cfg.stream, n), m) && (u.ticker != "" ==> InGroup(cfg, u.ticker, u.group))
    requires UpdateTells(cfg, u, Apply(c, m)) && RowOf(row, u)
    ensures RowsShow(books[Key(u.ticker, u.group) := row], Fold(cfg.stream, n + 1))
  {
    if u.ticker != "" { TellsBook(u.book, Apply(c, m), Fold(cfg.stream, n + 1), cfg.glimpse, u.ticker); }
    ShowUpdate(cfg, books, Fold(cfg.stream, n), m, u, row);
  }

  lemma UpdateTraded(cfg: Config, books: map<Key, Row>, c: Core, n: nat, m: Msg, u: Update, row: Row)
    requires n < |cfg.stream| && cfg.stream[n] == Some(m)
    requires SameTotals(Apply(c, m).stats, Fold(cfg.stream, n + 1).stats)
    requires RowsPlaced(cfg, books, Fold(cfg.stream, n)) && RowsTrade(books, Fold(cfg.stream, n))
    requires u.ticker == TickerOf(Fold(cfg.stream, n), m) && (u.ticker != "" ==> InGroup(cfg, u.ticker, u.group))
    requires UpdateTells(cfg, u, Apply(c, m)) && RowOf(row, u)
    ensures RowsTrade(books[Key(u.ticker, u.group) := row], Fold(cfg.stream, n + 1))
  {
    if u.ticker != "" { TellsTrade(u.trade, Apply(c, m), Fold(cfg.stream, n + 1), u.ticker); }
    TradeUpdate(cfg, books, Fold(cfg.stream, n), m, u, row);
  }

  /** The rows after an update, facet by facet. */
  lemma RowsStep(cfg: Config, t: Tables, c: Core, n: nat, m: Msg, u: Update, epoch: nat, row: Row)
    requires OneGroup(cfg) && n < |cfg.stream| && cfg.stream[n] == Some(m)
    requires MarketAt(cfg, c, n) && TablesAt(cfg, t, n)
    requires UpdateFor(cfg, u, c, m, n + 1, epoch, cfg.sid) && RowOf(row, u)
    ensures var books, f' := t.books[Key(u.ticker, u.group) := row], Fold(cfg.stream, n + 1);
            && RowsPlaced(cfg, books, f') && (Legible(cfg) ==> RowsKeyed(cfg, books, f'))
            && (Shown(cfg) ==> RowsShow(books, f')) && (Totalled(cfg) ==> RowsTrade(books, f'))
  {
    MarketStep(cfg, c, n, m);
    UpdatePlaced(cfg, t, c, n, m, u, epoch, row);
    if Legible(cfg) { UpdateKeyed(cfg, t.books, c, n, m, u, row); }
    if Shown(cfg) { UpdateShown(cfg, t.books, c, n, m, u, row); }
    if Totalled(cfg) { UpdateTraded(cfg, t.books, c, n, m, u, row); }
  }

  /** The next live update is never a duplicate, and is safe on a database that
      has caught up. */
  lemma UpdateSafe(cfg: Config, d: Db, fh: Handler, u: Update, m: Msg)
    requires NoPhantom(cfg) && HandlerOk(cfg, fh) && fh.Up? && fh.next <= |cfg.stream|
    requires Ok(cfg, d) && CaughtUp(cfg, d, fh)
    requires cfg.stream[fh.next - 1] == Some(m)
    requires UpdateFor(cfg, u, fh.core, m, fh.next, fh.epoch, cfg.sid)
    ensures var e := Receive(d, UpdateRec(u));
            Ok(cfg, e) && !e.inSync && e.tables.meta.epoch == fh.epoch && e.tables.meta.seq_ == fh.next
  {
    var n := fh.next - 1;
    QuietFold(cfg, d.tables.meta.seq_, n);
    QuietFold(cfg, fh.last, n);
    var e := Receive(d, UpdateRec(u));
    var key := Key(u.ticker, u.group);
    assert e.tables.books == d.tables.books[key := e.tables.books[key]];
    TablesStep(cfg, d.tables, fh.core, n, m, u, fh.epoch, e.tables, e.tables.books[key]);
  }

  // --- every step keeps the invariant -------------------------------------------------

  /** The database's side of any state: fit to lose its connection. */
  lemma InvDrop(cfg: Config, s: System)
    requires LinkOk(cfg, s)
    ensures Ok(cfg, s.db) && Ok(cfg, DropConnection(s.db)) && !DropConnection(s.db).inSync
  {
    DropOk(cfg, s.db);
  }

  /** A send that fails part-way leaves a safe prefix in flight. */
  lemma SentSafe(cfg: Config, d: Db, before: seq<Rec>, recs: seq<Rec>, ok: bool, l: Link)
    requires Safe(cfg, d, before) && Safe(cfg, Final(d, before), recs) && Sent(before, recs, ok, l)
    ensures Safe(cfg, d, l.queue) && l.open == ok
    ensures ok ==> Final(d, l.queue) == Final(Final(d, before), recs)
  {
    if ok {
      SafeAppend(cfg, d, before, recs);
    } else {
      var k :| 0 <= k <= |recs| && l == Link(before + recs[..k], false);
      SafePrefix(cfg, Final(d, before), recs, k);
      SafeAppend(cfg, d, before, recs[..k]);
    }
  }

  lemma SyncStep(cfg: Config, s: System, p: Dump, fh: Handler, s': System)
    requires LinkOk(cfg, s) && fh.Up? && HandlerOk(cfg, fh) && DumpOf(cfg, p, fh.core)
    requires s'.fh.Up? && s'.fh == fh.(connected := s'.fh.connected)
    requires s'.db == DropConnection(s.db) && s'.conn.Some?
    requires Sent([], FullSync(p, fh.core, fh.session, fh.last, fh.epoch), s'.fh.connected, s'.conn.value)
    ensures LinkOk(cfg, s')
  {
    InvDrop(cfg, s);
    FullSyncSafe(cfg, s'.db, p, fh);
    SentSafe(cfg, s'.db, [], FullSync(p, fh.core, fh.session, fh.last, fh.epoch), s'.fh.connected, s'.conn.value);
  }

  /** Crash recovery: a handler rebuilt from the database is the handler that
      never crashed, at the database's position. */
  lemma RecoveredMarket(cfg: Config, t: Tables, c: Core, n: nat)
    requires TablesAt(cfg, t, n) && Recovers(c, t)
    ensures MarketAt(cfg, c, n)
    ensures Legible(cfg) ==> c.insts == Reload(Fold(cfg.stream, n)).insts
    ensures Totalled(cfg) ==> c.stats == Reload(Fold(cfg.stream, n)).stats
  {
    var f := Fold(cfg.stream, n);
    if OneGroup(cfg) {
      FoldGrouped(cfg, n);
      RecoveredGroups(cfg, t, c, f);
      if Legible(cfg) { RecoveredInsts(cfg, t, c, f); }
      if Totalled(cfg) {
        assert TradedKnownAt(cfg, n) && Countable(f);
        RecoveredTotals(cfg, t, c, f);
      }
    }
  }

  lemma BootstrapMarket(cfg: Config, c: Core, cut: nat)
    requires Sound(cfg) && Bootstrap(cfg, c, cut)
    ensures MarketAt(cfg, c, cut)
  {
    var f := Fold(cfg.stream, cut);
    assert Fold(cfg.stream, 0) == EmptyCore;
    if cfg.glimpse {
      assert 0 !in f.orders && f.orders - {0} == f.orders;
      if OneGroup(cfg) {
        SnapshotGroups(cfg, c, cut);
        SnapshotInsts(cfg, c, cut);
      }
      if Totalled(cfg) { assert TradedKnownAt(cfg, cut); }
    }
  }

  lemma BootRecoverStep(cfg: Config, s: System, s': System)
    requires Inv(cfg, s) && BootRecover(cfg, s, s')
    ensures Inv(cfg, s')
  {
    InvDrop(cfg, s);
    RecoveredMarket(cfg, s'.db.tables, s'.fh.core, s'.fh.last);
  }

  lemma BootColdStep(cfg: Config, s: System, s': System)
    requires Sound(cfg) && Inv(cfg, s) && BootCold(cfg, s, s')
    ensures Inv(cfg, s')
  {
    InvDrop(cfg, s);
    if Bootstrap(cfg, s'.fh.core, s'.fh.last) {
      BootstrapMarket(cfg, s'.fh.core, s'.fh.last);
    } else {
      RecoveredMarket(cfg, s'.db.tables, s'.fh.core, 0);
    }
    var d :| DumpOf(cfg, d, s'.fh.core)
          && Sent([], FullSync(d, s'.fh.core, s'.fh.session, s'.fh.last, s'.fh.epoch), s'.fh.connected, s'.conn.value);
    SyncStep(cfg, s, d, s'.fh, s');
  }

  lemma BootAloneStep(cfg: Config, s: System, s': System)
    requires Sound(cfg) && Inv(cfg, s) && BootAlone(cfg, s, s')
    ensures Inv(cfg, s')
  {
    BootstrapMarket(cfg, s'.fh.core, s'.fh.last);
  }

  lemma ReconnectStep(cfg: Config, s: System, s': System)
    requires Inv(cfg, s) && Reconnect(cfg, s, s')
    ensures Inv(cfg, s')
  {
    InvDrop(cfg, s);
    var meta := s'.db.tables.meta;
    if !(meta.epoch == s.fh.epoch && meta.seq_ == s.fh.last) {
      var p :| DumpOf(cfg, p, s.fh.core)
            && Sent([], FullSync(p, s.fh.core, s.fh.session, s.fh.last, s.fh.epoch), s'.fh.connected, s'.conn.value);
      SyncStep(cfg, s, p, s.fh, s');
    }
  }

  lemma DeliverHandler(cfg: Config, s: System, s': System)
    requires Inv(cfg, s) && Deliver(cfg, s, s')
    ensures HandlerOk(cfg, s'.fh)
  {
    var n := s.fh.next - 1;
    if cfg.stream[n].Some? {
      QuietFold(cfg, s.fh.last, n);
      assert MarketAt(cfg, s.fh.core, n);
      MarketStep(cfg, s.fh.core, n, cfg.stream[n].value);
    }
  }

  /** The link after an update was written, whole or in part. */
  lemma DeliverSent(cfg: Config, s: System, u: Update, m: Msg, ok: bool, link: Link)
    requires NoPhantom(cfg) && Inv(cfg, s) && s.fh.Up? && s.fh.connected && s.conn.Some?
    requires s.fh.next <= |cfg.stream| && cfg.stream[s.fh.next - 1] == Some(m)
    requires UpdateFor(cfg, u, s.fh.core, m, s.fh.next, s.fh.epoch, cfg.sid)
    requires Sent(s.conn.value.queue, [UpdateRec(u)], ok, link)
    ensures Safe(cfg, s.db, link.queue) && link.open == ok
    ensures ok ==> var e := Final(s.db, link.queue);
                   !e.inSync && e.tables.meta.epoch == s.fh.epoch && e.tables.meta.seq_ == s.fh.next
  {
    var d := Final(s.db, s.conn.value.queue);
    SafeFinal(cfg, s.db, s.conn.value.queue);
    UpdateSafe(cfg, d, s.fh, u, m);
    SafeOne(cfg, d, UpdateRec(u));
    SentSafe(cfg, s.db, s.conn.value.queue, [UpdateRec(u)], ok, link);
  }

  lemma DeliverStep(cfg: Config, s: System, s': System)
    requires NoPhantom(cfg) && Inv(cfg, s) && Deliver(cfg, s, s')
    ensures Inv(cfg, s')
  {
    DeliverHandler(cfg, s, s');
    var p := cfg.stream[s.fh.next - 1];
    if Published(p) && s.fh.connected && s.conn.Some? {
      var u :| UpdateFor(cfg, u, s.fh.core, p.value, s.fh.next, s.fh.epoch, cfg.sid)
            && Sent(s.conn.value.queue, [UpdateRec(u)], s'.fh.connected, s'.conn.value);
      DeliverSent(cfg, s, u, p.value, s'.fh.connected, s'.conn.value);
    }
  }

  lemma ReadStep(cfg: Config, s: System, s': System)
    requires Inv(cfg, s) && Read(s, s')
    ensures Inv(cfg, s')
  {
  }

  /** The invariant is inductive. */
  lemma StepInv(cfg: Config, s: System, s': System)
    requires Sound(cfg) && Inv(cfg, s) && Next(cfg, s, s')
    ensures Inv(cfg, s')
  {
    InvDrop(cfg, s);
    EmptyOk(cfg, EmptyDb);
    if BootRecover(cfg, s, s') { BootRecoverStep(cfg, s, s'); }
    else if BootCold(cfg, s, s') { BootColdStep(cfg, s, s'); }
    else if BootAlone(cfg, s, s') { BootAloneStep(cfg, s, s'); }
    else if Reconnect(cfg, s, s') { ReconnectStep(cfg, s, s'); }
    else if Deliver(cfg, s, s') { DeliverStep(cfg, s, s'); }
    else if Read(s, s') { ReadStep(cfg, s, s'); }
  }

  // --- whole runs --------------------------------------------------------------------

  ghost predicate IsRun(cfg: Config, run: seq<System>) {
    run != [] && Init(run[0]) && forall i :: 0 <= i < |run| - 1 ==> Next(cfg, run[i], run[i + 1])
  }

  lemma {:induction false} RunInv(cfg: Config, run: seq<System>, i: nat)
    requires Sound(cfg) && IsRun(cfg, run) && i < |run|
    ensures Inv(cfg, run[i])
  {
    if i == 0 {
      EmptyOk(cfg, EmptyDb);
    } else {
      RunInv(cfg, run, i - 1);
      StepInv(cfg, run[i - 1], run[i]);
    }
  }

  /** The database is inside an open bracket, or empty, or holds exactly the fold
      of the exchange stream up to its own sequence. */
  ghost predicate Consistent(cfg: Config, d: Db) {
    || d.inSync
    || (d.tables.orders == map[] && d.tables.meta.epoch == 0 && d.tables.meta.seq_ == 0)
    || TablesAt(cfg, d.tables, d.tables.meta.seq_)
  }

  /** In every run of handler, link and database steps, whatever crashes, the
      database is consistent; a bracket is only ever open on a live connection;
      no update is dropped as a duplicate; and the handler's market is the one
      that never crashed. */
  lemma Safety(cfg: Config, run: seq<System>, i: nat)
    requires Sound(cfg) && IsRun(cfg, run) && i < |run|
    ensures Consistent(cfg, run[i].db)
    ensures run[i].db.inSync ==> run[i].conn.Some?
    ensures run[i].db.tables.meta.dups == 0
    ensures run[i].fh.Up? ==> MarketAt(cfg, run[i].fh.core, run[i].fh.last)
  {
    RunInv(cfg, run, i);
  }

  /** Once a connected handler's records have been read, the database is at the
      handler's own market. */
  lemma Converges(cfg: Config, run: seq<System>, i: nat)
    requires Sound(cfg) && IsRun(cfg, run) && i < |run|
    requires run[i].fh.Up? && run[i].fh.connected && run[i].conn.Some? && run[i].conn.value.queue == []
    ensures !run[i].db.inSync && TablesAt(cfg, run[i].db.tables, run[i].fh.last)
    ensures run[i].db.tables.meta.epoch == run[i].fh.epoch
  {
    RunInv(cfg, run, i);
    QuietFold(cfg, run[i].db.tables.meta.seq_, run[i].fh.last);
  }

  /** In every run, GLIMPSE starts included, every row outside a bracket stands under
      its ticker's group and shows that ticker's book at the database's position:
      the ten best levels of each side with quantities and counts, and the totals
      of the whole side; every live order's ticker has its row; and where rows can
      tell a missing instrument, each tells its own, and every ticker whose group
      can be told has one. */
  lemma RowsShown(cfg: Config, run: seq<System>, i: nat)
    requires Sound(cfg) && Shown(cfg) && IsRun(cfg, run) && i < |run| && !run[i].db.inSync
    ensures var t := run[i].db.tables;
            && t.meta.seq_ <= |cfg.stream| && RowsShow(t.books, Fold(cfg.stream, t.meta.seq_))
            && RowsPlaced(cfg, t.books, Fold(cfg.stream, t.meta.seq_))
            && (Legible(cfg) ==> RowsKeyed(cfg, t.books, Fold(cfg.stream, t.meta.seq_)))
  {
    RunInv(cfg, run, i);
    InvDrop(cfg, run[i]);
  }

  /** Kill the handler anywhere in a run and rebuild it from the tables it then
      finds: the market is the uninterrupted one at the resume point, level for
      level, with its instruments less what no record can carry, and with its
      trade totals where they can be. */
  lemma CrashRecovery(cfg: Config, run: seq<System>, i: nat, c: Core, k: LevelKey)
    requires Sound(cfg) && IsRun(cfg, run) && i < |run|
    requires Recovers(c, DropConnection(run[i].db).tables)
    ensures var n := DropConnection(run[i].db).tables.meta.seq_;
            && MarketAt(cfg, c, n)
            && Resting(c.orders, k) == Resting(Fold(cfg.stream, n).orders, k)
            && Totals.Total(c.orders, CountAt(k)) == Totals.Total(Fold(cfg.stream, n).orders, CountAt(k))
            && (Legible(cfg) ==> c.insts == Reload(Fold(cfg.stream, n)).insts)
            && (Totalled(cfg) ==> c.stats == Reload(Fold(cfg.stream, n)).stats)
  {
    RunInv(cfg, run, i);
    InvDrop(cfg, run[i]);
    var t := DropConnection(run[i].db).tables;
    RecoveredMarket(cfg, t, c, t.meta.seq_);
    MirrorsLevels(c.orders, Fold(cfg.stream, t.meta.seq_).orders, cfg.glimpse, k);
  }

  // --- the short-sell flag of a recovered handler ----------------------------------------

  /** The prints of one ticker in a run of messages. */
  function Prints(c: Core, ms: seq<Msg>, t: string): seq<Uptick.Print> {
    if ms == [] then []
    else
      var front, m := ms[..|ms| - 1], ms[|ms| - 1];
      var b := ApplyAll(c, front);
      if m.Exec? && m.number in b.orders && b.orders[m.number].book == t
      then Prints(c, front, t) + [Uptick.Print(b.orders[m.number].price, BaseOf(b, t))]
      else Prints(c, front, t)
  }

  /** The flag follows the tick test over the ticker's prints. */
  lemma {:induction false} FlagRun(c: Core, ms: seq<Msg>, t: string)
    ensures TickOf(StatsOf(ApplyAll(c, ms), t)) == Uptick.Run(Uptick.CPP, TickOf(StatsOf(c, t)), Prints(c, ms, t))
  {
    if ms != [] {
      var front := ms[..|ms| - 1];
      FlagRun(c, front, t);
      FlagStep(ApplyAll(c, front), ms[|ms| - 1], t);
      var ps := Prints(c, ms, t);
      if |ps| > |Prints(c, front, t)| { assert ps[..|ps| - 1] == Prints(c, front, t); }
    }
  }

  lemma FlagStep(c: Core, m: Msg, t: string)
    ensures TickOf(StatsOf(Apply(c, m), t))
            == if m.Exec? && m.number in c.orders && c.orders[m.number].book == t
               then Uptick.Step(Uptick.CPP, TickOf(StatsOf(c, t)), Uptick.Print(c.orders[m.number].price, BaseOf(c, t)))
               else TickOf(StatsOf(c, t))
  {
  }

  /** Markets that mirror each other see the same prices. */
  lemma {:induction false} MirrorsPrints(c: Core, f: Core, ms: seq<Msg>, t: string, lossy: bool)
    requires Mirrors(c.orders, f.orders, lossy)
    ensures Mirrors(ApplyAll(c, ms).orders, ApplyAll(f, ms).orders, lossy)
    ensures Uptick.SamePrices(Prints(c, ms, t), Prints(f, ms, t))
  {
    if ms != [] {
      var front, m := ms[..|ms| - 1], ms[|ms| - 1];
      MirrorsPrints(c, f, front, t, lossy);
      var x, y := ApplyAll(c, front), ApplyAll(f, front);
      StepMirrors(x.orders, y.orders, m, lossy);
      ApplyMovesOrders(x, m);
      ApplyMovesOrders(y, m);
      if m.Exec? && m.number in y.orders { assert Carries(x.orders[m.number], y.orders[m.number], lossy); }
    }
  }

  predicate FlagOf(c: Core, t: string) {
    TickOf(StatsOf(c, t)).up
  }

  /** Some print left the price of the print before it. */
  ghost predicate PriceMoved(ps: seq<Uptick.Print>) {
    exists j :: 0 < j < |ps| && ps[j].price != ps[j - 1].price
  }

  /** Markets that mirror each other, and any further messages that print: the flags
      agree exactly when a print moved, or the first print left both the same. */
  lemma FlagsAgree(c: Core, f: Core, ms: seq<Msg>, t: string, lossy: bool)
    requires Mirrors(c.orders, f.orders, lossy) && Prints(f, ms, t) != []
    ensures |Prints(c, ms, t)| == |Prints(f, ms, t)|
    ensures FlagOf(ApplyAll(c, ms), t) == FlagOf(ApplyAll(f, ms), t) <==>
              || PriceMoved(Prints(f, ms, t))
              || Uptick.FlagAfter(Uptick.CPP, TickOf(StatsOf(c, t)), Prints(c, ms, t)[0])
                 == Uptick.FlagAfter(Uptick.CPP, TickOf(StatsOf(f, t)), Prints(f, ms, t)[0])
  {
    var x, y, ps, qs := TickOf(StatsOf(f, t)), TickOf(StatsOf(c, t)), Prints(f, ms, t), Prints(c, ms, t);
    FlagRun(c, ms, t);
    FlagRun(f, ms, t);
    MirrorsPrints(c, f, ms, t, lossy);
    Uptick.PricesAgree(Uptick.CPP, x, ps, y, qs);
    LaterMoves(x, ps);
  }

  /** Among later prints a move is a change of price. */
  lemma LaterMoves(t: Uptick.Tick, ps: seq<Uptick.Print>)
    ensures (exists j :: 0 < j < |ps| && Uptick.Moves(Uptick.CPP, t, ps, j)) <==> PriceMoved(ps)
  {
    if j :| 0 < j < |ps| && ps[j].price != ps[j - 1].price { assert Uptick.Moves(Uptick.CPP, t, ps, j); }
    if j :| 0 < j < |ps| && Uptick.Moves(Uptick.CPP, t, ps, j) { assert ps[j].price != ps[j - 1].price; }
  }

  /** A handler rebuilt anywhere in a run, any ticker, any further messages: its flag,
      down at first, agrees with the uninterrupted market's exactly when a print has
      moved from the print before it, or the first print left both the same. */
  lemma RecoveredFlag(cfg: Config, run: seq<System>, i: nat, c: Core, ms: seq<Msg>, t: string)
    requires Sound(cfg) && IsRun(cfg, run) && i < |run|
    requires Recovers(c, DropConnection(run[i].db).tables)
    ensures DropConnection(run[i].db).tables.meta.seq_ <= |cfg.stream|
    ensures var f := Fold(cfg.stream, DropConnection(run[i].db).tables.meta.seq_);
            var ps, qs := Prints(f, ms, t), Prints(c, ms, t);
            && |ps| == |qs|
            && (FlagOf(ApplyAll(c, ms), t) == FlagOf(ApplyAll(f, ms), t) <==>
                  if ps == [] then !FlagOf(f, t)
                  else
                    || PriceMoved(ps)
                    || Uptick.FlagAfter(Uptick.CPP, TickOf(StatsOf(c, t)), qs[0])
                       == Uptick.FlagAfter(Uptick.CPP, TickOf(StatsOf(f, t)), ps[0]))
  {
    CrashRecovery(cfg, run, i, c, LevelKey("", true, 0));
    var f := Fold(cfg.stream, DropConnection(run[i].db).tables.meta.seq_);
    assert !FlagOf(c, t);
    MirrorsPrints(c, f, ms, t, cfg.glimpse);
    if Prints(f, ms, t) == [] {
      FlagRun(c, ms, t);
      FlagRun(f, ms, t);
    } else {
      FlagsAgree(c, f, ms, t, cfg.glimpse);
    }
  }

  /** Instruments move alike, whatever the orders. */
  lemma SameBases(c: Core, f: Core, m: Msg)
    requires c.insts == f.insts
    ensures Apply(c, m).insts == Apply(f, m).insts
  {
  }

  /** Equal instruments and mirrored orders give the very same prints. */
  lemma {:induction false} SamePrints(c: Core, f: Core, ms: seq<Msg>, t: string, lossy: bool)
    requires Mirrors(c.orders, f.orders, lossy) && c.insts == f.insts
    ensures ApplyAll(c, ms).insts == ApplyAll(f, ms).insts && Prints(c, ms, t) == Prints(f, ms, t)
  {
    if ms != [] {
      var front, m := ms[..|ms| - 1], ms[|ms| - 1];
      SamePrints(c, f, front, t, lossy);
      MirrorsPrints(c, f, front, t, lossy);
      var x, y := ApplyAll(c, front), ApplyAll(f, front);
      SameBases(x, y, m);
      if m.Exec? && m.number in y.orders { assert Carries(x.orders[m.number], y.orders[m.number], lossy); }
    }
  }

  /** Of a reloaded market every base price is kept but a 0, which may be none. */
  lemma {:induction false} KeptBases(c: Core, f: Core, ms: seq<Msg>, t: string)
    requires c.orders == f.orders && LikeInsts(c, f)
    ensures ApplyAll(c, ms).orders == ApplyAll(f, ms).orders && LikeInsts(ApplyAll(c, ms), ApplyAll(f, ms))
    ensures |Prints(c, ms, t)| == |Prints(f, ms, t)|
    ensures forall i :: 0 <= i < |Prints(f, ms, t)| ==> KeptPrice(Prints(c, ms, t)[i].base, Prints(f, ms, t)[i].base)
  {
    if ms != [] {
      var front, m := ms[..|ms| - 1], ms[|ms| - 1];
      KeptBases(c, f, front, t);
      var x, y := ApplyAll(c, front), ApplyAll(f, front);
      ApplyMovesOrders(x, m);
      ApplyMovesOrders(y, m);
      InstsStep(x, y, m);
      assert t in x.insts ==> LikeInst(x.insts[t], y.insts[t]);
    }
  }

  /** Read off the uninterrupted market alone: what a recovery makes of it, and then
      the same messages. */
  lemma ReloadedFlag(cfg: Config, run: seq<System>, i: nat, c: Core, ms: seq<Msg>, t: string)
    requires Sound(cfg) && Totalled(cfg) && IsRun(cfg, run) && i < |run|
    requires Recovers(c, DropConnection(run[i].db).tables)
    ensures DropConnection(run[i].db).tables.meta.seq_ <= |cfg.stream|
    ensures var f := Fold(cfg.stream, DropConnection(run[i].db).tables.meta.seq_);
            && TickOf(StatsOf(c, t)) == TickOf(StatsOf(Reload(f), t))
            && Prints(c, ms, t) == Prints(Reload(f), ms, t)
            && FlagOf(ApplyAll(c, ms), t) == FlagOf(ApplyAll(Reload(f), ms), t)
  {
    CrashRecovery(cfg, run, i, c, LevelKey("", true, 0));
    var f := Fold(cfg.stream, DropConnection(run[i].db).tables.meta.seq_);
    SamePrints(c, Reload(f), ms, t, cfg.glimpse);
    FlagRun(c, ms, t);
    FlagRun(Reload(f), ms, t);
  }

  /** A ticker that had traded: the flag agrees exactly when it was down at the
      crash, or the ticker has since printed at a new price. */
  lemma TradedFlag(cfg: Config, run: seq<System>, i: nat, c: Core, ms: seq<Msg>, t: string)
    requires Sound(cfg) && Totalled(cfg) && IsRun(cfg, run) && i < |run|
    requires Recovers(c, DropConnection(run[i].db).tables) && t in c.stats
    ensures DropConnection(run[i].db).tables.meta.seq_ <= |cfg.stream|
    ensures var f := Fold(cfg.stream, DropConnection(run[i].db).tables.meta.seq_);
            && t in f.stats
            && (FlagOf(ApplyAll(c, ms), t) == FlagOf(ApplyAll(f, ms), t) <==>
                  !f.stats[t].uptick
                  || exists j :: 0 <= j < |Prints(f, ms, t)|
                       && Uptick.Moves(Uptick.CPP, TickOf(StatsOf(f, t)), Prints(f, ms, t), j))
  {
    CrashRecovery(cfg, run, i, c, LevelKey("", true, 0));
    RecoveredFlag(cfg, run, i, c, ms, t);
    var f := Fold(cfg.stream, DropConnection(run[i].db).tables.meta.seq_);
    assert t in Reload(f).stats;
    MirrorsPrints(c, f, ms, t, cfg.glimpse);
    SplitMoves(TickOf(StatsOf(f, t)), Prints(f, ms, t));
  }

  /** A move is one of the first print or of a later one. */
  lemma SplitMoves(t: Uptick.Tick, ps: seq<Uptick.Print>)
    requires t.last.Some?
    ensures (exists j :: 0 <= j < |ps| && Uptick.Moves(Uptick.CPP, t, ps, j)) <==>
              ps != [] && (ps[0].price != t.last.value || PriceMoved(ps))
  {
    if ps != [] && ps[0].price != t.last.value { assert Uptick.Moves(Uptick.CPP, t, ps, 0); }
    if j :| 0 < j < |ps| && ps[j].price != ps[j - 1].price { assert Uptick.Moves(Uptick.CPP, t, ps, j); }
  }

  /** A ticker that had not: the flag agrees exactly when a print has moved, or the
      first print's base price was not a lost 0, or the print was at 0 too. */
  lemma UntradedFlag(cfg: Config, run: seq<System>, i: nat, c: Core, ms: seq<Msg>, t: string)
    requires Sound(cfg) && Totalled(cfg) && IsRun(cfg, run) && i < |run|
    requires Recovers(c, DropConnection(run[i].db).tables) && t !in c.stats
    ensures DropConnection(run[i].db).tables.meta.seq_ <= |cfg.stream|
    ensures var f := Fold(cfg.stream, DropConnection(run[i].db).tables.meta.seq_);
            var ps, qs := Prints(f, ms, t), Prints(Reload(f), ms, t);
            && t !in f.stats && |qs| == |ps|
            && (FlagOf(ApplyAll(c, ms), t) == FlagOf(ApplyAll(f, ms), t) <==>
                  ps == [] || PriceMoved(ps) || qs[0].base == ps[0].base || ps[0].price == 0)
  {
    CrashRecovery(cfg, run, i, c, LevelKey("", true, 0));
    RecoveredFlag(cfg, run, i, c, ms, t);
    ReloadedFlag(cfg, run, i, c, ms, t);
    var f := Fold(cfg.stream, DropConnection(run[i].db).tables.meta.seq_);
    assert t in f.stats ==> t in Reload(f).stats;
    KeptBases(Reload(f), f, ms, t);
    MirrorsPrints(c, f, ms, t, cfg.glimpse);
  }
}
