/** The conditions under which replication is faithful are exact: on any other
    stream some run ends in a wrong database, in a stale row, or in a recovered
    market without its trade totals.  The runs built here also show that the step system makes
    progress: a connected handler and a reading database follow the whole stream. */
module ReplicationExact {
  import opened Itch
  import opened Orders
  import opened Records
  import opened TableModel
  import opened Feed
  import opened BookRows
  import opened Replication
  import opened ReplicationProof
  import opened Regularity
  import CppBook
  import Recovery
  import TableDump

  lemma {:induction false} Enumerate(s: set<nat>) returns (e: seq<nat>)
    ensures forall n :: n in e <==> n in s
    ensures forall i, j :: 0 <= i < j < |e| ==> e[i] != e[j]
  {
    if s == {} {
      e := [];
    } else {
      var n :| n in s;
      var rest := Enumerate(s - {n});
      e := rest + [n];
    }
  }

  /** Every table with positive quantities has a book section that shows it. */
  lemma SectionExists(orders: Table, book: string) returns (r: Section)
    requires AllPositive(orders)
    ensures Shows(r, orders, book)
  {
    var numbers := Enumerate(orders.Keys);
    CppBook.RestoreAgrees(orders, numbers);
    var s := CppBook.Restore(orders, numbers);
    assert s.orders == orders;
    var bids := CppBook.SideAt(s, SideKey(book, true));
    var asks := CppBook.SideAt(s, SideKey(book, false));
    assert CppBook.SideAgrees(bids, orders, SideKey(book, true))
             && CppBook.SideAgrees(asks, orders, SideKey(book, false));
    CppBook.TopShows(bids, orders, SideKey(book, true));
    CppBook.TopShows(asks, orders, SideKey(book, false));
    r := Section(CppBook.Top(bids.levels, bids.levels.Keys, true, DEPTH),
      CppBook.Top(asks.levels, asks.levels.Keys, false, DEPTH),
                 bids.totalQty, asks.totalQty, bids.totalOrders, asks.totalOrders);
  }

  lemma {:induction false} FoldPositive(cfg: Config, n: nat)
    requires Positive(cfg) && n <= |cfg.stream|
    ensures AllPositive(Fold(cfg.stream, n).orders)
  {
    if n > 0 {
      FoldPositive(cfg, n - 1);
      if cfg.stream[n - 1].Some? { ApplyMovesOrders(Fold(cfg.stream, n - 1), cfg.stream[n - 1].value); }
    }
  }

  /** Sections that tell any ticker of any market. */
  lemma SectionsExist(cfg: Config, c: Core, t: string)
      returns (static_: Static, state: State, trade: Trade, book: Section)
    requires Positive(cfg) ==> AllPositive(c.orders)
    ensures Tells(static_, state, trade, book, c, t, Positive(cfg))
  {
    book := Section([], [], 0, 0, 0, 0);
    if Positive(cfg) { book := SectionExists(c.orders, t); }
    static_ := Static("", 0, 0, 0, 0, 0, Described(c, t), false);
    state := if t in c.insts then State(c.insts[t].trading, c.insts[t].shortSell, RefPrice(c.insts[t]), ' ', 0)
             else State('?', '?', 0, ' ', 0);
    var s := StatsOf(c, t);
    trade := if s.None? then Trade(0, 0, 0, 0, 0, 0, 0)
             else Trade(s.value.lastPrice, s.value.lastQty, s.value.lastMatch, 0, s.value.volume, s.value.notional,
               s.value.count % U32);
  }

  /** An update for any message of the stream exists. */
  lemma UpdateExists(cfg: Config, n: nat, m: Msg, epoch: nat) returns (u: Update)
    requires n < |cfg.stream| && cfg.stream[n] == Some(m)
    ensures UpdateFor(cfg, u, Fold(cfg.stream, n), m, n + 1, epoch, cfg.sid)
  {
    var c := Fold(cfg.stream, n);
    var c' := Apply(c, m);
    assert c' == Fold(cfg.stream, n + 1);
    if Positive(cfg) { FoldPositive(cfg, n + 1); }
    var ticker := TickerOf(c, m);
    var static_, state, trade, book := SectionsExist(cfg, c', ticker);
    u := Update(epoch, 0, cfg.sid, n + 1, 0, ' ', ticker, FillGroup(c', ticker, MsgGroup(c, m)),
                static_, state, book, trade, DeltaOf(c, m));
  }

  lemma RowExists(cfg: Config, c: Core, t: string) returns (u: Update)
    requires (Positive(cfg) ==> AllPositive(c.orders)) && Known(c, t)
    ensures DumpRow(cfg, u, c) && u.ticker == t
  {
    var group := "";
    if t in c.insts && c.insts[t].group != "" {
      group := c.insts[t].group;
    } else {
      var n :| n in c.orders && c.orders[n].book == t;
      group := c.orders[n].group;
    }
    var static_, state, trade, book := SectionsExist(cfg, c, t);
    u := Update(0, 0, "", 0, 0, '#', t, group, static_, state, book, trade, NoDelta);
  }

  lemma {:induction false} RowsExist(cfg: Config, c: Core, ts: set<string>) returns (rows: seq<Update>)
    requires (Positive(cfg) ==> AllPositive(c.orders)) && forall t :: t in ts ==> Known(c, t)
    ensures forall u :: u in rows ==> DumpRow(cfg, u, c)
    ensures forall t :: t in ts ==> HasRow(rows, t)
  {
    rows := [];
    if ts != {} {
      var t :| t in ts;
      var rest := RowsExist(cfg, c, ts - {t});
      var u := RowExists(cfg, c, t);
      rows := rest + [u];
      forall x | x in ts
        ensures HasRow(rows, x)
      {
        if x == t {
          assert u in rows;
        } else {
          assert HasRow(rest, x);
          var v :| v in rest && v.ticker == x;
          assert v in rows;
        }
      }
    }
  }

  /** A full dump of any market exists. */
  lemma DumpExists(cfg: Config, c: Core) returns (d: Dump)
    requires Positive(cfg) ==> AllPositive(c.orders)
    ensures DumpOf(cfg, d, c)
  {
    var numbers := Enumerate(c.orders.Keys);
    var ts := (set t | t in c.insts && Known(c, t)) + (set n | n in c.orders :: c.orders[n].book);
    forall t | t in ts
      ensures Known(c, t)
    {
      if !(t in c.insts && Known(c, t)) {
        var n :| n in c.orders && c.orders[n].book == t;
      }
    }
    var rows := RowsExist(cfg, c, ts);
    d := Dump([], numbers, rows);
    forall t | t != "" && Known(c, t)
      ensures HasRow(d.rows, t)
    {
      assert t in ts;
    }
  }

  // --- reachability ----------------------------------------------------------------

  ghost predicate Reachable(cfg: Config, s: System) {
    exists run :: IsRun(cfg, run) && run[|run| - 1] == s
  }

  lemma ReachNext(cfg: Config, s: System, s': System)
    requires Reachable(cfg, s) && Next(cfg, s, s')
    ensures Reachable(cfg, s')
  {
    var run :| IsRun(cfg, run) && run[|run| - 1] == s;
    var longer := run + [s'];
    forall i | 0 <= i < |longer| - 1
      ensures Next(cfg, longer[i], longer[i + 1])
    {
      if i < |run| - 1 { assert longer[i] == run[i] && longer[i + 1] == run[i + 1]; }
    }
    assert IsRun(cfg, longer) && longer[|longer| - 1] == s';
  }

  /** No phantom among the first `n` payloads. */
  ghost predicate CleanUpTo(cfg: Config, n: nat) {
    n <= |cfg.stream| && forall i :: 0 <= i < n && cfg.stream[i].Some? ==>
      !Phantom(Fold(cfg.stream, i).orders, cfg.stream[i].value, cfg.glimpse)
  }

  /** A handler started cold has applied `n` payloads and the database has read
      everything it sent. */
  ghost predicate Follows(cfg: Config, s: System, n: nat) {
    && n <= |cfg.stream|
    && s.fh.Up? && s.fh.core == Fold(cfg.stream, n) && s.fh.next == n + 1 && s.fh.epoch == 1 && s.fh.connected
    && s.conn == Some(Link([], true))
    && !s.db.inSync && s.db.tables.meta.epoch == 1 && s.db.tables.meta.seq_ <= n
    && (CleanUpTo(cfg, n) ==> Mirrors(s.db.tables.orders, Fold(cfg.stream, n).orders, cfg.glimpse))
  }

  lemma ReachRead(cfg: Config, s: System) returns (s': System)
    requires Reachable(cfg, s) && s.conn.Some? && s.conn.value.queue != []
    ensures Reachable(cfg, s')
    ensures s' == System(s.fh, Receive(s.db, s.conn.value.queue[0]),
              Some(s.conn.value.(queue := s.conn.value.queue[1..])))
  {
    s' := System(s.fh, Receive(s.db, s.conn.value.queue[0]), Some(s.conn.value.(queue := s.conn.value.queue[1..])));
    assert Read(s, s');
    ReachNext(cfg, s, s');
  }

  lemma {:induction false} ReachReadAll(cfg: Config, s: System) returns (s': System)
    requires Reachable(cfg, s) && s.conn.Some?
    ensures Reachable(cfg, s')
    ensures s' == System(s.fh, Final(s.db, s.conn.value.queue), Some(s.conn.value.(queue := [])))
    decreases |if s.conn.Some? then s.conn.value.queue else []|
  {
    if s.conn.value.queue == [] {
      s' := s;
    } else {
      var next := ReachRead(cfg, s);
      s' := ReachReadAll(cfg, next);
    }
  }

  lemma ColdBoot(cfg: Config) returns (s: System)
    ensures Reachable(cfg, s)
    ensures s == System(Up(EmptyCore, 0, 1, 1, "", true), EmptyDb,
              Some(Link([Reset, SyncBegin, SyncEnd("", 0, 1)], true)))
  {
    var s0 := System(Down, EmptyDb, None);
    assert IsRun(cfg, [s0]) && [s0][|[s0]| - 1] == s0;
    var dump := Dump([], [], []);
    assert DumpOf(cfg, dump, EmptyCore);
    var q := FullSync(dump, EmptyCore, "", 0, 1);
    assert q == [Reset, SyncBegin, SyncEnd("", 0, 1)] == [] + q;
    s := System(Up(EmptyCore, 0, 1, 1, "", true), EmptyDb, Some(Link(q, true)));
    assert Sent([], q, true, Link(q, true));
    assert Bootstrap(cfg, EmptyCore, 0) by {
      assert Fold(cfg.stream, 0) == EmptyCore;
      assert EmptyCore.orders - {0} == EmptyCore.orders;
    }
    assert BootCold(cfg, s0, s);
    ReachNext(cfg, s0, s);
  }

  lemma ColdStart(cfg: Config) returns (s: System)
    ensures Reachable(cfg, s) && Follows(cfg, s, 0)
  {
    var s1 := ColdBoot(cfg);
    var s2 := ReachRead(cfg, s1);
    assert s1.conn.value.queue[1..] == [SyncBegin, SyncEnd("", 0, 1)];
    var s3 := ReachRead(cfg, s2);
    assert s2.conn.value.queue[1..] == [SyncEnd("", 0, 1)];
    s := ReachRead(cfg, s3);
    assert s3.conn.value.queue[1..] == [];
    assert Fold(cfg.stream, 0) == EmptyCore;
  }

  /** One more payload, delivered, published and read. */
  lemma FollowOne(cfg: Config, s: System, n: nat) returns (s': System)
    requires Reachable(cfg, s) && Follows(cfg, s, n) && n < |cfg.stream|
    ensures Reachable(cfg, s') && Follows(cfg, s', n + 1)
    ensures CleanUpTo(cfg, n) && Published(cfg.stream[n]) ==>
              && s'.db.tables.meta.seq_ == n + 1
              && (Phantom(Fold(cfg.stream, n).orders, cfg.stream[n].value, cfg.glimpse)
                  && !Refilled(Fold(cfg.stream, n).orders, cfg.stream[n].value, cfg.glimpse) ==>
                    !Mirrors(s'.db.tables.orders, Fold(cfg.stream, n + 1).orders, cfg.glimpse))
  {
    var p := cfg.stream[n];
    if p.None? {
      s' := s.(fh := s.fh.(next := n + 2, session := cfg.sid));
      assert Deliver(cfg, s, s');
      ReachNext(cfg, s, s');
    } else {
      var fh := Up(Apply(s.fh.core, p.value), n + 1, n + 2, 1, cfg.sid, true);
      if !Published(p) {
        s' := s.(fh := fh);
        assert Deliver(cfg, s, s');
        ReachNext(cfg, s, s');
      } else {
        var u;
        s', u := FollowUpdate(cfg, s, n, p.value);
      }
    }
  }

  lemma FollowUpdate(cfg: Config, s: System, n: nat, m: Msg) returns (s': System, u: Update)
    requires Reachable(cfg, s) && Follows(cfg, s, n) && n < |cfg.stream| && cfg.stream[n] == Some(m) && !m.Seconds?
    ensures Reachable(cfg, s') && Follows(cfg, s', n + 1) && s'.db.tables.meta.seq_ == n + 1
    ensures s'.db == Receive(s.db, UpdateRec(u)) && u.ticker == TickerOf(Fold(cfg.stream, n), m)
    ensures CleanUpTo(cfg, n) && Phantom(Fold(cfg.stream, n).orders, m, cfg.glimpse)
            && !Refilled(Fold(cfg.stream, n).orders, m, cfg.glimpse) ==>
              !Mirrors(s'.db.tables.orders, Fold(cfg.stream, n + 1).orders, cfg.glimpse)
  {
    u := UpdateExists(cfg, n, m, 1);
    var sent := FollowSent(cfg, s, n, m, u);
    s' := ReachRead(cfg, sent);
    assert [UpdateRec(u)][1..] == [];
    assert s' == System(sent.fh, Receive(s.db, UpdateRec(u)), Some(Link([], true)));
    if CleanUpTo(cfg, n) { FollowDelta(cfg, s.db, n, m, u); }
  }

  /** The handler applies the payload and writes its update. */
  lemma FollowSent(cfg: Config, s: System, n: nat, m: Msg, u: Update) returns (s': System)
    requires Reachable(cfg, s) && Follows(cfg, s, n) && n < |cfg.stream| && cfg.stream[n] == Some(m) && !m.Seconds?
    requires UpdateFor(cfg, u, Fold(cfg.stream, n), m, n + 1, 1, cfg.sid)
    ensures Reachable(cfg, s')
    ensures s' == System(Up(Apply(Fold(cfg.stream, n), m), n + 1, n + 2, 1, cfg.sid, true), s.db,
                         Some(Link([UpdateRec(u)], true)))
  {
    s' := System(Up(Apply(Fold(cfg.stream, n), m), n + 1, n + 2, 1, cfg.sid, true), s.db,
                 Some(Link([UpdateRec(u)], true)));
    assert [] + [UpdateRec(u)] == [UpdateRec(u)];
    assert Sent([], [UpdateRec(u)], true, Link([UpdateRec(u)], true));
    assert Deliver(cfg, s, s');
    ReachNext(cfg, s, s');
  }

  /** The delta of an update that is no duplicate, against the fold. */
  lemma FollowDelta(cfg: Config, d: Db, n: nat, m: Msg, u: Update)
    requires n < |cfg.stream| && cfg.stream[n] == Some(m) && !d.inSync && d.tables.meta.seq_ <= n
    requires Mirrors(d.tables.orders, Fold(cfg.stream, n).orders, cfg.glimpse)
    requires UpdateFor(cfg, u, Fold(cfg.stream, n), m, n + 1, 1, cfg.sid)
    ensures var t, f := Receive(d, UpdateRec(u)).tables.orders, Fold(cfg.stream, n);
            && (!Phantom(f.orders, m, cfg.glimpse) ==> Mirrors(t, Fold(cfg.stream, n + 1).orders, cfg.glimpse))
            && (Phantom(f.orders, m, cfg.glimpse) && !Refilled(f.orders, m, cfg.glimpse) ==>
                  !Mirrors(t, Fold(cfg.stream, n + 1).orders, cfg.glimpse))
  {
    var c := Fold(cfg.stream, n);
    assert Fold(cfg.stream, n + 1) == Apply(c, m);
    ApplyMovesOrders(c, m);
    SelfMirror(c.orders, cfg.glimpse);
    DeltaExact(c, d.tables.orders, c.orders, m, u.group, cfg.glimpse);
  }

  lemma SelfMirror(t: Table, lossy: bool)
    ensures Mirrors(t, t, lossy)
  {
  }

  /** Some run follows the stream to any position, with nothing lost. */
  lemma {:induction false} Progress(cfg: Config, n: nat) returns (s: System)
    requires n <= |cfg.stream|
    ensures Reachable(cfg, s) && Follows(cfg, s, n)
  {
    if n == 0 {
      s := ColdStart(cfg);
    } else {
      var before := Progress(cfg, n - 1);
      s := FollowOne(cfg, before, n - 1);
    }
  }

  ghost predicate AlwaysConsistent(cfg: Config) {
    forall s :: Reachable(cfg, s) ==> Consistent(cfg, s.db)
  }

  lemma {:induction false} FirstPhantom(cfg: Config, n: nat) returns (i: nat)
    requires n <= |cfg.stream| && !CleanUpTo(cfg, n)
    ensures i < n && CleanUpTo(cfg, i) && cfg.stream[i].Some?
    ensures Phantom(Fold(cfg.stream, i).orders, cfg.stream[i].value, cfg.glimpse)
  {
    if CleanUpTo(cfg, n - 1) {
      i := n - 1;
    } else {
      i := FirstPhantom(cfg, n - 1);
    }
  }

  // --- snapshots -----------------------------------------------------------------------

  /** Groups come from messages. */
  ghost predicate AllSeen(cfg: Config, n: nat, f: Core) {
    && (forall t :: t in f.insts ==> GroupSeen(cfg, n, t, f.insts[t].group))
    && (forall k :: k in f.orders ==> GroupSeen(cfg, n, f.orders[k].book, f.orders[k].group))
  }

  lemma SeenMore(cfg: Config, n: nat, t: string, g: string)
    requires n < |cfg.stream| && GroupSeen(cfg, n, t, g)
    ensures GroupSeen(cfg, n + 1, t, g)
  {
    var i :| 0 <= i < n && Names(cfg.stream[i], t, g);
  }

  lemma SeenLater(cfg: Config, n: nat, f: Core)
    requires n < |cfg.stream| && AllSeen(cfg, n, f)
    ensures AllSeen(cfg, n + 1, f)
  {
    forall t | t in f.insts
      ensures GroupSeen(cfg, n + 1, t, f.insts[t].group)
    {
      SeenMore(cfg, n, t, f.insts[t].group);
    }
    forall k | k in f.orders
      ensures GroupSeen(cfg, n + 1, f.orders[k].book, f.orders[k].group)
    {
      SeenMore(cfg, n, f.orders[k].book, f.orders[k].group);
    }
  }

  lemma SeenInsts(cfg: Config, n: nat, f: Core, m: Msg, t: string)
    requires AllSeen(cfg, n, f) && t in Apply(f, m).insts && (Named(m) ==> GroupSeen(cfg, n, m.book, m.group))
    ensures GroupSeen(cfg, n, t, Apply(f, m).insts[t].group)
  {
    if t in f.insts { assert GroupSeen(cfg, n, t, f.insts[t].group); }
  }

  lemma SeenOrders(cfg: Config, n: nat, f: Core, m: Msg, k: nat)
    requires AllSeen(cfg, n, f) && k in Step(f.orders, m) && (Named(m) ==> GroupSeen(cfg, n, m.book, m.group))
    ensures GroupSeen(cfg, n, Step(f.orders, m)[k].book, Step(f.orders, m)[k].group)
  {
    if k in f.orders { assert GroupSeen(cfg, n, f.orders[k].book, f.orders[k].group); }
    if m.Replace? && m.orig in f.orders {
      assert GroupSeen(cfg, n, f.orders[m.orig].book, f.orders[m.orig].group);
    }
  }

  lemma SeenStep(cfg: Config, n: nat, f: Core, m: Msg)
    requires n < |cfg.stream| && cfg.stream[n] == Some(m) && AllSeen(cfg, n + 1, f)
    ensures AllSeen(cfg, n + 1, Apply(f, m))
  {
    if Named(m) { assert Names(cfg.stream[n], m.book, m.group); }
    ApplyMovesOrders(f, m);
    forall t | t in Apply(f, m).insts
      ensures GroupSeen(cfg, n + 1, t, Apply(f, m).insts[t].group)
    {
      SeenInsts(cfg, n + 1, f, m, t);
    }
    forall k | k in Apply(f, m).orders
      ensures GroupSeen(cfg, n + 1, Apply(f, m).orders[k].book, Apply(f, m).orders[k].group)
    {
      SeenOrders(cfg, n + 1, f, m, k);
    }
  }

  lemma NothingSeen(cfg: Config)
    ensures AllSeen(cfg, 0, EmptyCore)
  {
  }

  lemma {:induction false} FoldSeen(cfg: Config, n: nat)
    requires n <= |cfg.stream|
    ensures AllSeen(cfg, n, Fold(cfg.stream, n))
  {
    if n == 0 {
      NothingSeen(cfg);
    } else {
      var f, p := Fold(cfg.stream, n - 1), cfg.stream[n - 1];
      FoldSeen(cfg, n - 1);
      SeenLater(cfg, n - 1, f);
      if p.Some? { SeenStep(cfg, n - 1, f, p.value); }
      assert Fold(cfg.stream, n) == ApplyPayload(f, p);
    }
  }

  /** The orders a snapshot carries, less their order types. */
  function Carried(t: Table): Table {
    map n | n in t && n != 0 :: t[n].(kind := ' ')
  }

  /** The instruments it carries; an order 0 arrives as a reference price. */
  function CarriedInsts(f: Core): map<string, Inst> {
    if 0 !in f.orders then f.insts
    else
      var o := f.orders[0];
      f.insts[o.book := Mention(f.insts, o.book, o.group).(reference := Some(o.price))]
  }

  /** A snapshot can be taken at any position. */
  lemma SnapshotExists(cfg: Config, cut: nat) returns (c: Core)
    requires cut <= |cfg.stream|
    ensures SnapshotOf(cfg, c, cut) && (Positive(cfg) ==> AllPositive(c.orders))
  {
    var f := Fold(cfg.stream, cut);
    FoldSeen(cfg, cut);
    if Positive(cfg) { FoldPositive(cfg, cut); }
    c := Core(Carried(f.orders), CarriedInsts(f), map[]);
    assert c.orders.Keys == (f.orders - {0}).Keys;
    forall t | t in c.insts
      ensures GroupSeen(cfg, cut, t, c.insts[t].group)
      ensures SnapshotInst(c.insts[t], InstOf(f.insts, t), t, f.orders)
    {
      if 0 in f.orders { assert GroupSeen(cfg, cut, f.orders[0].book, f.orders[0].group); }
      if t in f.insts { assert GroupSeen(cfg, cut, t, f.insts[t].group); }
    }
  }

  // --- what a pushed dump leaves ---------------------------------------------------------

  /** The database after a whole full sync: the dump and nothing else. */
  lemma SyncResult(cfg: Config, d: Db, p: Dump, c: Core, session: string, last: nat, epoch: nat)
    requires DumpOf(cfg, p, c)
    ensures var e := Final(d, FullSync(p, c, session, last, epoch));
            && !e.inSync && e.tables.meta.seq_ == last && e.tables.meta.epoch == epoch
            && e.tables.orders == c.orders && RowsFrom(e.tables.books, p.rows)
  {
    var d1 := Receive(d, Reset);
    var d2 := Receive(d1, SyncBegin);
    assert [Reset, SyncBegin][1..] == [SyncBegin] && [SyncBegin][1..] == [];
    assert Final(d, [Reset, SyncBegin]) == d2 by {
      assert Final(d1, [SyncBegin]) == Final(d2, []);
    }
    var body := Body(p, c);
    BracketBody(cfg, d2, p, c);
    FinalAppend(d, [Reset, SyncBegin], body);
    FinalAppend(d, [Reset, SyncBegin] + body, [SyncEnd(session, last, epoch)]);
    var d3 := Final(d2, body);
    assert [SyncEnd(session, last, epoch)][1..] == [];
    assert Final(d3, [SyncEnd(session, last, epoch)]) == Final(Receive(d3, SyncEnd(session, last, epoch)), []);
  }

  /** A handler that starts from a snapshot and is read whole. */
  lemma GlimpseRun(cfg: Config, cut: nat) returns (s: System, c: Core, p: Dump)
    requires cfg.glimpse && cut <= |cfg.stream|
    ensures Reachable(cfg, s) && SnapshotOf(cfg, c, cut) && DumpOf(cfg, p, c)
    ensures !s.db.inSync && s.db.tables.meta.seq_ == cut && s.db.tables.meta.epoch == 1
    ensures s.db.tables.orders == c.orders && RowsFrom(s.db.tables.books, p.rows)
  {
    var s0 := System(Down, EmptyDb, None);
    assert IsRun(cfg, [s0]) && [s0][|[s0]| - 1] == s0;
    c := SnapshotExists(cfg, cut);
    p := DumpExists(cfg, c);
    var q := FullSync(p, c, "", cut, 1);
    var s1 := System(Up(c, cut, cut + 1, 1, "", true), EmptyDb, Some(Link(q, true)));
    assert [] + q == q;
    assert Sent([], q, true, Link(q, true));
    assert BootCold(cfg, s0, s1);
    ReachNext(cfg, s0, s1);
    s := ReachReadAll(cfg, s1);
    SyncResult(cfg, EmptyDb, p, c, "", cut, 1);
  }

  /** The write of an update fails before anything is sent. */
  lemma FailedWrite(cfg: Config, n: nat, m: Msg) returns (s: System)
    requires n < |cfg.stream| && cfg.stream[n] == Some(m) && !m.Seconds?
    ensures Reachable(cfg, s) && s.fh == Up(Fold(cfg.stream, n + 1), n + 1, n + 2, 1, cfg.sid, false)
    ensures s.conn == Some(Link([], false)) && !s.db.inSync && s.db.tables.meta.seq_ <= n
  {
    var s0 := Progress(cfg, n);
    var u := UpdateExists(cfg, n, m, 1);
    assert Fold(cfg.stream, n + 1) == Apply(s0.fh.core, m);
    s := System(Up(Fold(cfg.stream, n + 1), n + 1, n + 2, 1, cfg.sid, false), s0.db, Some(Link([], false)));
    assert Sent([], [UpdateRec(u)], false, Link([], false)) by {
      assert [] + [UpdateRec(u)][..0] == [];
    }
    assert Deliver(cfg, s0, s);
    ReachNext(cfg, s0, s);
  }

  /** A handler ahead of the database reconnects and pushes a full dump. */
  lemma Rebase(cfg: Config, s: System, p: Dump) returns (s': System)
    requires Reachable(cfg, s) && s.fh.Up? && !s.fh.connected && !s.db.inSync && s.db.tables.meta.seq_ < s.fh.last
    requires DumpOf(cfg, p, s.fh.core)
    ensures Reachable(cfg, s')
    ensures s' == System(s.fh.(connected := true), s.db,
                         Some(Link(FullSync(p, s.fh.core, s.fh.session, s.fh.last, s.fh.epoch), true)))
  {
    var q := FullSync(p, s.fh.core, s.fh.session, s.fh.last, s.fh.epoch);
    s' := System(s.fh.(connected := true), s.db, Some(Link(q, true)));
    assert Sent([], q, true, Link(q, true)) by {
      assert [] + q == q;
    }
    assert DropConnection(s.db) == s.db;
    assert Reconnect(cfg, s, s');
    ReachNext(cfg, s, s');
  }

  lemma RebaseRead(cfg: Config, s: System, p: Dump) returns (s': System)
    requires Reachable(cfg, s) && s.fh.Up? && !s.fh.connected && !s.db.inSync && s.db.tables.meta.seq_ < s.fh.last
    requires DumpOf(cfg, p, s.fh.core)
    ensures Reachable(cfg, s')
    ensures s'.db == Final(s.db, FullSync(p, s.fh.core, s.fh.session, s.fh.last, s.fh.epoch))
  {
    var s1 := Rebase(cfg, s, p);
    s' := ReachReadAll(cfg, s1);
  }

  /** A write that fails, a reconnect, and the rebasing dump read whole. */
  lemma ResyncRun(cfg: Config, n: nat, m: Msg) returns (s: System, p: Dump)
    requires n < |cfg.stream| && cfg.stream[n] == Some(m) && !m.Seconds?
    ensures Reachable(cfg, s) && DumpOf(cfg, p, Fold(cfg.stream, n + 1))
    ensures !s.db.inSync && s.db.tables.meta.seq_ == n + 1 && RowsFrom(s.db.tables.books, p.rows)
  {
    var s1 := FailedWrite(cfg, n, m);
    p := FoldDump(cfg, n + 1);
    s := RebaseRead(cfg, s1, p);
    SyncResult(cfg, s1.db, p, s1.fh.core, cfg.sid, n + 1, 1);
  }

  lemma FoldDump(cfg: Config, n: nat) returns (p: Dump)
    requires n <= |cfg.stream|
    ensures DumpOf(cfg, p, Fold(cfg.stream, n))
  {
    if Positive(cfg) { FoldPositive(cfg, n); }
    p := DumpExists(cfg, Fold(cfg.stream, n));
  }

  // --- the results -------------------------------------------------------------------------

  /** Every reachable database state is consistent if and only if no F message with
      order number 0 meets a table in which order 0 is not already that order and,
      where handlers may start from snapshots, no order ever has number 0. */
  lemma ConsistentExact(cfg: Config)
    requires forall i :: 0 <= i < |cfg.stream| && cfg.stream[i].Some? ==>
               !Refilled(Fold(cfg.stream, i).orders, cfg.stream[i].value, cfg.glimpse)
    ensures AlwaysConsistent(cfg) <==> Sound(cfg)
  {
    if Sound(cfg) {
      forall s | Reachable(cfg, s)
        ensures Consistent(cfg, s.db)
      {
        var run :| IsRun(cfg, run) && run[|run| - 1] == s;
        Safety(cfg, run, |run| - 1);
      }
    } else if !NoPhantom(cfg) {
      var i := FirstPhantom(cfg, |cfg.stream|);
      var s := Progress(cfg, i);
      var s' := FollowOne(cfg, s, i);
      assert !TablesAt(cfg, s'.db.tables, i + 1);
      assert !Consistent(cfg, s'.db);
    } else {
      var n :| 0 <= n <= |cfg.stream| && 0 in Fold(cfg.stream, n).orders;
      var s, c, p := GlimpseRun(cfg, n);
      assert 0 !in s.db.tables.orders;
      assert !TablesAt(cfg, s.db.tables, n);
      assert !Consistent(cfg, s.db);
    }
  }

  /** Every market rebuilt from any reachable database has the totals of the
      uninterrupted one at its position. */
  ghost predicate AlwaysTotals(cfg: Config) {
    forall s, c :: Reachable(cfg, s) && Recovers(c, DropConnection(s.db).tables) ==> TotalsAt(cfg, s, c)
  }

  ghost predicate TotalsAt(cfg: Config, s: System, c: Core) {
    var n := DropConnection(s.db).tables.meta.seq_;
    n <= |cfg.stream| && SameTotals(c.stats, Fold(cfg.stream, n).stats)
  }

  /** A market rebuilt from rows none of which counts a trade of `t`. */
  lemma LostTotals(cfg: Config, s: System, n: nat, t: string)
    requires Reachable(cfg, s) && !s.db.inSync && s.db.tables.meta.seq_ == n <= |cfg.stream|
               && t in Fold(cfg.stream, n).stats
    requires t == "" || forall k :: k in s.db.tables.books && k.ticker == t ==> s.db.tables.books[k].trade.count == 0
    ensures !AlwaysTotals(cfg)
  {
    var c := Recovery.RestoreAll(EmptyCore, TableDump.Dumped(s.db.tables));
    Recovery.RestoreDump(s.db.tables);
    assert DropConnection(s.db) == s.db;
    assert t !in c.stats;
    assert !TotalsAt(cfg, s, c);
  }

  lemma QuietKnown(cfg: Config, i: nat)
    requires i < |cfg.stream|
    ensures !Published(cfg.stream[i]) ==> (TradedKnownAt(cfg, i) <==> TradedKnownAt(cfg, i + 1))
  {
    assert !Published(cfg.stream[i]) ==> Fold(cfg.stream, i + 1) == Fold(cfg.stream, i);
  }

  lemma {:induction false} FirstUnknown(cfg: Config, n: nat) returns (i: nat)
    requires n <= |cfg.stream| && !TradedKnownAt(cfg, n)
    ensures i < n && Published(cfg.stream[i]) && !TradedKnownAt(cfg, i + 1)
  {
    if TradedKnownAt(cfg, n - 1) {
      i := n - 1;
      QuietKnown(cfg, i);
    } else {
      i := FirstUnknown(cfg, n - 1);
    }
  }

  /** Trade totals survive every crash if and only if, at every position, the group
      of each traded ticker can be told from its instrument or a live order, and
      no handler starts from a snapshot once something has traded. */
  lemma TotalsExact(cfg: Config)
    requires Sound(cfg) && Legible(cfg) && FewTrades(cfg)
    ensures AlwaysTotals(cfg) <==> TradedKnown(cfg)
  {
    if TradedKnown(cfg) {
      forall s, c | Reachable(cfg, s) && Recovers(c, DropConnection(s.db).tables)
        ensures TotalsAt(cfg, s, c)
      {
        var run :| IsRun(cfg, run) && run[|run| - 1] == s;
        CrashRecovery(cfg, run, |run| - 1, c, LevelKey("", true, 0));
      }
    } else {
      var n :| 0 <= n <= |cfg.stream| && !TradedKnownAt(cfg, n);
      if cfg.glimpse { ForgottenTotals(cfg, n); } else { UnknownTotals(cfg, n); }
    }
  }

  /** A handler that starts from a snapshot has no trades to dump. */
  lemma ForgottenTotals(cfg: Config, n: nat)
    requires cfg.glimpse && n <= |cfg.stream| && !TradedKnownAt(cfg, n)
    ensures !AlwaysTotals(cfg)
  {
    var t :| t in Fold(cfg.stream, n).stats;
    var s, c, p := GlimpseRun(cfg, n);
    forall k | k in s.db.tables.books && k.ticker == t != ""
      ensures s.db.tables.books[k].trade.count == 0
    {
      assert Installed(s.db.tables.books, p.rows, k);
      var u :| u in p.rows && Key(u.ticker, u.group) == k && RowOf(s.db.tables.books[k], u);
      assert DumpRow(cfg, u, c);
    }
    LostTotals(cfg, s, n, t);
  }

  /** A dump has no row for a ticker whose group cannot be told. */
  lemma UnknownTotals(cfg: Config, n: nat)
    requires !cfg.glimpse && n <= |cfg.stream| && !TradedKnownAt(cfg, n)
    ensures !AlwaysTotals(cfg)
  {
    var i := FirstUnknown(cfg, n);
    var f := Fold(cfg.stream, i + 1);
    var t :| t in f.stats && !Known(f, t);
    var s, p := ResyncRun(cfg, i, cfg.stream[i].value);
    RowsKnown(cfg, s.db.tables.books, p, f);
    LostTotals(cfg, s, i + 1, t);
  }

  lemma RowsKnown(cfg: Config, books: map<Key, Row>, p: Dump, c: Core)
    requires RowsFrom(books, p.rows) && DumpOf(cfg, p, c)
    ensures forall k :: k in books && k.ticker != "" ==> Known(c, k.ticker)
  {
    forall k | k in books && k.ticker != ""
      ensures Known(c, k.ticker)
    {
      assert Installed(books, p.rows, k);
      var u :| u in p.rows && Key(u.ticker, u.group) == k && RowOf(books[k], u);
      assert DumpRow(cfg, u, c);
    }
  }

  // --- book sections ---------------------------------------------------------------------

  ghost predicate ShownAt(cfg: Config, d: Db) {
    d.tables.meta.seq_ <= |cfg.stream| && RowsShow(d.tables.books, Fold(cfg.stream, d.tables.meta.seq_))
  }

  /** Every row of every reachable database outside a bracket shows its book. */
  ghost predicate AlwaysShown(cfg: Config) {
    forall s :: Reachable(cfg, s) && !s.db.inSync ==> ShownAt(cfg, s.db)
  }

  /** A database that follows is at the fold, whatever quiet payloads lie between. */
  lemma FollowsFold(cfg: Config, s: System, n: nat)
    requires Sound(cfg) && Reachable(cfg, s) && Follows(cfg, s, n)
    ensures s.db.tables.meta.seq_ <= |cfg.stream|
    ensures Fold(cfg.stream, s.db.tables.meta.seq_) == Fold(cfg.stream, n)
    ensures OneGroup(cfg) ==> RowsPlaced(cfg, s.db.tables.books, Fold(cfg.stream, n))
  {
    var run :| IsRun(cfg, run) && run[|run| - 1] == s;
    RunInv(cfg, run, |run| - 1);
    QuietFold(cfg, s.db.tables.meta.seq_, s.fh.last);
    QuietFold(cfg, s.fh.last, n);
  }

  /** An update leaves the rows of other tickers alone. */
  lemma OtherRow(d: Db, u: Update, k: Key)
    requires k in d.tables.books && k.ticker != u.ticker
    ensures var books := Receive(d, UpdateRec(u)).tables.books;
            k in books && books[k] == d.tables.books[k]
  {
  }

  /** One section cannot show a side before and after it lost an order. */
  lemma ShowsOnce(r: Section, a: Table, b: Table, book: string, bid: bool)
    requires Totals.Total(a, SideCount(book, bid)) != Totals.Total(b, SideCount(book, bid))
    ensures !Shows(r, a, book) || !Shows(r, b, book)
  {
  }

  /** The book whose order a message takes has a row, and the message has another's. */
  lemma CrossedRow(cfg: Config, s: System, n: nat, m: Msg) returns (k: Key)
    requires Sound(cfg) && OneGroup(cfg) && Reachable(cfg, s) && Follows(cfg, s, n)
    requires !NoCross(Fold(cfg.stream, n).orders, m)
    ensures k.ticker != "" && k.ticker != TickerOf(Fold(cfg.stream, n), m) && k in s.db.tables.books
    ensures m.number in Fold(cfg.stream, n).orders && k.ticker == Fold(cfg.stream, n).orders[m.number].book
  {
    var f := Fold(cfg.stream, n);
    FollowsFold(cfg, s, n);
    FoldGrouped(cfg, n);
    CrossMoves(f, m);
    var t := f.orders[m.number].book;
    assert HasKey(cfg, s.db.tables.books, t);
    k := Key(t, cfg.groups[t]);
  }

  /** A row that stays, of a book that lost an order. */
  lemma RowStays(books: map<Key, Row>, after: map<Key, Row>, c: Core, m: Msg, k: Key)
    requires !NoCross(c.orders, m) && m.number in c.orders && k.ticker == c.orders[m.number].book != ""
    requires k in books && k in after && after[k] == books[k]
    ensures !RowsShow(books, c) || !RowsShow(after, Apply(c, m))
  {
    CrossMoves(c, m);
    ApplyMovesOrders(c, m);
    ShowsOnce(books[k].book, c.orders, Apply(c, m).orders, k.ticker, c.orders[m.number].side == 'B');
  }

  /** ... cannot be right both before and after. */
  lemma StaleOnce(cfg: Config, d: Db, d': Db, n: nat, m: Msg, k: Key)
    requires n < |cfg.stream| && cfg.stream[n] == Some(m) && d'.tables.meta.seq_ == n + 1
    requires d.tables.meta.seq_ <= |cfg.stream| && Fold(cfg.stream, d.tables.meta.seq_) == Fold(cfg.stream, n)
    requires !NoCross(Fold(cfg.stream, n).orders, m) && m.number in Fold(cfg.stream, n).orders
    requires k.ticker == Fold(cfg.stream, n).orders[m.number].book != ""
    requires k in d.tables.books && k in d'.tables.books && d'.tables.books[k] == d.tables.books[k]
    ensures !ShownAt(cfg, d) || !ShownAt(cfg, d')
  {
    assert Fold(cfg.stream, n + 1) == Apply(Fold(cfg.stream, n), m);
    RowStays(d.tables.books, d'.tables.books, Fold(cfg.stream, n), m, k);
  }

  lemma NotAlways(cfg: Config, s: System)
    requires Reachable(cfg, s) && !s.db.inSync && !ShownAt(cfg, s.db)
    ensures !AlwaysShown(cfg)
  {
  }

  /** A message that inserts over another book's order leaves that book's row stale. */
  lemma StaleRow(cfg: Config, n: nat, m: Msg)
    requires Sound(cfg) && OneGroup(cfg) && n < |cfg.stream| && cfg.stream[n] == Some(m)
    requires !NoCross(Fold(cfg.stream, n).orders, m)
    ensures !AlwaysShown(cfg)
  {
    var s := Progress(cfg, n);
    var s', u := FollowUpdate(cfg, s, n, m);
    var k := CrossedRow(cfg, s, n, m);
    OtherRow(s.db, u, k);
    FollowsFold(cfg, s, n);
    StaleOnce(cfg, s.db, s'.db, n, m, k);
    NotAlways(cfg, if ShownAt(cfg, s.db) then s' else s);
  }

  /** Every row of every reachable database shows its book if and only if no message
      inserts over a number that is live in another book. */
  lemma SectionsExact(cfg: Config)
    requires Sound(cfg) && OneGroup(cfg) && Positive(cfg)
    ensures AlwaysShown(cfg) <==> Uncrossed(cfg)
  {
    if Uncrossed(cfg) {
      forall s | Reachable(cfg, s) && !s.db.inSync
        ensures ShownAt(cfg, s.db)
      {
        var run :| IsRun(cfg, run) && run[|run| - 1] == s;
        RowsShown(cfg, run, |run| - 1);
      }
    } else {
      var i :| 0 <= i < |cfg.stream| && cfg.stream[i].Some?
               && !NoCross(Fold(cfg.stream, i).orders, cfg.stream[i].value);
      StaleRow(cfg, i, cfg.stream[i].value);
    }
  }

  // --- inputs -------------------------------------------------------------------------------

  const ONE_ORDER: Msg := Add(1, "8306", "DAY", 'B', 100, 5, false, ' ')

  /** One order, filled, and no directory message: the totals of its ticker are
      lost by the next resync. */
  lemma UnknownTicker()
    ensures var cfg := Config([Some(ONE_ORDER), Some(Exec(0, 1, 5, 1))], "S", false, map["8306" := "DAY"]);
            Sound(cfg) && Legible(cfg) && !AlwaysTotals(cfg)
  {
    var cfg := Config([Some(ONE_ORDER), Some(Exec(0, 1, 5, 1))], "S", false, map["8306" := "DAY"]);
    var f1, f2 := Fold(cfg.stream, 1), Fold(cfg.stream, 2);
    assert Fold(cfg.stream, 0) == EmptyCore;
    assert f1 == Apply(EmptyCore, ONE_ORDER);
    assert f1.orders == map[1 := Added(ONE_ORDER)];
    assert f2 == Apply(f1, Exec(0, 1, 5, 1));
    assert f2.orders == map[] && f2.insts == map[];
    assert "8306" in f2.stats && !Known(f2, "8306");
    assert !TradedKnownAt(cfg, 2);
    UnknownTotals(cfg, 2);
  }

  /** A replacement to number 0, and a handler that starts from a snapshot. */
  lemma ZeroInSnapshot()
    ensures var cfg := Config([Some(ONE_ORDER), Some(Replace(1, 0, 101, 5))], "S", true, map["8306" := "DAY"]);
            NoPhantom(cfg) && !AlwaysConsistent(cfg)
  {
    var cfg := Config([Some(ONE_ORDER), Some(Replace(1, 0, 101, 5))], "S", true, map["8306" := "DAY"]);
    assert Fold(cfg.stream, 0) == EmptyCore;
    var f1 := Fold(cfg.stream, 1);
    assert f1 == Apply(EmptyCore, ONE_ORDER) && 1 in f1.orders;
    assert Fold(cfg.stream, 2) == Apply(f1, Replace(1, 0, 101, 5));
    assert 0 in Fold(cfg.stream, 2).orders;
    ConsistentExact(cfg);
  }

  /** A number used again in another book: the first book's row keeps an order that
      is gone. */
  lemma CrossedBooks()
    ensures var again := Add(1, "7203", "DAY", 'B', 100, 5, false, ' ');
            var cfg := Config([Some(ONE_ORDER), Some(again)], "S", false, map["8306" := "DAY", "7203" := "DAY"]);
            Sound(cfg) && OneGroup(cfg) && Positive(cfg) && !AlwaysShown(cfg)
  {
    var again := Add(1, "7203", "DAY", 'B', 100, 5, false, ' ');
    var cfg := Config([Some(ONE_ORDER), Some(again)], "S", false, map["8306" := "DAY", "7203" := "DAY"]);
    assert Fold(cfg.stream, 0) == EmptyCore;
    assert Fold(cfg.stream, 1) == Apply(EmptyCore, ONE_ORDER);
    StaleRow(cfg, 1, again);
  }

  /** An F message with number 0: the database stores an order nobody has. */
  lemma PhantomAdd()
    ensures var f := Add(0, "8306", "DAY", 'B', 100, 5, true, ' ');
            !AlwaysConsistent(Config([Some(f)], "S", false, map["8306" := "DAY"]))
  {
    var f := Add(0, "8306", "DAY", 'B', 100, 5, true, ' ');
    var cfg := Config([Some(f)], "S", false, map["8306" := "DAY"]);
    assert Fold(cfg.stream, 0) == EmptyCore;
    assert Phantom(Fold(cfg.stream, 0).orders, cfg.stream[0].value, false);
    ConsistentExact(cfg);
  }

  /** An order filled in part, so that its group can be told, and a handler that
      starts from a snapshot: the trade is forgotten. */
  lemma ForgottenTrade()
    ensures var cfg := Config([Some(ONE_ORDER), Some(Exec(0, 1, 3, 1))], "S", true, map["8306" := "DAY"]);
            && Sound(cfg) && Legible(cfg) && Known(Fold(cfg.stream, 2), "8306")
            && !AlwaysTotals(cfg)
  {
    var cfg := Config([Some(ONE_ORDER), Some(Exec(0, 1, 3, 1))], "S", true, map["8306" := "DAY"]);
    PartFilled(cfg.stream);
    PartSound(cfg);
    ForgottenTotals(cfg, 2);
  }

  lemma PartSound(cfg: Config)
    requires cfg == Config([Some(ONE_ORDER), Some(Exec(0, 1, 3, 1))], "S", true, map["8306" := "DAY"])
    ensures Sound(cfg) && Legible(cfg)
  {
    PartFilled(cfg.stream);
    forall n | 0 <= n <= |cfg.stream|
      ensures 0 !in Fold(cfg.stream, n).orders
    {
      assert n == 0 || n == 1 || n == 2;
    }
  }

  lemma PartFilled(stream: seq<Option<Msg>>)
    requires stream == [Some(ONE_ORDER), Some(Exec(0, 1, 3, 1))]
    ensures Fold(stream, 0).orders == map[] && Fold(stream, 1).orders.Keys == {1} == Fold(stream, 2).orders.Keys
    ensures "8306" in Fold(stream, 2).stats && Known(Fold(stream, 2), "8306")
  {
    var f1, f2 := Fold(stream, 1), Fold(stream, 2);
    assert Fold(stream, 0) == EmptyCore;
    assert f1 == Apply(EmptyCore, ONE_ORDER) && f1.orders == map[1 := Added(ONE_ORDER)];
    assert f2 == Apply(f1, Exec(0, 1, 3, 1));
    assert 1 in f2.orders && f2.orders[1].book == "8306";
  }

  const ZERO_PRICE: Msg := Add(0, "8306", "DAY", 'B', 0, 5, false, ' ')
  const ZERO_STREAM: seq<Option<Msg>> := [Some(ZERO_PRICE), Some(ONE_ORDER)]

  lemma ZeroFold()
    ensures var f := Fold(ZERO_STREAM, 2);
            && f.orders == map[1 := Added(ONE_ORDER)] && f.stats == map[]
            && f.insts == map["8306" := NewInst.(group := "DAY", reference := Some(0))]
    ensures Fold(ZERO_STREAM, 1).orders == map[] && Fold(ZERO_STREAM, 1).stats == map[]
  {
    var f1 := Fold(ZERO_STREAM, 1);
    assert Fold(ZERO_STREAM, 0) == EmptyCore;
    assert f1 == Apply(EmptyCore, ZERO_PRICE);
    assert Fold(ZERO_STREAM, 2) == Apply(f1, ONE_ORDER);
  }

  lemma ZeroTotalled(cfg: Config)
    requires cfg == Config(ZERO_STREAM, "S", false, map["8306" := "DAY"])
    ensures Sound(cfg) && Totalled(cfg)
  {
    ZeroFold();
    assert Fold(cfg.stream, 0) == EmptyCore;
    forall n | 0 <= n <= |cfg.stream|
      ensures TradedKnownAt(cfg, n) && Countable(Fold(cfg.stream, n))
    {
      assert n == 0 || n == 1 || n == 2;
    }
  }

  /** A reference price of 0, an order, a crash, and a fill: the uninterrupted market's
      flag is up, the recovered one's is down. */
  lemma ZeroReference() returns (s: System, c: Core)
    ensures var cfg := Config(ZERO_STREAM, "S", false, map["8306" := "DAY"]);
            && Sound(cfg) && Totalled(cfg) && Reachable(cfg, s) && Recovers(c, DropConnection(s.db).tables)
            && FlagOf(ApplyAll(Fold(cfg.stream, 2), [Exec(0, 1, 5, 1)]), "8306")
            && !FlagOf(ApplyAll(c, [Exec(0, 1, 5, 1)]), "8306")
  {
    var cfg := Config(ZERO_STREAM, "S", false, map["8306" := "DAY"]);
    ZeroTotalled(cfg);
    s := Progress(cfg, 2);
    c := Recovery.RestoreAll(EmptyCore, TableDump.Dumped(s.db.tables));
    Recovery.RestoreDump(s.db.tables);
    FollowsFold(cfg, s, 2);
    var run :| IsRun(cfg, run) && run[|run| - 1] == s;
    var ms := [Exec(0, 1, 5, 1)];
    ReloadedFlag(cfg, run, |run| - 1, c, ms, "8306");
    ZeroFold();
    OnePrint(Fold(cfg.stream, 2), ms[0]);
    OnePrint(Reload(Fold(cfg.stream, 2)), ms[0]);
  }

  /** The first trade of a ticker sets its flag against the base price. */
  lemma OnePrint(c: Core, m: Msg)
    requires m.Exec? && m.number in c.orders && c.orders[m.number].book !in c.stats
    ensures var o := c.orders[m.number];
            FlagOf(ApplyAll(c, [m]), o.book) <==> BaseOf(c, o.book).Some? && o.price > BaseOf(c, o.book).value
  {
    assert [m][..0] == [];
  }
}
