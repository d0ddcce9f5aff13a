/** Feed handler, link and database as one step system.  Any side may die or lose
    the connection at any moment; every reachable database state is a prefix of
    the exchange stream, or is inside a sync bracket. */
module Replication {
  import opened Itch
  import opened Orders
  import opened Records
  import opened TableModel
  import opened Feed
  import opened BookRows

  /** One exchange session: its payloads, its non-blank id, and whether handlers
      may bootstrap from a GLIMPSE snapshot.  `groups` names the group of each
      ticker; only `OneGroup` speaks of it. */
  datatype Config = Config(stream: seq<Option<Msg>>, sid: string, glimpse: bool, groups: map<string, string>)

  /** Every inserted order has a positive quantity, so the levels agree with the
      orders in every market fed from this stream. */
  ghost predicate Positive(cfg: Config) {
    forall i :: 0 <= i < |cfg.stream| && cfg.stream[i].Some? ==> PositiveQty(cfg.stream[i].value)
  }

  /** `last` is the last sequence applied, `next` the next one the session will
      deliver; `connected` is the handler's own belief about the link. */
  datatype Handler =
    | Down
    | Up(core: Core, last: nat, next: nat, epoch: nat, session: string, connected: bool)

  /** The connection as the database holds it: records not yet read, and whether
      the handler's end is still open. */
  datatype Link = Link(queue: seq<Rec>, open: bool)

  datatype System = System(fh: Handler, db: Db, conn: Option<Link>)

  const EmptyDb := Db(Fresh, false)

  ghost predicate Init(s: System) {
    s == System(Down, EmptyDb, None)
  }

  // --- what the handler sends -------------------------------------------------

  ghost predicate UpdateTells(cfg: Config, u: Update, c: Core) {
    u.ticker != "" ==> Tells(u.static_, u.state, u.trade, u.book, c, u.ticker, Positive(cfg))
  }

  /** `u` is the update published for message `m`, which took the market from `c`
      to `Apply(c, m)`; fields not mentioned may hold anything. */
  ghost predicate UpdateFor(cfg: Config, u: Update, c: Core, m: Msg, n: nat, epoch: nat, session: string) {
    && u.epoch == epoch && u.session == session && u.seq_ == n
    && u.ticker == TickerOf(c, m)
    && u.group == FillGroup(Apply(c, m), TickerOf(c, m), MsgGroup(c, m))
    && u.delta == DeltaOf(c, m)
    && UpdateTells(cfg, u, Apply(c, m))
  }

  /** A full dump: tick rows, every live order (in some order), book rows. */
  datatype Dump = Dump(ticks: seq<Rec>, numbers: seq<nat>, rows: seq<Update>)

  /** A row's group is the instrument's; failing that, that of a live order. */
  ghost predicate DumpRow(cfg: Config, u: Update, c: Core) {
    && u.delta == NoDelta
    && UpdateTells(cfg, u, c)
    && (u.ticker != "" ==>
          if u.ticker in c.insts && c.insts[u.ticker].group != "" then u.group == c.insts[u.ticker].group
          else exists n :: n in c.orders && c.orders[n].book == u.ticker && c.orders[n].group == u.group)
  }

  /** A ticker gets a row exactly when its group can be told; rows of the blank
      ticker carry system events. */
  ghost predicate DumpOf(cfg: Config, d: Dump, c: Core) {
    && (forall r :: r in d.ticks ==> r.TickRec?)
    && (forall n :: n in d.numbers <==> n in c.orders)
    && (forall u :: u in d.rows ==> DumpRow(cfg, u, c))
    && (forall t :: t != "" && Known(c, t) ==> HasRow(d.rows, t))
  }

  ghost predicate HasRow(rows: seq<Update>, t: string) {
    exists u :: u in rows && u.ticker == t
  }

  ghost function Body(d: Dump, c: Core): seq<Rec>
    requires forall n :: n in d.numbers <==> n in c.orders
  {
    d.ticks + OrderRecs(c.orders, d.numbers) + RowRecs(d.rows)
  }

  /** RESET followed by the bracketed dump. */
  ghost function FullSync(d: Dump, c: Core, session: string, last: nat, epoch: nat): seq<Rec>
    requires forall n :: n in d.numbers <==> n in c.orders
  {
    [Reset, SyncBegin] + Body(d, c) + [SyncEnd(session, last, epoch)]
  }

  // --- steps ------------------------------------------------------------------

  /** The market a GET_STATE dump rebuilds. */
  ghost predicate Recovers(c: Core, t: Tables) {
    && c.orders == t.orders
    && (forall x :: Described(c, x) <==>
         x != "" && exists k :: k in t.books && k.ticker == x && t.books[k].static_.directorySeen)
    && (forall x :: x in c.insts <==> x != "" && exists k :: k in t.books && k.ticker == x && RowInforms(t.books[k]))
    && (forall x :: x in c.insts ==> exists k :: k in t.books && k.ticker == x && c.insts[x].group == k.group)
    && (forall x :: x != "" ==> Restores(InstOf(c.insts, x), RowStates(t.books, x)))
    && (forall x :: x in c.stats <==>
         x != "" && exists k :: k in t.books && k.ticker == x && t.books[k].trade.count > 0)
    && (forall x :: x in c.stats ==>
          exists k :: k in t.books && k.ticker == x && t.books[k].trade.count > 0
            && c.stats[x] == Restored(t.books[k].trade))
  }

  ghost function RowStates(books: map<Key, Row>, x: string): set<State> {
    set k | k in books && k.ticker == x :: books[k].state
  }

  ghost predicate TradingFrom(state: char, told: set<State>) {
    || (state == NewInst.trading && forall s :: s in told ==> !Stated(s.tradingState))
    || exists s :: s in told && Stated(s.tradingState) && state == s.tradingState
  }

  ghost predicate ShortSellFrom(state: char, told: set<State>) {
    || (state == NewInst.shortSell && forall s :: s in told ==> !Stated(s.shortSell))
    || exists s :: s in told && Stated(s.shortSell) && state == s.shortSell
  }

  ghost predicate ReferenceFrom(price: Option<nat>, told: set<State>) {
    || (price == None && forall s :: s in told ==> s.refPrice == 0)
    || exists s :: s in told && s.refPrice != 0 && price == Some(s.refPrice)
  }

  /** Each state is one a row told, and the reference price one other than 0; what
      no row told is as for an instrument nothing is known of. */
  ghost predicate Restores(i: Inst, told: set<State>) {
    TradingFrom(i.trading, told) && ShortSellFrom(i.shortSell, told) && ReferenceFrom(i.reference, told)
  }

  predicate RowInforms(r: Row) {
    Informs(r.static_, r.state)
  }

  /** A message that names a book and its group. */
  predicate Named(m: Msg) {
    m.Add? || m.Directory? || m.TradingState? || m.ShortSell?
  }

  predicate Names(p: Option<Msg>, t: string, g: string) {
    p.Some? && Named(p.value) && p.value.book == t && p.value.group == g
  }

  /** Some message before `cut` gave ticker `t` the group `g`. */
  ghost predicate GroupSeen(cfg: Config, cut: nat, t: string, g: string) {
    exists i :: 0 <= i < cut <= |cfg.stream| && Names(cfg.stream[i], t, g)
  }

  /** The states of `j`, and its reference price unless an order 0 arrived as one. */
  predicate SnapshotInst(i: Inst, j: Inst, t: string, orders: Table) {
    && i.trading == j.trading && i.shortSell == j.shortSell
    && i.reference == if 0 in orders && orders[0].book == t then Some(orders[0].price) else j.reference
  }

  /** The market a snapshot taken at `cut` fills: every order but one with number
      0, which arrives as a reference price; every instrument; no trades. */
  ghost predicate SnapshotOf(cfg: Config, c: Core, cut: nat)
    requires cut <= |cfg.stream|
  {
    var f := Fold(cfg.stream, cut);
    && Mirrors(c.orders, f.orders - {0}, true)
    && c.stats == map[]
    && (forall t :: t in c.insts <==> t in f.insts || (0 in f.orders && f.orders[0].book == t))
    && (forall t :: Described(c, t) <==> Described(f, t))
    && (forall t :: t in c.insts ==> GroupSeen(cfg, cut, t, c.insts[t].group))
    && (forall t :: t in c.insts ==> SnapshotInst(c.insts[t], InstOf(f.insts, t), t, f.orders))
  }

  /** A handler's market after a cold bootstrap: empty at 0, or a snapshot. */
  ghost predicate Bootstrap(cfg: Config, c: Core, cut: nat) {
    && cut <= |cfg.stream|
    && if cfg.glimpse then SnapshotOf(cfg, c, cut) else cut == 0 && c == EmptyCore
  }

  /** The handler's link after trying to send `recs`: everything is in flight, or
      only a prefix is and the handler has closed its end. */
  ghost predicate Sent(before: seq<Rec>, recs: seq<Rec>, ok: bool, l: Link) {
    if ok then l == Link(before + recs, true)
    else exists k :: 0 <= k <= |recs| && l == Link(before + recs[..k], false)
  }

  ghost predicate BootRecover(cfg: Config, s: System, s': System) {
    var d := DropConnection(s.db);
    var meta := d.tables.meta;
    && s.fh.Down? && s'.fh.Up?
    && (meta.epoch != 0 || meta.seq_ != 0)
    && !(meta.seq_ == 0 && meta.session == "")
    && Recovers(s'.fh.core, d.tables)
    && s'.fh == Up(s'.fh.core, meta.seq_, meta.seq_ + 1, meta.epoch, meta.session, true)
    && s'.db == d && s'.conn == Some(Link([], true))
  }

  /** A cold start that reaches the database and pushes a full sync.  It is taken
      when the database is empty, when the recovery dump failed, and when the
      recovered position is still 0 with no session. */
  ghost predicate BootCold(cfg: Config, s: System, s': System) {
    && s.fh.Down? && s'.fh.Up?
    && (Bootstrap(cfg, s'.fh.core, s'.fh.last)
        || (s'.fh.last == 0 == DropConnection(s.db).tables.meta.seq_
             && Recovers(s'.fh.core, DropConnection(s.db).tables)))
    && s'.fh.next == s'.fh.last + 1
    && s'.db == DropConnection(s.db) && s'.conn.Some?
    && exists d :: DumpOf(cfg, d, s'.fh.core)
          && Sent([], FullSync(d, s'.fh.core, s'.fh.session, s'.fh.last, s'.fh.epoch), s'.fh.connected, s'.conn.value)
  }

  ghost predicate BootAlone(cfg: Config, s: System, s': System) {
    && s.fh.Down? && s'.fh.Up?
    && Bootstrap(cfg, s'.fh.core, s'.fh.last)
    && s'.fh.next == s'.fh.last + 1 && !s'.fh.connected
    && s'.db == s.db && s'.conn == s.conn
  }

  /** The reconnect timer reaches the database: an exact match of epoch and
      sequence resumes, anything else is rebased by a full sync. */
  ghost predicate Reconnect(cfg: Config, s: System, s': System) {
    var d := DropConnection(s.db);
    && s.fh.Up? && !s.fh.connected && s'.fh.Up?
    && s'.fh == s.fh.(connected := s'.fh.connected)
    && s'.db == d && s'.conn.Some?
    && if d.tables.meta.epoch == s.fh.epoch && d.tables.meta.seq_ == s.fh.last
       then s'.fh.connected && s'.conn.value == Link([], true)
       else exists p :: DumpOf(cfg, p, s.fh.core)
              && Sent([], FullSync(p, s.fh.core, s.fh.session, s.fh.last, s.fh.epoch), s'.fh.connected, s'.conn.value)
  }

  /** A connection attempt that the database accepts and then loses. */
  ghost predicate StrayConnect(s: System, s': System) {
    && (s.fh.Up? ==> !s.fh.connected)
    && s' == System(s.fh, DropConnection(s.db), Some(Link([], false)))
  }

  /** The session delivers the next payload. */
  ghost predicate Deliver(cfg: Config, s: System, s': System) {
    && s.fh.Up? && 1 <= s.fh.next <= |cfg.stream| && s'.fh.Up? && s'.db == s.db
    && var n := s.fh.next;
       var p := cfg.stream[n - 1];
       if p.None? then
         s'.fh == s.fh.(next := n + 1, session := cfg.sid) && s'.conn == s.conn
       else
         && s'.fh == Up(Apply(s.fh.core, p.value), n, n + 1, s.fh.epoch, cfg.sid, s'.fh.connected)
         && if !Published(p) || !s.fh.connected then
              s'.fh.connected == s.fh.connected && s'.conn == s.conn
            else if s.conn.None? then
              s'.conn == s.conn
            else
              && s'.conn.Some?
              && exists u :: UpdateFor(cfg, u, s.fh.core, p.value, n, s.fh.epoch, cfg.sid)
                   && Sent(s.conn.value.queue, [UpdateRec(u)], s'.fh.connected, s'.conn.value)
  }

  ghost predicate Login(cfg: Config, s: System, s': System) {
    s.fh.Up? && s' == s.(fh := s.fh.(session := cfg.sid))
  }

  ghost predicate HandlerCrash(s: System, s': System) {
    s' == System(Down, s.db, if s.conn.Some? then Some(s.conn.value.(open := false)) else None)
  }

  /** The database reads one record. */
  ghost predicate Read(s: System, s': System) {
    && s.conn.Some? && s.conn.value.queue != []
    && s' == System(s.fh, Receive(s.db, s.conn.value.queue[0]), Some(s.conn.value.(queue := s.conn.value.queue[1..])))
  }

  /** End of file, hang-up or a kick: whatever was unread is lost. */
  ghost predicate Disconnect(s: System, s': System) {
    s.conn.Some? && s' == System(s.fh, DropConnection(s.db), None)
  }

  /** The database keeps nothing on disk. */
  ghost predicate DatabaseCrash(s: System, s': System) {
    s' == System(s.fh, EmptyDb, None)
  }

  ghost predicate Next(cfg: Config, s: System, s': System) {
    || BootRecover(cfg, s, s') || BootCold(cfg, s, s') || BootAlone(cfg, s, s')
    || Reconnect(cfg, s, s') || StrayConnect(s, s')
    || Deliver(cfg, s, s') || Login(cfg, s, s') || HandlerCrash(s, s')
    || Read(s, s') || Disconnect(s, s') || DatabaseCrash(s, s')
  }
}
