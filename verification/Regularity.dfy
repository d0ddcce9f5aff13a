/** Streams on which the database's rows can be compared with the market: one
    group a ticker throughout; for book sections, also no number reused across
    books and positive quantities; for instruments, also no state '?'; for trade
    totals, also that the group of every traded ticker can be told at every
    position. */
module Regularity {
  import opened Itch
  import opened Orders
  import opened Records
  import opened TableModel
  import opened Feed
  import opened BookRows
  import opened Replication

  // --- conditions on the stream -----------------------------------------------------

  ghost predicate InGroup(cfg: Config, t: string, g: string) {
    t != "" && t in cfg.groups && g == cfg.groups[t] != ""
  }

  ghost predicate OneGroupMsg(cfg: Config, m: Msg) {
    Named(m) ==> InGroup(cfg, m.book, m.group)
  }

  /** One non-blank group a ticker. */
  ghost predicate OneGroup(cfg: Config) {
    forall i :: 0 <= i < |cfg.stream| && cfg.stream[i].Some? ==> OneGroupMsg(cfg, cfg.stream[i].value)
  }

  predicate LegibleMsg(m: Msg) {
    m.TradingState? ==> m.state != '?'
  }

  /** One group a ticker, and '?' never a trading state: it is the records' own
      mark for a missing instrument. */
  ghost predicate Legible(cfg: Config) {
    OneGroup(cfg) && forall i :: 0 <= i < |cfg.stream| && cfg.stream[i].Some? ==> LegibleMsg(cfg.stream[i].value)
  }

  /** No message inserts over a number that is live in another book. */
  ghost predicate Uncrossed(cfg: Config) {
    forall i :: 0 <= i < |cfg.stream| && cfg.stream[i].Some? ==>
      NoCross(Fold(cfg.stream, i).orders, cfg.stream[i].value)
  }

  /** Streams on which every row's book section is compared. */
  ghost predicate Shown(cfg: Config) {
    OneGroup(cfg) && Uncrossed(cfg) && Positive(cfg)
  }

  /** After `n` payloads the group of every traded ticker can be told, and trades
      are never forgotten by a snapshot. */
  ghost predicate TradedKnownAt(cfg: Config, n: nat)
    requires n <= |cfg.stream|
  {
    forall t :: t in Fold(cfg.stream, n).stats ==> !cfg.glimpse && Known(Fold(cfg.stream, n), t)
  }

  ghost predicate TradedKnown(cfg: Config) {
    forall n :: 0 <= n <= |cfg.stream| ==> TradedKnownAt(cfg, n)
  }

  /** A row counts trades in 32 bits. */
  ghost predicate Countable(f: Core) {
    forall t :: t in f.stats ==> f.stats[t].count < U32
  }

  ghost predicate FewTrades(cfg: Config) {
    forall n :: 0 <= n <= |cfg.stream| ==> Countable(Fold(cfg.stream, n))
  }

  /** Streams on which trade totals are compared. */
  ghost predicate Totalled(cfg: Config) {
    Legible(cfg) && TradedKnown(cfg) && FewTrades(cfg)
  }

  // --- what one group a ticker keeps -------------------------------------------------

  ghost predicate GroupedInsts(cfg: Config, c: Core) {
    forall t :: t in c.insts ==> InGroup(cfg, t, c.insts[t].group)
  }

  ghost predicate Grouped(cfg: Config, f: Core) {
    && GroupedInsts(cfg, f)
    && (forall k :: k in f.orders ==> InGroup(cfg, f.orders[k].book, f.orders[k].group))
    && (forall t :: t in f.stats ==> t != "" && 0 < f.stats[t].count)
  }

  lemma GroupedInstsStep(cfg: Config, c: Core, m: Msg)
    requires GroupedInsts(cfg, c) && OneGroupMsg(cfg, m)
    ensures GroupedInsts(cfg, Apply(c, m))
  {
  }

  lemma GroupedOrders(cfg: Config, t: Table, m: Msg)
    requires (forall k :: k in t ==> InGroup(cfg, t[k].book, t[k].group)) && OneGroupMsg(cfg, m)
    ensures forall k :: k in Step(t, m) ==> InGroup(cfg, Step(t, m)[k].book, Step(t, m)[k].group)
  {
    if m.Replace? && m.orig in t { assert InGroup(cfg, t[m.orig].book, t[m.orig].group); }
  }

  lemma GroupedStep(cfg: Config, f: Core, m: Msg)
    requires Grouped(cfg, f) && OneGroupMsg(cfg, m)
    ensures Grouped(cfg, Apply(f, m))
  {
    GroupedInstsStep(cfg, f, m);
    GroupedOrders(cfg, f.orders, m);
    ApplyMovesOrders(f, m);
    if m.Exec? && m.number in f.orders { assert InGroup(cfg, f.orders[m.number].book, f.orders[m.number].group); }
  }

  lemma {:induction false} FoldGrouped(cfg: Config, n: nat)
    requires OneGroup(cfg) && n <= |cfg.stream|
    ensures Grouped(cfg, Fold(cfg.stream, n))
  {
    if n > 0 {
      FoldGrouped(cfg, n - 1);
      if cfg.stream[n - 1].Some? { GroupedStep(cfg, Fold(cfg.stream, n - 1), cfg.stream[n - 1].value); }
    }
  }

  /** Every trading state is one a row can tell from a missing instrument. */
  ghost predicate Marked(f: Core) {
    forall t :: t in f.insts ==> f.insts[t].trading != '?'
  }

  lemma {:induction false} FoldMarked(cfg: Config, n: nat)
    requires Legible(cfg) && n <= |cfg.stream|
    ensures Marked(Fold(cfg.stream, n))
  {
    if n > 0 {
      FoldMarked(cfg, n - 1);
      if cfg.stream[n - 1].Some? { MarkedStep(Fold(cfg.stream, n - 1), cfg.stream[n - 1].value); }
    }
  }

  lemma MarkedStep(f: Core, m: Msg)
    requires Marked(f) && LegibleMsg(m)
    ensures Marked(Apply(f, m))
  {
  }

  // --- the handler's market against the uninterrupted one -----------------------------

  /** A state the records cannot carry may have been lost to the default. */
  predicate KeptState(s: char, was: char, default: char) {
    s == was || (!Stated(was) && s == default)
  }

  /** So may a reference price of 0. */
  predicate KeptPrice(p: Option<nat>, was: Option<nat>) {
    p == was || (was == Some(0) && p == None)
  }

  /** The same instrument, but for what no record can carry. */
  predicate LikeInst(i: Inst, j: Inst) {
    && i.group == j.group && i.described == j.described
    && KeptState(i.trading, j.trading, NewInst.trading) && KeptState(i.shortSell, j.shortSell, NewInst.shortSell)
    && KeptPrice(i.reference, j.reference)
  }

  /** The same instruments. */
  ghost predicate LikeInsts(c: Core, f: Core) {
    c.insts.Keys == f.insts.Keys && forall t :: t in c.insts ==> LikeInst(c.insts[t], f.insts[t])
  }

  /** What a recovery makes of an instrument: states a record cannot carry are the
      defaults, and a reference price of 0 is none. */
  function ReloadInst(i: Inst): Inst {
    Inst(i.group, i.described,
         if Stated(i.trading) then i.trading else NewInst.trading,
         if Stated(i.shortSell) then i.shortSell else NewInst.shortSell,
         if i.reference == Some(0) then None else i.reference)
  }

  /** What a recovery makes of a market: the short-sell flags are down. */
  function Reload(f: Core): Core {
    Core(f.orders, map t | t in f.insts :: ReloadInst(f.insts[t]), map t | t in f.stats :: f.stats[t].(uptick := false))
  }

  /** A message touches the instrument it names and no other. */
  lemma InstTouched(c: Core, m: Msg, t: string)
    ensures !(Named(m) && m.book == t) ==>
              (t in Apply(c, m).insts <==> t in c.insts) && (t in c.insts ==> Apply(c, m).insts[t] == c.insts[t])
  {
  }

  lemma MentionLike(c: Core, f: Core, book: string, group: string)
    requires LikeInsts(c, f)
    ensures LikeInst(InstOf(c.insts, book), InstOf(f.insts, book))
    ensures LikeInst(Mention(c.insts, book, group), Mention(f.insts, book, group))
  {
  }

  lemma InstNamed(c: Core, f: Core, m: Msg)
    requires LikeInsts(c, f) && Named(m)
    ensures m.book in Apply(c, m).insts <==> m.book in Apply(f, m).insts
    ensures m.book in Apply(c, m).insts ==> LikeInst(Apply(c, m).insts[m.book], Apply(f, m).insts[m.book])
  {
    MentionLike(c, f, m.book, m.group);
    if m.Add? && !(m.number == 0 && !m.attributed) {
      assert Apply(c, m).insts == c.insts && Apply(f, m).insts == f.insts;
    }
  }

  lemma InstsStep(c: Core, f: Core, m: Msg)
    requires LikeInsts(c, f)
    ensures LikeInsts(Apply(c, m), Apply(f, m))
  {
    if Named(m) { InstNamed(c, f, m); }
    forall t
      ensures t in Apply(c, m).insts <==> t in Apply(f, m).insts
      ensures t in Apply(c, m).insts ==> LikeInst(Apply(c, m).insts[t], Apply(f, m).insts[t])
    {
      InstTouched(c, m, t);
      InstTouched(f, m, t);
    }
  }

  lemma TotalsStep(c: Core, f: Core, m: Msg, lossy: bool)
    requires Mirrors(c.orders, f.orders, lossy) && SameTotals(c.stats, f.stats)
    ensures SameTotals(Apply(c, m).stats, Apply(f, m).stats)
  {
    if m.Exec? && m.number in f.orders { assert Carries(c.orders[m.number], f.orders[m.number], lossy); }
  }

  lemma SameTicker(c: Core, f: Core, m: Msg, lossy: bool)
    requires Mirrors(c.orders, f.orders, lossy)
    ensures TickerOf(c, m) == TickerOf(f, m)
  {
  }

  /** The group can be told in one market exactly when it can in the other. */
  lemma KnownLike(c: Core, f: Core, lossy: bool, t: string)
    requires LikeInsts(c, f) && Mirrors(c.orders, f.orders, lossy)
    ensures Known(c, t) <==> Known(f, t)
  {
    if n :| n in f.orders && f.orders[n].book == t { assert Carries(c.orders[n], f.orders[n], lossy); }
    if n :| n in c.orders && c.orders[n].book == t { assert Carries(c.orders[n], f.orders[n], lossy); }
  }

  // --- rows ------------------------------------------------------------------------

  /** A row stands for an instrument exactly when there is one, and carries its
      directory flag, states and reference price. */
  ghost predicate RowInst(static_: Static, state: State, f: Core, t: string) {
    && static_.directorySeen == Described(f, t) && (Informs(static_, state) <==> t in f.insts)
    && state.refPrice == RefPrice(InstOf(f.insts, t))
    && (t in f.insts ==>
          && KeptState(state.tradingState, f.insts[t].trading, NewInst.trading)
          && KeptState(state.shortSell, f.insts[t].shortSell, NewInst.shortSell))
  }

  ghost predicate HasKey(cfg: Config, books: map<Key, Row>, t: string) {
    t in cfg.groups && Key(t, cfg.groups[t]) in books
  }

  /** Each ticker's one row is under its group, and every live order's ticker has one. */
  ghost predicate RowsPlaced(cfg: Config, books: map<Key, Row>, f: Core) {
    && (forall k :: k in books && k.ticker != "" ==> InGroup(cfg, k.ticker, k.group))
    && (forall n :: n in f.orders ==> HasKey(cfg, books, f.orders[n].book))
  }

  /** Each row tells its instrument, and every ticker whose group can be told has
      a row. */
  ghost predicate RowsKeyed(cfg: Config, books: map<Key, Row>, f: Core) {
    && (forall k :: k in books && k.ticker != "" ==> RowInst(books[k].static_, books[k].state, f, k.ticker))
    && (forall t :: t != "" && Known(f, t) ==> HasKey(cfg, books, t))
  }

  /** Every row shows its book: the ten best levels a side, counts and totals. */
  ghost predicate RowsShow(books: map<Key, Row>, f: Core) {
    forall k :: k in books && k.ticker != "" ==> Shows(books[k].book, f.orders, k.ticker)
  }

  /** Every row holds its ticker's trade totals. */
  ghost predicate RowsTrade(books: map<Key, Row>, f: Core) {
    forall k :: k in books && k.ticker != "" ==> TradeMatches(books[k].trade, StatsOf(f, k.ticker))
  }

  /** A state section told by market `c` says of `f` what a row must. */
  lemma TellsInst(static_: Static, state: State, c: Core, f: Core, t: string)
    requires LikeInsts(c, f) && Marked(f) && static_.directorySeen == Described(c, t) && StateTells(state, c, t)
    ensures RowInst(static_, state, f, t)
  {
    if t in f.insts { assert LikeInst(c.insts[t], f.insts[t]); }
  }

  lemma TellsTrade(trade: Trade, c: Core, f: Core, t: string)
    requires SameTotals(c.stats, f.stats) && TradeMatches(trade, StatsOf(c, t))
    ensures TradeMatches(trade, StatsOf(f, t))
  {
    if t in c.stats { assert c.stats[t].(uptick := false) == f.stats[t].(uptick := false); }
  }

  lemma TellsBook(book: Section, c: Core, f: Core, lossy: bool, t: string)
    requires Mirrors(c.orders, f.orders, lossy) && Shows(book, c.orders, t)
    ensures Shows(book, f.orders, t)
  {
    MirrorsSame(c.orders, f.orders, lossy, t);
    ShowsSame(book, c.orders, f.orders, t);
  }

  // --- one live update ----------------------------------------------------------------

  /** The record of a message goes out under its ticker's group. */
  lemma UpdateGroup(cfg: Config, c: Core, f: Core, m: Msg, lossy: bool)
    requires Mirrors(c.orders, f.orders, lossy) && OneGroupMsg(cfg, m) && Grouped(cfg, f) && TickerOf(c, m) != ""
    ensures InGroup(cfg, TickerOf(c, m), FillGroup(Apply(c, m), TickerOf(c, m), MsgGroup(c, m)))
  {
    var k := if m.Replace? then m.orig else if m.Exec? || m.Delete? then m.number else 0;
    if !m.Add? && k in f.orders {
      assert InGroup(cfg, f.orders[k].book, f.orders[k].group);
      assert Carries(c.orders[k], f.orders[k], lossy);
    }
  }

  /** A message leaves other tickers' instruments, orders and totals alone. */
  lemma OtherTicker(f: Core, m: Msg, t: string)
    requires t != TickerOf(f, m)
    ensures t in Apply(f, m).insts <==> t in f.insts
    ensures t in f.insts ==> Apply(f, m).insts[t] == f.insts[t]
    ensures StatsOf(Apply(f, m), t) == StatsOf(f, t)
  {
  }

  lemma OtherKnown(f: Core, m: Msg, t: string)
    requires t != TickerOf(f, m) && Known(Apply(f, m), t)
    ensures Known(f, t)
  {
    OtherTicker(f, m, t);
    ApplyMovesOrders(f, m);
    var f' := Apply(f, m);
    if !(t in f'.insts && f'.insts[t].group != "") {
      var n :| n in f'.orders && f'.orders[n].book == t;
      assert n in f.orders && f.orders[n].book == t;
    }
  }

  lemma OtherOrder(f: Core, m: Msg, n: nat)
    requires n in Apply(f, m).orders && Apply(f, m).orders[n].book != TickerOf(f, m)
    ensures n in f.orders && f.orders[n].book == Apply(f, m).orders[n].book
  {
    ApplyMovesOrders(f, m);
  }

  lemma PlacedUpdate(cfg: Config, books: map<Key, Row>, f: Core, m: Msg, u: Update, row: Row)
    requires RowsPlaced(cfg, books, f) && u.ticker == TickerOf(f, m)
    requires u.ticker != "" ==> InGroup(cfg, u.ticker, u.group)
    requires forall n :: n in Apply(f, m).orders ==> Apply(f, m).orders[n].book != ""
    ensures RowsPlaced(cfg, books[Key(u.ticker, u.group) := row], Apply(f, m))
  {
    var books' := books[Key(u.ticker, u.group) := row];
    forall n | n in Apply(f, m).orders
      ensures HasKey(cfg, books', Apply(f, m).orders[n].book)
    {
      if Apply(f, m).orders[n].book != u.ticker {
        OtherOrder(f, m, n);
        assert HasKey(cfg, books, f.orders[n].book);
      }
    }
  }

  lemma KeyedUpdate(cfg: Config, books: map<Key, Row>, f: Core, m: Msg, u: Update, row: Row)
    requires RowsPlaced(cfg, books, f) && RowsKeyed(cfg, books, f) && u.ticker == TickerOf(f, m)
    requires u.ticker != "" ==>
               InGroup(cfg, u.ticker, u.group) && RowInst(row.static_, row.state, Apply(f, m), u.ticker)
    ensures RowsKeyed(cfg, books[Key(u.ticker, u.group) := row], Apply(f, m))
  {
    var books' := books[Key(u.ticker, u.group) := row];
    forall k | k in books' && k.ticker != ""
      ensures RowInst(books'[k].static_, books'[k].state, Apply(f, m), k.ticker)
    {
      if k.ticker != u.ticker {
        OtherTicker(f, m, k.ticker);
        assert RowInst(books[k].static_, books[k].state, f, k.ticker);
      }
    }
    forall t | t != "" && Known(Apply(f, m), t)
      ensures HasKey(cfg, books', t)
    {
      if t != u.ticker {
        OtherKnown(f, m, t);
        assert HasKey(cfg, books, t);
      }
    }
  }

  /** The book section of every row, after a delivered update. */
  lemma ShowUpdate(cfg: Config, books: map<Key, Row>, f: Core, m: Msg, u: Update, row: Row)
    requires RowsPlaced(cfg, books, f) && RowsShow(books, f) && NoCross(f.orders, m)
    requires u.ticker == TickerOf(f, m)
    requires u.ticker != "" ==> InGroup(cfg, u.ticker, u.group) && Shows(row.book, Apply(f, m).orders, u.ticker)
    ensures RowsShow(books[Key(u.ticker, u.group) := row], Apply(f, m))
  {
    var books' := books[Key(u.ticker, u.group) := row];
    ApplyMovesOrders(f, m);
    forall k | k in books' && k.ticker != ""
      ensures Shows(books'[k].book, Apply(f, m).orders, k.ticker)
    {
      if k.ticker != u.ticker {
        StepSameBook(f, m, k.ticker);
        ShowsSame(books[k].book, f.orders, Apply(f, m).orders, k.ticker);
      }
    }
  }

  /** The trade totals of every row, after a delivered update. */
  lemma TradeUpdate(cfg: Config, books: map<Key, Row>, f: Core, m: Msg, u: Update, row: Row)
    requires RowsPlaced(cfg, books, f) && RowsTrade(books, f) && u.ticker == TickerOf(f, m)
    requires u.ticker != "" ==>
               InGroup(cfg, u.ticker, u.group) && TradeMatches(row.trade, StatsOf(Apply(f, m), u.ticker))
    ensures RowsTrade(books[Key(u.ticker, u.group) := row], Apply(f, m))
  {
    var books' := books[Key(u.ticker, u.group) := row];
    forall k | k in books' && k.ticker != ""
      ensures TradeMatches(books'[k].trade, StatsOf(Apply(f, m), k.ticker))
    {
      if k.ticker != u.ticker { OtherTicker(f, m, k.ticker); }
    }
  }

  // --- a full dump ----------------------------------------------------------------------

  /** Row `r` is the one update `u` installed. */
  predicate RowOf(r: Row, u: Update) {
    r.static_ == u.static_ && r.state == u.state && r.trade == u.trade && r.book == u.book
  }

  ghost predicate Installed(books: map<Key, Row>, rows: seq<Update>, k: Key)
    requires k in books
  {
    exists u :: u in rows && Key(u.ticker, u.group) == k && RowOf(books[k], u)
  }

  /** `books` holds the given rows and nothing else. */
  ghost predicate RowsFrom(books: map<Key, Row>, rows: seq<Update>) {
    && (forall k :: k in books ==> Installed(books, rows, k))
    && (forall u :: u in rows ==> Key(u.ticker, u.group) in books)
  }

  lemma DumpedGroup(cfg: Config, u: Update, c: Core, f: Core, lossy: bool)
    requires GroupedInsts(cfg, c) && Mirrors(c.orders, f.orders, lossy) && Grouped(cfg, f)
    requires DumpRow(cfg, u, c) && u.ticker != ""
    ensures InGroup(cfg, u.ticker, u.group)
  {
    if !(u.ticker in c.insts && c.insts[u.ticker].group != "") {
      var k :| k in c.orders && c.orders[k].book == u.ticker && c.orders[k].group == u.group;
      assert Carries(c.orders[k], f.orders[k], lossy);
      assert InGroup(cfg, f.orders[k].book, f.orders[k].group);
    }
  }

  /** Where the group can be told there is a row, under it. */
  lemma DumpedKey(cfg: Config, books: map<Key, Row>, d: Dump, c: Core, f: Core, lossy: bool, t: string)
    requires GroupedInsts(cfg, c) && Mirrors(c.orders, f.orders, lossy) && Grouped(cfg, f)
    requires DumpOf(cfg, d, c) && RowsFrom(books, d.rows) && t != "" && Known(c, t)
    ensures HasKey(cfg, books, t)
  {
    assert HasRow(d.rows, t);
    var u :| u in d.rows && u.ticker == t;
    DumpedGroup(cfg, u, c, f, lossy);
  }

  lemma PlacedDump(cfg: Config, books: map<Key, Row>, d: Dump, c: Core, f: Core, lossy: bool)
    requires GroupedInsts(cfg, c) && Mirrors(c.orders, f.orders, lossy) && Grouped(cfg, f)
    requires DumpOf(cfg, d, c) && RowsFrom(books, d.rows)
    ensures RowsPlaced(cfg, books, f)
  {
    forall k | k in books && k.ticker != ""
      ensures InGroup(cfg, k.ticker, k.group)
    {
      assert Installed(books, d.rows, k);
      var u :| u in d.rows && Key(u.ticker, u.group) == k && RowOf(books[k], u);
      DumpedGroup(cfg, u, c, f, lossy);
    }
    forall n | n in f.orders
      ensures HasKey(cfg, books, f.orders[n].book)
    {
      assert Carries(c.orders[n], f.orders[n], lossy) && InGroup(cfg, f.orders[n].book, f.orders[n].group);
      DumpedKey(cfg, books, d, c, f, lossy, f.orders[n].book);
    }
  }

  lemma KeyedDump(cfg: Config, books: map<Key, Row>, d: Dump, c: Core, f: Core, lossy: bool)
    requires LikeInsts(c, f) && Mirrors(c.orders, f.orders, lossy) && Grouped(cfg, f) && Marked(f)
    requires DumpOf(cfg, d, c) && RowsFrom(books, d.rows)
    ensures RowsKeyed(cfg, books, f)
  {
    forall k | k in books && k.ticker != ""
      ensures RowInst(books[k].static_, books[k].state, f, k.ticker)
    {
      assert Installed(books, d.rows, k);
      var u :| u in d.rows && Key(u.ticker, u.group) == k && RowOf(books[k], u);
      assert DumpRow(cfg, u, c);
      TellsInst(u.static_, u.state, c, f, u.ticker);
    }
    assert GroupedInsts(cfg, c);
    forall t | t != "" && Known(f, t)
      ensures HasKey(cfg, books, t)
    {
      KnownLike(c, f, lossy, t);
      DumpedKey(cfg, books, d, c, f, lossy, t);
    }
  }

  /** The book section of every row, after a full dump. */
  lemma ShowDump(cfg: Config, books: map<Key, Row>, d: Dump, c: Core, f: Core, lossy: bool)
    requires Positive(cfg) && Mirrors(c.orders, f.orders, lossy) && DumpOf(cfg, d, c) && RowsFrom(books, d.rows)
    ensures RowsShow(books, f)
  {
    forall k | k in books && k.ticker != ""
      ensures Shows(books[k].book, f.orders, k.ticker)
    {
      assert Installed(books, d.rows, k);
      var u :| u in d.rows && Key(u.ticker, u.group) == k && RowOf(books[k], u);
      assert DumpRow(cfg, u, c);
      TellsBook(u.book, c, f, lossy, u.ticker);
    }
  }

  /** The trade totals of every row, after a full dump. */
  lemma TradeDump(cfg: Config, books: map<Key, Row>, d: Dump, c: Core, f: Core)
    requires SameTotals(c.stats, f.stats) && DumpOf(cfg, d, c) && RowsFrom(books, d.rows)
    ensures RowsTrade(books, f)
  {
    forall k | k in books && k.ticker != ""
      ensures TradeMatches(books[k].trade, StatsOf(f, k.ticker))
    {
      assert Installed(books, d.rows, k);
      var u :| u in d.rows && Key(u.ticker, u.group) == k && RowOf(books[k], u);
      assert DumpRow(cfg, u, c);
      TellsTrade(u.trade, c, f, u.ticker);
    }
  }

  // --- recovery ---------------------------------------------------------------------------

  /** A handler rebuilt from the rows keeps one group a ticker. */
  lemma RecoveredGroups(cfg: Config, t: Tables, c: Core, f: Core)
    requires RowsPlaced(cfg, t.books, f) && Recovers(c, t)
    ensures GroupedInsts(cfg, c)
  {
    forall x | x in c.insts
      ensures InGroup(cfg, x, c.insts[x].group)
    {
      var k :| k in t.books && k.ticker == x && c.insts[x].group == k.group;
      assert InGroup(cfg, k.ticker, k.group);
    }
  }

  /** The only row of a ticker decides its states. */
  lemma OnlyRow(i: Inst, state: State, told: set<State>)
    requires Restores(i, told) && state in told && forall s :: s in told ==> s == state
    ensures i.trading == if Stated(state.tradingState) then state.tradingState else NewInst.trading
    ensures i.shortSell == if Stated(state.shortSell) then state.shortSell else NewInst.shortSell
    ensures i.reference == if state.refPrice != 0 then Some(state.refPrice) else None
  {
  }

  lemma KeysBack(cfg: Config, t: Tables, c: Core, f: Core, x: string)
    requires RowsKeyed(cfg, t.books, f) && Grouped(cfg, f) && Recovers(c, t) && x in f.insts
    ensures x in c.insts && HasKey(cfg, t.books, x) && (Described(f, x) ==> Described(c, x))
  {
    assert InGroup(cfg, x, f.insts[x].group);
    assert Known(f, x) && HasKey(cfg, t.books, x);
    var k := Key(x, cfg.groups[x]);
    assert RowInst(t.books[k].static_, t.books[k].state, f, x) && RowInforms(t.books[k]);
  }

  lemma KeysFrom(cfg: Config, t: Tables, c: Core, f: Core, x: string)
    requires RowsKeyed(cfg, t.books, f) && Recovers(c, t) && x in c.insts
    ensures x in f.insts && (Described(c, x) ==> Described(f, x))
  {
    var k :| k in t.books && k.ticker == x && RowInforms(t.books[k]);
    assert RowInst(t.books[k].static_, t.books[k].state, f, x);
    if Described(c, x) {
      var j :| j in t.books && j.ticker == x && t.books[j].static_.directorySeen;
      assert RowInst(t.books[j].static_, t.books[j].state, f, x);
    }
  }

  lemma RecoveredInst(cfg: Config, t: Tables, c: Core, f: Core, x: string)
    requires RowsPlaced(cfg, t.books, f) && RowsKeyed(cfg, t.books, f) && Grouped(cfg, f) && Recovers(c, t)
    requires x in f.insts
    ensures x in c.insts && c.insts[x] == ReloadInst(f.insts[x])
  {
    KeysBack(cfg, t, c, f, x);
    KeysFrom(cfg, t, c, f, x);
    RecoveredGroups(cfg, t, c, f);
    assert InGroup(cfg, x, f.insts[x].group) && InGroup(cfg, x, c.insts[x].group);
    var k := Key(x, cfg.groups[x]);
    var told := RowStates(t.books, x);
    assert RowInst(t.books[k].static_, t.books[k].state, f, x);
    assert t.books[k].state in told;
    forall s | s in told
      ensures s == t.books[k].state
    {
      var j :| j in t.books && j.ticker == x && t.books[j].state == s;
      assert InGroup(cfg, j.ticker, j.group);
    }
    OnlyRow(InstOf(c.insts, x), t.books[k].state, told);
  }

  /** A handler rebuilt from the rows has the uninterrupted market's instruments, less
      what no record can carry. */
  lemma RecoveredInsts(cfg: Config, t: Tables, c: Core, f: Core)
    requires RowsPlaced(cfg, t.books, f) && RowsKeyed(cfg, t.books, f) && Grouped(cfg, f) && Recovers(c, t)
    ensures c.insts == Reload(f).insts
    ensures LikeInsts(c, f)
  {
    forall x
      ensures x in c.insts <==> x in f.insts
      ensures x in f.insts ==> x in c.insts && c.insts[x] == ReloadInst(f.insts[x])
    {
      if x in c.insts { KeysFrom(cfg, t, c, f, x); }
      if x in f.insts { RecoveredInst(cfg, t, c, f, x); }
    }
  }

  /** The row of a traded ticker restores its totals. */
  lemma RowRestores(trade: Trade, f: Core, x: string)
    requires TradeMatches(trade, StatsOf(f, x)) && Countable(f) && (x in f.stats ==> f.stats[x].count > 0)
    ensures trade.count > 0 <==> x in f.stats
    ensures x in f.stats ==> Restored(trade) == f.stats[x].(uptick := false)
  {
  }

  lemma RecoveredStat(cfg: Config, t: Tables, c: Core, f: Core, x: string)
    requires RowsKeyed(cfg, t.books, f) && RowsTrade(t.books, f) && Grouped(cfg, f) && Countable(f) && Recovers(c, t)
    requires forall y :: y in f.stats ==> Known(f, y)
    ensures x in c.stats <==> x in f.stats
    ensures x in c.stats ==> c.stats[x] == f.stats[x].(uptick := false)
  {
    if x in f.stats {
      assert Known(f, x) && HasKey(cfg, t.books, x);
      var k := Key(x, cfg.groups[x]);
      RowRestores(t.books[k].trade, f, x);
    }
    if x in c.stats {
      var k :| k in t.books && k.ticker == x && t.books[k].trade.count > 0 && c.stats[x] == Restored(t.books[k].trade);
      RowRestores(t.books[k].trade, f, x);
    }
  }

  /** ... and, where the group of every traded ticker can be told, its totals. */
  lemma RecoveredTotals(cfg: Config, t: Tables, c: Core, f: Core)
    requires RowsKeyed(cfg, t.books, f) && RowsTrade(t.books, f) && Grouped(cfg, f) && Countable(f) && Recovers(c, t)
    requires forall y :: y in f.stats ==> Known(f, y)
    ensures c.stats == Reload(f).stats
    ensures SameTotals(c.stats, f.stats)
  {
    forall x
      ensures x in c.stats <==> x in f.stats
      ensures x in c.stats ==> c.stats[x] == f.stats[x].(uptick := false)
    {
      RecoveredStat(cfg, t, c, f, x);
    }
  }

  /** A snapshot keeps one group a ticker. */
  lemma SnapshotGroups(cfg: Config, c: Core, cut: nat)
    requires OneGroup(cfg) && cut <= |cfg.stream| && SnapshotOf(cfg, c, cut)
    ensures GroupedInsts(cfg, c)
  {
    forall t | t in c.insts
      ensures InGroup(cfg, t, c.insts[t].group)
    {
      assert GroupSeen(cfg, cut, t, c.insts[t].group);
      var i :| 0 <= i < cut && Names(cfg.stream[i], t, c.insts[t].group);
      assert OneGroupMsg(cfg, cfg.stream[i].value);
    }
  }

  /** It fills the uninterrupted market's instruments, once no order has number 0. */
  lemma SnapshotInsts(cfg: Config, c: Core, cut: nat)
    requires OneGroup(cfg) && cut <= |cfg.stream| && SnapshotOf(cfg, c, cut) && 0 !in Fold(cfg.stream, cut).orders
    ensures c.insts == Fold(cfg.stream, cut).insts
  {
    var f := Fold(cfg.stream, cut);
    FoldGrouped(cfg, cut);
    SnapshotGroups(cfg, c, cut);
    forall t | t in c.insts
      ensures t in f.insts && c.insts[t] == f.insts[t]
    {
      assert InGroup(cfg, t, c.insts[t].group) && InGroup(cfg, t, f.insts[t].group);
      assert SnapshotInst(c.insts[t], InstOf(f.insts, t), t, f.orders);
      assert Described(c, t) <==> Described(f, t);
    }
    assert c.insts.Keys == f.insts.Keys;
  }
}
