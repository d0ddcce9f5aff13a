/** What a database row says about a ticker, stated against the market: its trade
    totals, and the best ten levels of each side with the totals of the whole side. */
module BookRows {
  import opened Itch
  import opened Orders
  import opened Records
  import opened TableModel
  import opened Feed
  import opened Totals

  const DEPTH: nat := 10
  const U32: nat := 0x1_0000_0000

  function SideQty(book: string, bid: bool): Order -> nat {
    (o: Order) => if o.book == book && (o.side == 'B') == bid then o.qty else 0
  }

  function SideCount(book: string, bid: bool): Order -> nat {
    (o: Order) => if o.book == book && (o.side == 'B') == bid then 1 else 0
  }

  predicate Better(bid: bool, p: nat, q: nat) {
    if bid then p > q else p < q
  }

  /** `l` is the level at its price: quantity (as a 32-bit field) and order count. */
  ghost predicate ShowsLevel(l: BookLevel, orders: Table, book: string, bid: bool) {
    var k := LevelKey(book, bid, l.price);
    Resting(orders, k) > 0 && l.qty == Resting(orders, k) % U32 && l.orders == Total(orders, CountAt(k))
  }

  /** Best first, at most ten, and no level left out unless ten better ones are shown. */
  ghost predicate ShowsSide(ls: seq<BookLevel>, orders: Table, book: string, bid: bool) {
    && |ls| <= 10
    && (forall i, j :: 0 <= i < j < |ls| ==> Better(bid, ls[i].price, ls[j].price))
    && (forall i :: 0 <= i < |ls| ==> ShowsLevel(ls[i], orders, book, bid))
    && (forall p :: Resting(orders, LevelKey(book, bid, p)) > 0 ==>
          (exists i :: 0 <= i < |ls| && ls[i].price == p) || (|ls| == 10 && Better(bid, ls[9].price, p)))
  }

  ghost predicate Shows(s: Section, orders: Table, book: string) {
    && ShowsSide(s.bids, orders, book, true) && ShowsSide(s.asks, orders, book, false)
    && s.bidQty == Total(orders, SideQty(book, true)) && s.askQty == Total(orders, SideQty(book, false))
    && s.bidOrders == Total(orders, SideCount(book, true)) && s.askOrders == Total(orders, SideCount(book, false))
  }

  /** The four weights a section depends on agree on one side of one book. */
  ghost predicate SameSide(t: Table, orders: Table, book: string, bid: bool) {
    && (forall p :: Resting(t, LevelKey(book, bid, p)) == Resting(orders, LevelKey(book, bid, p)))
    && (forall p :: Total(t, CountAt(LevelKey(book, bid, p))) == Total(orders, CountAt(LevelKey(book, bid, p))))
    && Total(t, SideQty(book, bid)) == Total(orders, SideQty(book, bid))
    && Total(t, SideCount(book, bid)) == Total(orders, SideCount(book, bid))
  }

  ghost predicate SameBook(t: Table, orders: Table, book: string) {
    SameSide(t, orders, book, true) && SameSide(t, orders, book, false)
  }

  lemma ShowsSideSame(ls: seq<BookLevel>, t: Table, orders: Table, book: string, bid: bool)
    requires SameSide(t, orders, book, bid) && ShowsSide(ls, t, book, bid)
    ensures ShowsSide(ls, orders, book, bid)
  {
    forall i | 0 <= i < |ls|
      ensures ShowsLevel(ls[i], orders, book, bid)
    {
      assert ShowsLevel(ls[i], t, book, bid);
    }
    forall p | Resting(orders, LevelKey(book, bid, p)) > 0
      ensures (exists i :: 0 <= i < |ls| && ls[i].price == p) || (|ls| == 10 && Better(bid, ls[9].price, p))
    {
      assert Resting(t, LevelKey(book, bid, p)) > 0;
    }
  }

  lemma ShowsSame(s: Section, t: Table, orders: Table, book: string)
    requires SameBook(t, orders, book) && Shows(s, t, book)
    ensures Shows(s, orders, book)
  {
    ShowsSideSame(s.bids, t, orders, book, true);
    ShowsSideSame(s.asks, t, orders, book, false);
  }

  /** Where two tables mirror each other, their books show the same. */
  lemma MirrorsSame(t: Table, orders: Table, lossy: bool, book: string)
    requires Mirrors(t, orders, lossy)
    ensures SameBook(t, orders, book)
  {
    forall bid: bool
      ensures SameSide(t, orders, book, bid)
    {
      forall p: nat
        ensures Resting(t, LevelKey(book, bid, p)) == Resting(orders, LevelKey(book, bid, p))
        ensures Total(t, CountAt(LevelKey(book, bid, p))) == Total(orders, CountAt(LevelKey(book, bid, p)))
      {
        MirrorsLevels(t, orders, lossy, LevelKey(book, bid, p));
      }
      Same(t, orders, SideQty(book, bid), SideQty(book, bid));
      Same(t, orders, SideCount(book, bid), SideCount(book, bid));
    }
  }

  lemma PutTotal(t: Table, n: nat, o: Order, w: Order -> nat)
    requires w(o) == 0 && (n in t ==> w(t[n]) == 0)
    ensures Total(t[n := o], w) == Total(t, w)
  {
    Put(t, n, o, w);
    Drop(t, n, w);
  }

  lemma ExecTotal(t: Table, m: Msg, w: Order -> nat)
    requires m.Exec? && (m.number in t ==> forall q: nat :: w(t[m.number].(qty := q)) == 0)
    ensures Total(Step(t, m), w) == Total(t, w)
  {
    var n := m.number;
    if n in t {
      assert w(t[n].(qty := t[n].qty)) == 0;
      if m.executed >= t[n].qty { Drop(t, n, w); } else { PutTotal(t, n, t[n].(qty := t[n].qty - m.executed), w); }
    }
  }

  lemma ReplaceTotal(t: Table, m: Msg, w: Order -> nat)
    requires m.Replace? && m.orig in t
    requires w(t[m.orig]) == 0 && w(Replaced(m, t[m.orig])) == 0 && (m.number in t ==> w(t[m.number]) == 0)
    ensures Total(Step(t, m), w) == Total(t, w)
  {
    var o: nat, n: nat := m.orig, m.number;
    Drop(t, o, w);
    PutTotal(t - {o}, n, Replaced(m, t[o]), w);
  }

  /** A weight that ignores the orders a message takes away and puts in is not
      moved by it. */
  lemma StepTotal(t: Table, m: Msg, w: Order -> nat)
    requires m.Add? && m.number != 0 ==> w(Added(m)) == 0 && (m.number in t ==> w(t[m.number]) == 0)
    requires m.Exec? && m.number in t ==> forall q: nat :: w(t[m.number].(qty := q)) == 0
    requires m.Delete? && m.number in t ==> w(t[m.number]) == 0
    requires m.Replace? && m.orig in t ==>
               w(t[m.orig]) == 0 && w(Replaced(m, t[m.orig])) == 0 && (m.number in t ==> w(t[m.number]) == 0)
    ensures Total(Step(t, m), w) == Total(t, w)
  {
    match m
    case Add(n, _, _, _, _, _, _, _) =>
      if n != 0 { PutTotal(t, n, Added(m), w); }
    case Exec(_, _, _, _) => ExecTotal(t, m, w);
    case Delete(n) => Drop(t, n, w);
    case Replace(o, _, _, _) =>
      if o in t { ReplaceTotal(t, m, w); }
    case _ =>
  }

  /** The order numbers a message inserts over stay within one book. */
  predicate NoCross(t: Table, m: Msg) {
    && (m.Add? && m.number != 0 && m.number in t ==> t[m.number].book == m.book)
    && (m.Replace? && m.orig in t && m.number in t ==> t[m.number].book == t[m.orig].book)
  }

  /** A message changes the levels and totals of the book it names, and of no other. */
  lemma StepSameBook(c: Core, m: Msg, book: string)
    requires NoCross(c.orders, m) && (TickerOf(c, m) != book || (m.Add? && m.number == 0))
    ensures SameBook(Step(c.orders, m), c.orders, book)
  {
    forall bid: bool
      ensures SameSide(Step(c.orders, m), c.orders, book, bid)
    {
      forall p: nat
        ensures Resting(Step(c.orders, m), LevelKey(book, bid, p)) == Resting(c.orders, LevelKey(book, bid, p))
        ensures Total(Step(c.orders, m), CountAt(LevelKey(book, bid, p)))
                  == Total(c.orders, CountAt(LevelKey(book, bid, p)))
      {
        StepTotal(c.orders, m, QtyAt(LevelKey(book, bid, p)));
        StepTotal(c.orders, m, CountAt(LevelKey(book, bid, p)));
      }
      StepTotal(c.orders, m, SideQty(book, bid));
      StepTotal(c.orders, m, SideCount(book, bid));
    }
  }

  /** A message that inserts over another book's order takes it out of that book. */
  lemma CrossMoves(c: Core, m: Msg)
    requires !NoCross(c.orders, m)
    ensures m.number in c.orders && c.orders[m.number].book != TickerOf(c, m)
    ensures var o := c.orders[m.number];
            Total(Step(c.orders, m), SideCount(o.book, o.side == 'B')) <
            Total(c.orders, SideCount(o.book, o.side == 'B'))
  {
    var t: Table, o := c.orders, c.orders[m.number];
    var w := SideCount(o.book, o.side == 'B');
    match m
    case Add(n, _, _, _, _, _, _, _) =>
      Put(t, n, Added(m), w);
      Drop(t, n, w);
    case Replace(k, n, _, _) =>
      Drop(t, k, w);
      Put(t - {k}, n, Replaced(m, t[k]), w);
      Drop(t - {k}, n, w);
    case _ =>
  }

  // --- trade totals and rows ------------------------------------------------------

  /** The trade summary of a record, against the tape's statistics. */
  predicate TradeMatches(t: Trade, s: Option<Stats>) {
    match s
    case None => t.cumQty == t.cumTurnover == t.count == t.lastPrice == t.lastQty == t.lastMatch == 0
    case Some(z) =>
      && t.cumQty == z.volume && t.cumTurnover == z.notional && t.count == z.count % U32
      && t.lastPrice == z.lastPrice && t.lastQty == z.lastQty && t.lastMatch == z.lastMatch
  }

  /** The statistics a recovery installs from a trade summary. */
  function Restored(t: Trade): Stats {
    Stats(t.count, t.cumQty, t.cumTurnover, t.lastPrice, t.lastQty, t.lastMatch, false)
  }

  /** The same trade totals, ticker by ticker; the short-sell flag is not one. */
  ghost predicate SameTotals(a: map<string, Stats>, b: map<string, Stats>) {
    a.Keys == b.Keys && forall t :: t in a ==> a[t].(uptick := false) == b[t].(uptick := false)
  }

  predicate Described(c: Core, ticker: string) {
    ticker in c.insts && c.insts[ticker].described
  }

  /** The group of a ticker can be told: from its instrument, or from a live order. */
  ghost predicate Known(c: Core, ticker: string) {
    || (ticker in c.insts && c.insts[ticker].group != "")
    || exists n :: n in c.orders && c.orders[n].book == ticker
  }

  function RefPrice(i: Inst): nat {
    if i.reference.Some? then i.reference.value else 0
  }

  /** States and reference price, with '?' where there is no instrument. */
  predicate StateTells(s: State, c: Core, ticker: string) {
    if ticker in c.insts then
      var i := c.insts[ticker];
      s.tradingState == i.trading && s.shortSell == i.shortSell && s.refPrice == RefPrice(i)
    else s.tradingState == '?' && s.shortSell == '?' && s.refPrice == 0
  }

  /** A state a row carries; two marks stand for none. */
  predicate Stated(s: char) {
    s != '?' && s != '\0'
  }

  /** Whether a row says anything about an instrument. */
  predicate Informs(static_: Static, s: State) {
    static_.directorySeen || s.tradingState != '?' || s.shortSell != '?' || s.refPrice != 0
  }

  /** The sections tell the state of `ticker` in market `c`; the book section is
      held to it only where the levels are known to agree with the orders. */
  ghost predicate Tells(static_: Static, state: State, trade: Trade, book: Section, c: Core, ticker: string,
    positive: bool) {
    && static_.directorySeen == Described(c, ticker)
    && StateTells(state, c, ticker)
    && TradeMatches(trade, StatsOf(c, ticker))
    && (positive ==> Shows(book, c.orders, ticker))
  }
}
