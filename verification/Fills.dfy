/** What the C++ trade statistics mean: sums over a ticker's fills, read off the
    stream and the order table alone. */
module Fills {
  import opened Itch
  import opened Orders
  import opened Records
  import opened TableModel
  import opened Feed
  import opened BookRows
  import opened Replication
  import opened Regularity
  import opened ReplicationProof

  /** The live orders after `n` payloads. */
  function OrdersAt(stream: seq<Option<Msg>>, n: nat): Table
    requires n <= |stream|
  {
    if n == 0 then map[]
    else if stream[n - 1].None? then OrdersAt(stream, n - 1)
    else Step(OrdersAt(stream, n - 1), stream[n - 1].value)
  }

  lemma {:induction false} FoldOrders(stream: seq<Option<Msg>>, n: nat)
    requires n <= |stream|
    ensures Fold(stream, n).orders == OrdersAt(stream, n)
  {
    if n > 0 {
      FoldOrders(stream, n - 1);
      if stream[n - 1].Some? { ApplyMovesOrders(Fold(stream, n - 1), stream[n - 1].value); }
    }
  }

  /** An execution of a resting order, for no more than it had left. */
  datatype Fill = Fill(price: nat, qty: nat, matchNumber: nat)

  /** Payload `i` executes a live order of ticker `t`. */
  predicate Meets(stream: seq<Option<Msg>>, i: nat, t: string)
    requires i < |stream|
  {
    && stream[i].Some? && stream[i].value.Exec?
    && stream[i].value.number in OrdersAt(stream, i)
    && OrdersAt(stream, i)[stream[i].value.number].book == t
  }

  function Min(a: nat, b: nat): nat {
    if a <= b then a else b
  }

  function FillAt(stream: seq<Option<Msg>>, i: nat, t: string): Fill
    requires i < |stream| && Meets(stream, i, t)
  {
    var m := stream[i].value;
    var o := OrdersAt(stream, i)[m.number];
    Fill(o.price, Min(m.executed, o.qty), m.matchNumber)
  }

  /** The fills of ticker `t` among the first `n` payloads. */
  function FillsOf(stream: seq<Option<Msg>>, n: nat, t: string): seq<Fill>
    requires n <= |stream|
  {
    if n == 0 then []
    else if Meets(stream, n - 1, t) then FillsOf(stream, n - 1, t) + [FillAt(stream, n - 1, t)]
    else FillsOf(stream, n - 1, t)
  }

  function Quantity(fs: seq<Fill>): nat {
    if fs == [] then 0 else Quantity(fs[..|fs| - 1]) + fs[|fs| - 1].qty
  }

  function Turnover(fs: seq<Fill>): nat {
    if fs == [] then 0 else Turnover(fs[..|fs| - 1]) + fs[|fs| - 1].price * fs[|fs| - 1].qty
  }

  /** The statistics of a ticker's fills. */
  predicate Sums(s: Stats, fs: seq<Fill>) {
    && fs != []
    && s.count == |fs| && s.volume == Quantity(fs) && s.notional == Turnover(fs)
    && s.lastPrice == fs[|fs| - 1].price && s.lastQty == fs[|fs| - 1].qty
    && s.lastMatch == fs[|fs| - 1].matchNumber
  }

  lemma SumsNext(s: Option<Stats>, fs: seq<Fill>, f: Fill, base: Option<nat>)
    requires if fs == [] then s.None? else s.Some? && Sums(s.value, fs)
    ensures Sums(Record(s, base, f.price, f.qty, f.matchNumber), fs + [f])
  {
    assert (fs + [f])[..|fs|] == fs;
  }

  /** A message moves the statistics of the ticker it fills, and of no other. */
  lemma FillStep(c: Core, m: Msg, t: string)
    ensures m.Exec? && m.number in c.orders && c.orders[m.number].book == t ==>
              var o := c.orders[m.number];
              StatsOf(Apply(c, m), t)
              == Some(Record(StatsOf(c, t), BaseOf(c, t), o.price, Min(m.executed, o.qty), m.matchNumber))
    ensures !(m.Exec? && m.number in c.orders && c.orders[m.number].book == t) ==>
              StatsOf(Apply(c, m), t) == StatsOf(c, t)
  {
  }

  /** For every stream, position and ticker: statistics exist exactly where there was
      a fill, and they are the number of fills, the sums of their quantities and of
      price times quantity, and the last fill's price, quantity and match number. */
  lemma {:induction false} StatsClosed(stream: seq<Option<Msg>>, n: nat, t: string)
    requires n <= |stream|
    ensures var s, fs := Fold(stream, n).stats, FillsOf(stream, n, t);
            && (t in s <==> fs != [])
            && (t in s ==>
                  && s[t].count == |fs| && s[t].volume == Quantity(fs) && s[t].notional == Turnover(fs)
                  && s[t].lastPrice == fs[|fs| - 1].price && s[t].lastQty == fs[|fs| - 1].qty
                  && s[t].lastMatch == fs[|fs| - 1].matchNumber)
  {
    if n > 0 {
      StatsClosed(stream, n - 1, t);
      FoldOrders(stream, n - 1);
      if stream[n - 1].Some? {
        var c, m, fs := Fold(stream, n - 1), stream[n - 1].value, FillsOf(stream, n - 1, t);
        FillStep(c, m, t);
        if Meets(stream, n - 1, t) { SumsNext(StatsOf(c, t), fs, FillAt(stream, n - 1, t), BaseOf(c, t)); }
      }
    }
  }

  /** A row's trade section, against the fills themselves. */
  predicate RowTotals(trade: Trade, fs: seq<Fill>) {
    && trade.cumQty == Quantity(fs) && trade.cumTurnover == Turnover(fs) && trade.count == |fs| % 0x1_0000_0000
    && (if fs == [] then trade.lastPrice == trade.lastQty == trade.lastMatch == 0
        else
          && trade.lastPrice == fs[|fs| - 1].price && trade.lastQty == fs[|fs| - 1].qty
          && trade.lastMatch == fs[|fs| - 1].matchNumber)
  }

  /** In every run, on the streams whose totals survive, each row outside a bracket
      carries the totals of its ticker's fills up to the database's position. */
  lemma RowsTotal(cfg: Config, run: seq<System>, i: nat, k: Key)
    requires Sound(cfg) && Totalled(cfg) && IsRun(cfg, run) && i < |run| && !run[i].db.inSync
    requires k in run[i].db.tables.books && k.ticker != ""
    ensures run[i].db.tables.meta.seq_ <= |cfg.stream|
    ensures RowTotals(run[i].db.tables.books[k].trade, FillsOf(cfg.stream, run[i].db.tables.meta.seq_, k.ticker))
  {
    RunInv(cfg, run, i);
    InvDrop(cfg, run[i]);
    StatsClosed(cfg.stream, run[i].db.tables.meta.seq_, k.ticker);
  }
}
