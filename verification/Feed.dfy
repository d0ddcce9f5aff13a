/** The feed handler's market state and the update it publishes for a message. */
module Feed {
  import opened Itch
  import opened Orders
  import opened Records
  import opened TableModel
  import Uptick

  /** Cumulative trade statistics of one book, and its short-sell flag. */
  datatype Stats = Stats(count: nat, volume: nat, notional: nat, lastPrice: nat, lastQty: nat, lastMatch: nat,
    uptick: bool)

  /** An instrument: its group, whether a directory message described it, its
      states, and its reference price if one was seen. */
  datatype Inst = Inst(group: string, described: bool, trading: char, shortSell: char, reference: Option<nat>)

  /** An instrument nothing is known of: suspended and unrestricted. */
  const NewInst := Inst("", false, 'V', '0', None)

  datatype Core = Core(orders: Table, insts: map<string, Inst>, stats: map<string, Stats>)

  const EmptyCore := Core(map[], map[], map[])

  /** What the tick test remembers of a book. */
  function TickOf(s: Option<Stats>): Uptick.Tick {
    if s.Some? then Uptick.Tick(Some(s.value.lastPrice), s.value.uptick) else Uptick.Opening
  }

  function Record(s: Option<Stats>, base: Option<nat>, price: nat, qty: nat, matchNumber: nat): Stats {
    var z := if s.Some? then s.value else Stats(0, 0, 0, 0, 0, 0, false);
    var tick := Uptick.Step(Uptick.CPP, TickOf(s), Uptick.Print(price, base));
    Stats(z.count + 1, z.volume + qty, z.notional + price * qty, price, qty, matchNumber, tick.up)
  }

  /** The base price of a book's first trade. */
  function BaseOf(c: Core, ticker: string): Option<nat> {
    if ticker in c.insts then c.insts[ticker].reference else None
  }

  function StatsOf(c: Core, ticker: string): Option<Stats> {
    if ticker in c.stats then Some(c.stats[ticker]) else None
  }

  function InstOf(insts: map<string, Inst>, book: string): Inst {
    if book in insts then insts[book] else NewInst
  }

  /** H, Y and reference-price A create the instrument, and name its group only
      while it has none. */
  function Mention(insts: map<string, Inst>, book: string, group: string): Inst {
    var i := InstOf(insts, book);
    if i.group == "" then i.(group := group) else i
  }

  function Apply(c: Core, m: Msg): Core {
    match m
    case Add(n, book, group, _, price, _, attributed, _) =>
      if n == 0 && !attributed
      then c.(insts := c.insts[book := Mention(c.insts, book, group).(reference := Some(price))])
      else c.(orders := Step(c.orders, m))
    case Exec(_, n, q, mn) =>
      if n !in c.orders then c
      else
        var o := c.orders[n];
        var f := if q > o.qty then o.qty else q;
        c.(orders := Step(c.orders, m),
           stats := c.stats[o.book := Record(StatsOf(c, o.book), BaseOf(c, o.book), o.price, f, mn)])
    case Directory(book, group, _) =>
      c.(insts := c.insts[book := InstOf(c.insts, book).(group := group, described := true)])
    case TradingState(book, group, state) =>
      c.(insts := c.insts[book := Mention(c.insts, book, group).(trading := state)])
    case ShortSell(book, group, state) =>
      c.(insts := c.insts[book := Mention(c.insts, book, group).(shortSell := state)])
    case _ => c.(orders := Step(c.orders, m))
  }

  lemma ApplyMovesOrders(c: Core, m: Msg)
    ensures Apply(c, m).orders == Step(c.orders, m)
  {
  }

  /** A run of messages. */
  function ApplyAll(c: Core, ms: seq<Msg>): Core {
    if ms == [] then c else Apply(ApplyAll(c, ms[..|ms| - 1]), ms[|ms| - 1])
  }

  /** Payloads that do not decode are skipped. */
  function ApplyPayload(c: Core, p: Option<Msg>): Core {
    if p.Some? then Apply(c, p.value) else c
  }

  /** The market that has seen the first `n` payloads without interruption. */
  function Fold(stream: seq<Option<Msg>>, n: nat): Core
    requires n <= |stream|
  {
    if n == 0 then EmptyCore else ApplyPayload(Fold(stream, n - 1), stream[n - 1])
  }

  /** Which messages are published: everything but the clock. */
  predicate Published(p: Option<Msg>) {
    p.Some? && !p.value.Seconds?
  }

  /** The type character an update is triggered by. */
  function Trigger(m: Msg): char {
    match m
    case Seconds(_) => 'T'
    case EndOfSnapshot(_) => 'G'
    case Add(_, _, _, _, _, _, attributed, _) => if attributed then 'F' else 'A'
    case Exec(_, _, _, _) => 'E'
    case Delete(_) => 'D'
    case Replace(_, _, _, _) => 'U'
    case Directory(_, _, _) => 'R'
    case TickSize(_, _, _) => 'L'
    case TradingState(_, _, _) => 'H'
    case ShortSell(_, _, _) => 'Y'
    case SystemEvent(_, _, _) => 'S'
  }

  // --- the update for one message ----------------------------------------------

  /** The affected order's book and group, or the message's own. */
  function TickerOf(c: Core, m: Msg): string {
    match m
    case Add(_, book, _, _, _, _, _, _) => book
    case Exec(_, n, _, _) => if n in c.orders then c.orders[n].book else ""
    case Delete(n) => if n in c.orders then c.orders[n].book else ""
    case Replace(o, _, _, _) => if o in c.orders then c.orders[o].book else ""
    case Directory(book, _, _) => book
    case TradingState(book, _, _) => book
    case ShortSell(book, _, _) => book
    case _ => ""
  }

  function MsgGroup(c: Core, m: Msg): string {
    match m
    case Add(_, _, group, _, _, _, _, _) => group
    case Exec(_, n, _, _) => if n in c.orders then c.orders[n].group else ""
    case Delete(n) => if n in c.orders then c.orders[n].group else ""
    case Replace(o, _, _, _) => if o in c.orders then c.orders[o].group else ""
    case Directory(_, group, _) => group
    case TradingState(_, group, _) => group
    case ShortSell(_, group, _) => group
    case SystemEvent(_, group, _) => group
    case _ => ""
  }

  /** A blank group is filled from the instrument. */
  function FillGroup(c: Core, ticker: string, group: string): string {
    if group == "" && ticker != "" && ticker in c.insts then c.insts[ticker].group else group
  }

  /** The delta, from the state before (`c`) the message. */
  function DeltaOf(c: Core, m: Msg): Delta {
    match m
    case Add(n, _, _, side, price, qty, attributed, _) =>
      if n == 0 && !attributed then NoDelta else DeltaAdd(n, side, price, qty, Added(m).kind)
    case Exec(_, n, q, _) =>
      if n !in c.orders then NoDelta
      else DeltaExec(n, c.orders[n].price, if q >= c.orders[n].qty then 0 else c.orders[n].qty - q)
    case Delete(n) => if n in c.orders then DeltaDelete(n) else NoDelta
    case Replace(o, n, price, qty) =>
      if o in c.orders then DeltaReplace(o, n, c.orders[o].side, price, qty, c.orders[o].kind) else NoDelta
    case _ => NoDelta
  }

  // --- agreement of order tables -------------------------------------------------

  /** Row `r` carries order `o`: every field, except that a blank group may have
      been filled, and that an order learnt from a GLIMPSE snapshot (`lossy`) has
      lost its order type. */
  predicate Carries(r: Order, o: Order, lossy: bool) {
    && r.book == o.book && r.side == o.side && r.price == o.price && r.qty == o.qty
    && (o.group == "" || r.group == o.group)
    && (r.kind == o.kind || (lossy && r.kind == ' '))
  }

  ghost predicate Mirrors(t: Table, orders: Table, lossy: bool) {
    t.Keys == orders.Keys && forall n :: n in orders ==> Carries(t[n], orders[n], lossy)
  }

  /** Mirroring tables aggregate to the same price levels, in quantity and in
      order count. */
  lemma MirrorsLevels(t: Table, orders: Table, lossy: bool, k: LevelKey)
    requires Mirrors(t, orders, lossy)
    ensures Resting(t, k) == Resting(orders, k)
    ensures Totals.Total(t, CountAt(k)) == Totals.Total(orders, CountAt(k))
  {
    Totals.Same(t, orders, QtyAt(k), QtyAt(k));
    Totals.Same(t, orders, CountAt(k), CountAt(k));
  }

  /** A mirror of the order table stays one when both apply the same message. */
  lemma StepMirrors(t: Table, orders: Table, m: Msg, lossy: bool)
    requires Mirrors(t, orders, lossy)
    ensures Mirrors(Step(t, m), Step(orders, m), lossy)
  {
  }

  /** An F with order number 0: the store ignores it, the delta still names it.
      It does no harm only where order 0 is live and already equals it. */
  predicate Phantom(orders: Table, m: Msg, lossy: bool) {
    m.Add? && m.attributed && m.number == 0 && !(0 in orders && Carries(Added(m), orders[0], lossy))
  }

  /** An F with order number 0 and a blank group that repeats a live order 0 but for
      its group: whether the record repeats it depends on the group filled in. */
  predicate Refilled(orders: Table, m: Msg, lossy: bool) {
    && m.Add? && m.attributed && m.number == 0 && m.group == "" && 0 in orders && orders[0].group != ""
    && Carries(Added(m).(group := orders[0].group), orders[0], lossy)
  }

  lemma AddExact(t: Table, orders: Table, m: Msg, group: string, lossy: bool)
    requires m.Add? && Mirrors(t, orders, lossy) && (m.group != "" ==> group == m.group)
    requires !(m.number == 0 && !m.attributed)
    ensures var d := DeltaAdd(m.number, m.side, m.price, m.qty, Added(m).kind);
            && (!Phantom(orders, m, lossy) ==> Mirrors(ApplyDelta(t, m.book, group, d), Step(orders, m), lossy))
            && (Phantom(orders, m, lossy) && !Refilled(orders, m, lossy) ==>
                  !Mirrors(ApplyDelta(t, m.book, group, d), Step(orders, m), lossy))
  {
    var t' := t[m.number := Order(m.book, group, m.side, m.price, m.qty, Added(m).kind)];
    if m.number == 0 && 0 in orders { assert Carries(t'[0], orders[0], lossy) || Phantom(orders, m, lossy); }
  }

  lemma ExecExact(c: Core, t: Table, orders: Table, m: Msg, group: string, lossy: bool)
    requires m.Exec? && Mirrors(c.orders, orders, lossy) && Mirrors(t, orders, lossy)
    ensures Mirrors(ApplyDelta(t, TickerOf(c, m), group, DeltaOf(c, m)), Step(orders, m), lossy)
  {
    if m.number in orders {
      assert Carries(c.orders[m.number], orders[m.number], lossy) && Carries(t[m.number], orders[m.number], lossy);
    }
  }

  lemma ReplaceExact(c: Core, t: Table, orders: Table, m: Msg, group: string, lossy: bool)
    requires m.Replace? && Mirrors(c.orders, orders, lossy) && Mirrors(t, orders, lossy)
    requires MsgGroup(c, m) != "" ==> group == MsgGroup(c, m)
    ensures Mirrors(ApplyDelta(t, TickerOf(c, m), group, DeltaOf(c, m)), Step(orders, m), lossy)
  {
    if m.orig in orders { assert Carries(c.orders[m.orig], orders[m.orig], lossy); }
  }

  /** The tables' delta against the feed handler's own step.  `c` is the handler's
      market, `t` the database's orders, `orders` the uninterrupted table both
      mirror; `group` is the group the record went out with. */
  lemma DeltaExact(c: Core, t: Table, orders: Table, m: Msg, group: string, lossy: bool)
    requires Mirrors(c.orders, orders, lossy) && Mirrors(t, orders, lossy)
    requires MsgGroup(c, m) != "" ==> group == MsgGroup(c, m)
    ensures !Phantom(orders, m, lossy) ==>
              Mirrors(ApplyDelta(t, TickerOf(c, m), group, DeltaOf(c, m)), Step(orders, m), lossy)
    ensures Phantom(orders, m, lossy) && !Refilled(orders, m, lossy) ==>
              !Mirrors(ApplyDelta(t, TickerOf(c, m), group, DeltaOf(c, m)), Step(orders, m), lossy)
  {
    match m
    case Add(n, _, _, _, _, _, attributed, _) =>
      if n != 0 || attributed { AddExact(t, orders, m, group, lossy); }
    case Exec(_, _, _, _) => ExecExact(c, t, orders, m, group, lossy);
    case Replace(_, _, _, _) => ReplaceExact(c, t, orders, m, group, lossy);
    case _ =>
  }
}
