/** The records of the feed-handler / database link, section by section. */
module Records {
  import opened Itch
  import opened Orders

  datatype Static = Static(isin: string, roundLot: nat, tickTable: nat, decimals: nat, upper: nat, lower: nat,
                           directorySeen: bool, collisionSeen: bool)

  datatype State = State(tradingState: char, shortSell: char, refPrice: nat, sysEvent: char, shortSellPrice: nat)

  datatype BookLevel = BookLevel(price: nat, qty: nat, orders: nat)

  /** Best-first levels, at most ten a side, and the totals of the whole book. */
  datatype Section = Section(bids: seq<BookLevel>, asks: seq<BookLevel>,
                             bidQty: int, askQty: int, bidOrders: nat, askOrders: nat)

  datatype Trade = Trade(lastPrice: nat, lastQty: nat, lastMatch: nat, lastNs: nat, cumQty: nat, cumTurnover: nat,
    count: nat)

  /** The order-table mutation an UPDATE carries. */
  datatype Delta =
    | NoDelta
    | DeltaAdd(number: nat, side: char, price: nat, qty: nat, kind: char)
    | DeltaExec(number: nat, price: nat, qty: nat)   // quantity remaining after the fill
    | DeltaDelete(number: nat)
    | DeltaReplace(orig: nat, number: nat, side: char, price: nat, qty: nat, kind: char)

  datatype Update = Update(epoch: nat, pubSeq: nat, session: string, seq_: nat, ns: nat, trigger: char,
                           ticker: string, group: string,
                           static_: Static, state: State, book: Section, trade: Trade, delta: Delta)

  datatype Rec =
    | Reset
    | SyncBegin
    | SyncEnd(session: string, seq_: nat, epoch: nat)
    | UpdateRec(u: Update)
    | OrderRec(number: nat, row: Order)
    | TickRec(table: nat, start: nat, size: nat)
}

/** The database's tables as a value, and what each record does to them. */
module TableModel {
  import opened Itch
  import opened Orders
  import opened Records

  datatype Key = Key(ticker: string, group: string)

  datatype TapeEntry = TapeEntry(ns: nat, price: nat, qty: nat, matchNumber: nat)

  const TAPE_CAP: nat := 50

  datatype Row = Row(static_: Static, state: State, seq_: nat, ns: nat, book: Section, trade: Trade,
    tape: seq<TapeEntry>)

  datatype Meta = Meta(session: string, seq_: nat, epoch: nat, updates: nat, dups: nat,
                       orderRows: nat, tickRows: nat, syncsCompleted: nat, syncsDiscarded: nat)

  datatype Tables = Tables(books: map<Key, Row>, orders: Table, ticks: map<nat, map<nat, nat>>, meta: Meta)

  const Fresh := Tables(map[], map[], map[], Meta("", 0, 0, 0, 0, 0, 0, 0, 0))

  function PushTape(tape: seq<TapeEntry>, e: TapeEntry): seq<TapeEntry> {
    var all := tape + [e];
    if |all| > TAPE_CAP then all[|all| - TAPE_CAP..] else all
  }

  function ApplyDelta(t: Table, ticker: string, group: string, d: Delta): Table {
    match d
    case NoDelta => t
    case DeltaAdd(n, s, p, q, k) => t[n := Order(ticker, group, s, p, q, k)]
    case DeltaExec(n, p, q) =>
      if n !in t then t else if q == 0 then t - {n} else t[n := t[n].(qty := q, price := p)]
    case DeltaDelete(n) => t - {n}
    case DeltaReplace(o, n, s, p, q, k) => (t - {o})[n := Order(ticker, group, s, p, q, k)]
  }

  /** The duplicate guard of the live path. */
  predicate Duplicate(m: Meta, u: Update, inSync: bool) {
    !inSync && u.epoch == m.epoch && u.seq_ <= m.seq_ && m.updates > 0
  }

  function NewRow(old_: Option<Row>, u: Update): Row {
    var tape := if old_.Some? then old_.value.tape else [];
    Row(u.static_, u.state, u.seq_, u.ns, u.book, u.trade,
        if u.trigger == 'E'
        then PushTape(tape, TapeEntry(u.trade.lastNs, u.trade.lastPrice, u.trade.lastQty, u.trade.lastMatch)) else tape)
  }

  function ApplyUpdate(t: Tables, u: Update, inSync: bool): Tables {
    if Duplicate(t.meta, u, inSync) then t.(meta := t.meta.(dups := t.meta.dups + 1))
    else
      var key := Key(u.ticker, u.group);
      var meta := t.meta.(updates := t.meta.updates + 1);
      Tables(t.books[key := NewRow(if key in t.books then Some(t.books[key]) else None, u)],
             ApplyDelta(t.orders, u.ticker, u.group, u.delta),
             t.ticks,
             if inSync then meta else meta.(session := u.session, epoch := u.epoch, seq_ := u.seq_))
  }

  function ApplyOrder(t: Tables, n: nat, row: Order): Tables {
    t.(orders := t.orders[n := row], meta := t.meta.(orderRows := t.meta.orderRows + 1))
  }

  function ApplyTick(t: Tables, table: nat, start: nat, size: nat): Tables {
    var rows := if table in t.ticks then t.ticks[table] else map[];
    t.(ticks := t.ticks[table := rows[start := size]], meta := t.meta.(tickRows := t.meta.tickRows + 1))
  }

  /** Everything is wiped except the two sync counters. */
  function Wipe(t: Tables): Tables {
    Fresh.(meta := Fresh.meta.(syncsCompleted := t.meta.syncsCompleted, syncsDiscarded := t.meta.syncsDiscarded))
  }

  /** Tables plus the bracket flag of the ingest connection. */
  datatype Db = Db(tables: Tables, inSync: bool)

  function Receive(d: Db, r: Rec): Db {
    match r
    case Reset => d.(tables := Wipe(d.tables))
    case SyncBegin => d.(inSync := true)
    case SyncEnd(session, n, epoch) =>
      if !d.inSync then d
      else
        var m := d.tables.meta;
        Db(d.tables.(meta := m.(session := session, seq_ := n, epoch := epoch,
          syncsCompleted := m.syncsCompleted + 1)), false)
    case UpdateRec(u) => d.(tables := ApplyUpdate(d.tables, u, d.inSync))
    case OrderRec(n, row) => d.(tables := ApplyOrder(d.tables, n, row))
    case TickRec(table, start, size) => d.(tables := ApplyTick(d.tables, table, start, size))
  }

  /** Losing the connection inside a bracket discards the partial sync. */
  function DropConnection(d: Db): Db {
    if d.inSync then
      var wiped := Wipe(d.tables);
      Db(wiped.(meta := wiped.meta.(syncsDiscarded := wiped.meta.syncsDiscarded + 1)), false)
    else d
  }

  // --- sequences of records ------------------------------------------------------

  /** The database once it has read all of `q`. */
  function Final(d: Db, q: seq<Rec>): Db
    decreases |q|
  {
    if q == [] then d else Final(Receive(d, q[0]), q[1..])
  }

  lemma {:induction false} FinalAppend(d: Db, q: seq<Rec>, r: seq<Rec>)
    ensures Final(d, q + r) == Final(Final(d, q), r)
    decreases |q|
  {
    if q == [] {
      assert q + r == r;
    } else {
      FinalAppend(Receive(d, q[0]), q[1..], r);
      assert (q + r)[1..] == q[1..] + r;
    }
  }

  function OrderRecs(orders: Table, numbers: seq<nat>): seq<Rec>
    requires forall n :: n in numbers ==> n in orders
  {
    seq(|numbers|, i requires 0 <= i < |numbers| => OrderRec(numbers[i], orders[numbers[i]]))
  }

  function RowRecs(rows: seq<Update>): seq<Rec> {
    seq(|rows|, i requires 0 <= i < |rows| => UpdateRec(rows[i]))
  }

  /** The entries of `f` under the given keys. */
  function Pick<K, V>(f: map<K, V>, keys: seq<K>): map<K, V>
    requires forall k :: k in keys ==> k in f
  {
    map k | k in keys :: f[k]
  }

  lemma PickNext<K, V>(m: map<K, V>, f: map<K, V>, keys: seq<K>)
    requires keys != [] && forall k :: k in keys ==> k in f
    ensures m[keys[0] := f[keys[0]]] + Pick(f, keys[1..]) == m + Pick(f, keys)
  {
    assert forall k :: k in keys <==> k == keys[0] || k in keys[1..];
  }

  lemma PickAll<K, V>(f: map<K, V>, keys: seq<K>)
    requires forall k :: k in keys <==> k in f
    ensures Pick(f, keys) == f && map[] + f == f
  {
  }

  /** Order rows install exactly the orders they name. */
  lemma {:induction false} FinalOrders(d: Db, orders: Table, numbers: seq<nat>)
    requires forall n :: n in numbers ==> n in orders
    ensures var e := Final(d, OrderRecs(orders, numbers));
            && e.tables.orders == d.tables.orders + Pick(orders, numbers)
            && e.tables.books == d.tables.books && e.tables.ticks == d.tables.ticks
            && e.inSync == d.inSync && e.tables.meta == d.tables.meta.(orderRows := d.tables.meta.orderRows + |numbers|)
    decreases |numbers|
  {
    if numbers != [] {
      var q := OrderRecs(orders, numbers);
      assert q[1..] == OrderRecs(orders, numbers[1..]);
      PickNext(d.tables.orders, orders, numbers);
      FinalOrders(Receive(d, q[0]), orders, numbers[1..]);
    }
  }
}
