/** The feed handler process: the market it updates in place, the record it builds
    for each message, and the dump it pushes on a resync. */
module FeedHandler {
  import opened Itch
  import opened Orders
  import opened Records
  import opened TableModel
  import opened Feed
  import opened BookRows
  import opened Replication
  import opened Sorting
  import TableDump
  import Recovery
  import CppBook

  /** What `Market::apply` reports; for an execution the delta still carries the
      executed quantity. */
  datatype Result = Result(ticker: string, group: string, delta: Delta)

  class Market {
    var store: CppBook.Store
    var insts: map<string, Inst>
    var stats: map<string, Stats>
    var lastTradeNs: map<string, nat>
    var sysEvents: map<string, char>

    ghost function View(): Core
      reads this
    {
      Core(store.orders, insts, stats)
    }

    /** The levels agree with the live orders. */
    ghost predicate Valid()
      reads this
    {
      CppBook.Agrees(store) && AllPositive(store.orders)
    }

    constructor ()
      ensures Valid() && View() == EmptyCore
    {
      store, insts, stats, lastTradeNs, sysEvents := CppBook.Empty, map[], map[], map[], map[];
      CppBook.EmptyAgrees();
    }

    /** The instrument, created on first mention, with its group filled in. */
    method Mention(book: string, group: string) returns (i: Inst)
      ensures i == Feed.Mention(insts, book, group)
    {
      i := if book in insts then insts[book] else NewInst;
      if i.group == "" { i := i.(group := group); }
    }

    /** The order store's share of a message. */
    method MoveStore(m: Msg)
      modifies this`store
      ensures store.orders == Step(old(store.orders), m)
      ensures old(Valid()) && PositiveQty(m) ==> Valid()
    {
      ghost var sound := Valid() && PositiveQty(m);
      if sound { CppBook.ApplyAgrees(store, m); }
      CppBook.ApplyOrders(store, m);
      store := CppBook.Apply(store, m);
    }

    /** A fill is clamped to what the order has left, and goes on the tape. */
    method Execute(m: Msg) returns (r: Result)
      requires m.Exec?
      modifies this`store, this`stats
      ensures View() == Feed.Apply(old(View()), m)
      ensures old(Valid()) && PositiveQty(m) ==> Valid()
      ensures r.ticker == TickerOf(old(View()), m) && r.group == MsgGroup(old(View()), m)
      ensures Finish(View(), r.delta) == DeltaOf(old(View()), m)
    {
      var n := m.number;
      if n !in store.orders { return Result("", "", NoDelta); }
      var o := store.orders[n];
      var f := if m.executed > o.qty then o.qty else m.executed;
      MoveStore(m);
      var base := if o.book in insts then insts[o.book].reference else None;
      var was := if o.book in stats then Some(stats[o.book]) else None;
      stats := stats[o.book := Record(was, base, o.price, f, m.matchNumber)];
      r := Result(o.book, o.group, DeltaExec(n, o.price, f));
    }

    /** D and U: the order is looked up before the store changes. */
    method Amend(m: Msg) returns (r: Result)
      requires m.Delete? || m.Replace?
      modifies this`store
      ensures View() == Feed.Apply(old(View()), m)
      ensures old(Valid()) && PositiveQty(m) ==> Valid()
      ensures r.ticker == TickerOf(old(View()), m) && r.group == MsgGroup(old(View()), m)
      ensures Finish(View(), r.delta) == DeltaOf(old(View()), m)
    {
      r := Result("", "", NoDelta);
      match m {
        case Delete(n) =>
          if n in store.orders { r := Result(store.orders[n].book, store.orders[n].group, DeltaDelete(n)); }
        case Replace(o, n, price, qty) =>
          if o in store.orders {
            var orig := store.orders[o];
            r := Result(orig.book, orig.group, DeltaReplace(o, n, orig.side, price, qty, orig.kind));
          }
      }
      MoveStore(m);
    }

    /** R, H and Y: the instrument's share of a message. */
    method Describe(m: Msg) returns (r: Result)
      requires m.Directory? || m.TradingState? || m.ShortSell?
      modifies this`insts
      ensures View() == Feed.Apply(old(View()), m)
      ensures r == Result(m.book, m.group, NoDelta)
    {
      var i := Mention(m.book, m.group);
      match m {
        case Directory(book, group, _) =>
          i := (if book in insts then insts[book] else NewInst).(group := group, described := true);
        case TradingState(_, _, state) => i := i.(trading := state);
        case ShortSell(_, _, state) => i := i.(shortSell := state);
      }
      insts := insts[m.book := i];
      r := Result(m.book, m.group, NoDelta);
    }

    /** One message; an affected order's book and group are looked up before the
        store changes. */
    method Apply(m: Msg) returns (r: Result)
      modifies this`store, this`insts, this`stats
      ensures View() == Feed.Apply(old(View()), m)
      ensures old(Valid()) && PositiveQty(m) ==> Valid()
      ensures r.ticker == TickerOf(old(View()), m) && r.group == MsgGroup(old(View()), m)
      ensures Finish(View(), r.delta) == DeltaOf(old(View()), m)
    {
      r := Result("", "", NoDelta);
      match m {
        case Add(n, book, group, side, price, qty, attributed, kind) =>
          if n == 0 && !attributed {
            var i := Mention(book, group);
            insts := insts[book := i.(reference := Some(price))];
            r := Result(book, group, NoDelta);
          } else {
            MoveStore(m);
            r := Result(book, group, DeltaAdd(n, side, price, qty, if attributed then kind else ' '));
          }
        case Exec(_, _, _, _) => r := Execute(m);
        case Delete(_) => r := Amend(m);
        case Replace(_, _, _, _) => r := Amend(m);
        case Directory(_, _, _) => r := Describe(m);
        case TradingState(_, _, _) => r := Describe(m);
        case ShortSell(_, _, _) => r := Describe(m);
        case SystemEvent(_, group, _) => r := Result("", group, NoDelta);
        case _ =>
      }
    }

    /** The last system event of a group, or failing that of the whole system. */
    method EventFor(group: string) returns (e: char)
      ensures e == LastEvent(sysEvents, group)
    {
      if group in sysEvents { return sysEvents[group]; }
      if "" in sysEvents { return sysEvents[""]; }
      return '\0';
    }

    /** Trade totals, counted in 32 bits. */
    method TradeSection(ticker: string) returns (trade: Trade)
      ensures TradeMatches(trade, StatsOf(View(), ticker))
      ensures ticker in stats ==> trade.lastNs == if ticker in lastTradeNs then lastTradeNs[ticker] else 0
    {
      if ticker !in stats { return Trade(0, 0, 0, 0, 0, 0, 0); }
      var s := stats[ticker];
      var ns := if ticker in lastTradeNs then lastTradeNs[ticker] else 0;
      return Trade(s.lastPrice, s.lastQty, s.lastMatch, ns, s.volume, s.notional, s.count % U32);
    }

    /** States and reference price, with marks where there is no instrument. */
    method StateSection(ticker: string, event: char) returns (state: State)
      ensures StateTells(state, View(), ticker) && state.sysEvent == event
    {
      if ticker !in insts { return State('?', '?', 0, event, 0); }
      var i := insts[ticker];
      return State(i.trading, i.shortSell, if i.reference.Some? then i.reference.value else 0, event, 0);
    }

    /** The full record for one ticker: directory flag, states and reference price,
        best ten levels a side, trade totals, and the delta with the quantity that
        remains. */
    method MakeUpdate(r: Result, epoch: nat, pubSeq: nat, session: string, n: nat, ns: nat, trigger: char)
        returns (u: Update)
      ensures u.epoch == epoch && u.session == session && u.seq_ == n && u.ticker == r.ticker
      ensures u.group == FillGroup(View(), r.ticker, r.group) && u.delta == Finish(View(), r.delta)
      ensures u.ticker != "" ==> Tells(u.static_, u.state, u.trade, u.book, View(), u.ticker, Valid())
      ensures u.state.sysEvent == LastEvent(sysEvents, u.group)
      ensures u.pubSeq == pubSeq && u.ns == ns && u.trigger == trigger
      ensures u.ticker != "" && u.ticker in stats ==>
                u.trade.lastNs == if u.ticker in lastTradeNs then lastTradeNs[u.ticker] else 0
    {
      var group := r.group;
      if group == "" && r.ticker != "" && r.ticker in insts { group := insts[r.ticker].group; }
      var event := EventFor(group);
      var seen := r.ticker != "" && r.ticker in insts && insts[r.ticker].described;
      var static_ := Static("", 0, 0, 0, 0, 0, seen, false);
      var state, trade := State('?', '?', 0, event, 0), Trade(0, 0, 0, 0, 0, 0, 0);
      var book := Section([], [], 0, 0, 0, 0);
      if r.ticker != "" {
        state := StateSection(r.ticker, event);
        book := CppBook.MakeSection(store, r.ticker);
        trade := TradeSection(r.ticker);
      }
      var delta := r.delta;
      if delta.DeltaExec? {
        var left := if delta.number in store.orders then store.orders[delta.number].qty else 0;
        delta := DeltaExec(delta.number, delta.price, left);
      }
      u := Update(epoch, pubSeq, session, n, ns, trigger, r.ticker, group, static_, state, book, trade, delta);
    }

    /** The live path: apply, then build the record unless it was the clock. */
    method OnMessage(m: Msg, n: nat, epoch: nat, pubSeq: nat, session: string, ns: nat, ghost cfg: Config)
        returns (u: Option<Update>)
      requires Positive(cfg) ==> Valid() && PositiveQty(m)
      modifies this
      ensures Positive(cfg) ==> Valid()
      ensures View() == Feed.Apply(old(View()), m)
      ensures u.Some? <==> Published(Some(m))
      ensures u.Some? ==> UpdateFor(cfg, u.value, old(View()), m, n, epoch, session)
      ensures u.Some? ==> u.value.pubSeq == pubSeq && u.value.ns == ns && (u.value.trigger == 'E' <==> m.Exec?)
      ensures u.Some? ==> u.value.state.sysEvent == LastEvent(sysEvents, u.value.group)
      ensures u.Some? && m.Exec? && u.value.ticker != "" ==> u.value.trade.lastNs == ns
      ensures sysEvents == if m.SystemEvent? then old(sysEvents)[m.group := m.event] else old(sysEvents)
      ensures lastTradeNs == if m.Exec? && TickerOf(old(View()), m) != ""
                             then old(lastTradeNs)[TickerOf(old(View()), m) := ns] else old(lastTradeNs)
    {
      var r := Apply(m);
      if m.Seconds? { return None; }
      if m.SystemEvent? { sysEvents := sysEvents[m.group := m.event]; }
      if m.Exec? && r.ticker != "" { lastTradeNs := lastTradeNs[r.ticker := ns]; }
      var rec := MakeUpdate(r, epoch, pubSeq, session, n, ns, Trigger(m));
      u := Some(rec);
    }

    /** The row of one ticker, exactly if its group can be told: refdata's, or that
        of the live order with the smallest number. */
    method RowFor(t: string, session: string, last: nat, epoch: nat, numbers: seq<nat>, ghost cfg: Config)
        returns (u: Option<Update>)
      requires Positive(cfg) ==> Valid()
      requires (forall k :: k in numbers <==> k in store.orders) && Increasing(numbers)
      ensures u.Some? ==> DumpRow(cfg, u.value, View()) && u.value.ticker == t && Stamped(u.value, session, last, epoch)
      ensures u.Some? && t != "" && !(t in insts && insts[t].group != "") ==>
                exists n :: Oldest(View(), t, n) && FillGroup(View(), t, store.orders[n].group) == u.value.group
      ensures u.Some? <==> Known(View(), t)
    {
      var group, known := "", t in insts && insts[t].group != "";
      if !known { group, known := GroupFromOrders(t, numbers); }
      if !known { return None; }
      var rec := MakeUpdate(Result(t, group, NoDelta), epoch, 0, session, last, 0, '#');
      u := Some(rec);
    }

    /** Every ticker that refdata, a book or a live order knows, in order. */
    method Tickers() returns (tickers: seq<string>)
      ensures forall t :: Known(View(), t) ==> t in tickers
    {
      StringOrder();
      var books := set k | k in store.orders :: store.orders[k].book;
      tickers := Walk(insts.Keys + (set k | k in store.sides :: k.book) + books, StringLess);
      forall t | Known(View(), t)
        ensures t in tickers
      {
        if !(t in insts) {
          var n :| n in store.orders && store.orders[n].book == t;
          assert t in books;
        }
      }
    }

    /** Rows for every ticker whose group can be told. */
    method DumpRows(session: string, last: nat, epoch: nat, numbers: seq<nat>, ghost cfg: Config)
        returns (rows: seq<Update>)
      requires Positive(cfg) ==> Valid()
      requires (forall k :: k in numbers <==> k in store.orders) && Increasing(numbers)
      ensures forall u :: u in rows ==> DumpRow(cfg, u, View()) && Stamped(u, session, last, epoch)
      ensures forall t :: Known(View(), t) ==> HasRow(rows, t)
    {
      var tickers := Tickers();
      rows := [];
      for i := 0 to |tickers|
        invariant forall u :: u in rows ==> DumpRow(cfg, u, View()) && Stamped(u, session, last, epoch)
        invariant forall j :: 0 <= j < i && Known(View(), tickers[j]) ==> HasRow(rows, tickers[j])
      {
        var u := RowFor(tickers[i], session, last, epoch, numbers, cfg);
        if u.Some? {
          GrowKeeps(rows, u.value);
          rows := rows + [u.value];
        }
      }
    }

    method GroupFromOrders(t: string, numbers: seq<nat>) returns (group: string, known: bool)
      requires forall k :: k in numbers <==> k in store.orders
      requires Increasing(numbers)
      ensures known ==> exists n :: Oldest(View(), t, n) && store.orders[n].group == group
      ensures !known ==> forall n :: n in store.orders ==> store.orders[n].book != t
    {
      for i := 0 to |numbers|
        invariant forall j :: 0 <= j < i ==> store.orders[numbers[j]].book != t
      {
        if store.orders[numbers[i]].book == t {
          assert Oldest(View(), t, numbers[i]);
          return store.orders[numbers[i]].group, true;
        }
      }
      return "", false;
    }

    /** One row of the blank ticker for each group a system event was seen in. */
    method EventRows(session: string, last: nat, epoch: nat) returns (rows: seq<Update>)
      ensures forall u :: u in rows ==> EventRow(u, sysEvents) && Stamped(u, session, last, epoch)
      ensures forall g :: g in sysEvents ==> exists u :: u in rows && u.group == g
    {
      rows := [];
      var rest := sysEvents.Keys;
      while rest != {}
        invariant rest <= sysEvents.Keys
        invariant forall u :: u in rows ==> EventRow(u, sysEvents) && Stamped(u, session, last, epoch)
        invariant forall g :: g in sysEvents && g !in rest ==> exists u :: u in rows && u.group == g
        decreases rest
      {
        var g :| g in rest;
        var u := MakeUpdate(Result("", g, NoDelta), epoch, 0, session, last, 0, '#');
        assert u in rows + [u];
        assert forall v :: v in rows ==> v in rows + [u];
        rows := rows + [u];
        rest := rest - {g};
      }
    }

    /** The dump between the bracket marks, as the step system allows it. */
    method BuildSyncDump(session: string, last: nat, epoch: nat, ticks: seq<Rec>, ghost cfg: Config) returns (d: Dump)
      requires Positive(cfg) ==> Valid()
      requires forall r :: r in ticks ==> r.TickRec?
      ensures DumpOf(cfg, d, View())
      ensures forall g :: g in sysEvents ==> exists u :: u in d.rows && u.ticker == "" && u.group == g
      ensures forall u :: u in d.rows ==> Stamped(u, session, last, epoch)
    {
      NatOrder();
      var numbers := Walk(store.orders.Keys, NatLess);
      var rows := DumpRows(session, last, epoch, numbers, cfg);
      var events := EventRows(session, last, epoch);
      d := Dump(ticks, numbers, rows + events);
      EventsBeside(rows, events, cfg, View(), sysEvents);
    }

    method RestoreOne(r: Rec)
      modifies this
      ensures View() == Recovery.RestoreRec(old(View()), r)
      ensures lastTradeNs == if r.UpdateRec? && r.u.ticker != "" && r.u.trade.count > 0 && r.u.trade.lastNs != 0
                             then old(lastTradeNs)[r.u.ticker := r.u.trade.lastNs] else old(lastTradeNs)
      ensures sysEvents == if r.UpdateRec? && r.u.ticker != "" && r.u.state.sysEvent != '\0'
                           then old(sysEvents)[r.u.group := r.u.state.sysEvent] else old(sysEvents)
      ensures store == if r.OrderRec? then CppBook.Place(old(store), r.number, r.row) else old(store)
    {
      match r {
        case OrderRec(n, row) => store := CppBook.Place(store, n, row);
        case UpdateRec(u) =>
          if u.ticker != "" {
            if Informs(u.static_, u.state) { insts := Recovery.RestoreInst(insts, u); }
            if u.trade.count > 0 {
              stats := stats[u.ticker := Restored(u.trade)];
              if u.trade.lastNs != 0 { lastTradeNs := lastTradeNs[u.ticker := u.trade.lastNs]; }
            }
            if u.state.sysEvent != '\0' { sysEvents := sysEvents[u.group := u.state.sysEvent]; }
          }
        case _ =>
      }
    }

    /** Restart: rebuild an empty market from the records of a recovery dump.  The
        result is one the step system allows, and its levels agree with its orders. */
    method Recover(q: seq<Rec>, ghost t: Tables)
      requires View() == EmptyCore && store == CppBook.Empty && q == TableDump.Dumped(t)
      modifies this
      ensures Recovers(View(), t)
      ensures AllPositive(t.orders) ==> Valid()
    {
      CppBook.EmptyAgrees();
      Recovery.DumpedOrders(t);
      for i := 0 to |q|
        invariant Recovery.RestoreAll(View(), q[i..]) == Recovery.RestoreAll(EmptyCore, q)
        invariant AllPositive(t.orders) ==> Valid()
        invariant forall n :: n in store.orders ==> exists j :: 0 <= j < i && q[j].OrderRec? && q[j].number == n
      {
        ghost var before := store;
        if AllPositive(t.orders) && q[i].OrderRec? {
          assert q[i].number in t.orders && q[i].row == t.orders[q[i].number];
          CppBook.PlaceAgrees(store, q[i].number, q[i].row);
        }
        RestoreOne(q[i]);
        assert q[i..][1..] == q[i + 1..];
      }
      assert q[|q|..] == [];
      Recovery.RestoreDump(t);
    }
  }

  function LastEvent(events: map<string, char>, group: string): char {
    if group in events then events[group] else if "" in events then events[""] else '\0'
  }

  predicate Increasing(numbers: seq<nat>) {
    forall i, j :: 0 <= i < j < |numbers| ==> numbers[i] < numbers[j]
  }

  /** The live order of a ticker with the smallest number. */
  ghost predicate Oldest(c: Core, t: string, n: nat) {
    && n in c.orders && c.orders[n].book == t
    && forall k :: k in c.orders && c.orders[k].book == t ==> n <= k
  }

  /** The envelope of a dump row: the position dumped, and no trigger of its own. */
  predicate Stamped(u: Update, session: string, last: nat, epoch: nat) {
    u.session == session && u.seq_ == last && u.epoch == epoch && u.pubSeq == 0 && u.trigger == '#'
  }

  /** A row of the blank ticker that carries a group's last system event. */
  predicate EventRow(u: Update, events: map<string, char>) {
    u.ticker == "" && u.delta == NoDelta && u.group in events && u.state.sysEvent == events[u.group]
  }

  /** Event rows do not disturb the tickers' rows. */
  lemma EventsBeside(rows: seq<Update>, events: seq<Update>, cfg: Config, c: Core, seen: map<string, char>)
    requires forall u :: u in rows ==> DumpRow(cfg, u, c)
    requires forall u :: u in events ==> EventRow(u, seen)
    requires forall g :: g in seen ==> exists u :: u in events && u.group == g
    ensures forall u :: u in rows + events ==> DumpRow(cfg, u, c)
    ensures forall t :: HasRow(rows, t) ==> HasRow(rows + events, t)
    ensures forall g :: g in seen ==> exists u :: u in rows + events && u.ticker == "" && u.group == g
  {
    assert forall u :: u in rows + events <==> u in rows || u in events;
    forall u | u in events
      ensures DumpRow(cfg, u, c)
    {
      assert EventRow(u, seen);
    }
    forall g | g in seen
      ensures exists u :: u in rows + events && u.ticker == "" && u.group == g
    {
      var u :| u in events && u.group == g;
      assert EventRow(u, seen) && u in rows + events;
    }
  }

  lemma GrowKeeps(rows: seq<Update>, u: Update)
    ensures forall v :: v in rows + [u] <==> v in rows || v == u
    ensures HasRow(rows + [u], u.ticker)
    ensures forall t :: HasRow(rows, t) ==> HasRow(rows + [u], t)
  {
    assert u in rows + [u];
  }

  /** An execution's delta carries the quantity left after it. */
  function Finish(c: Core, d: Delta): Delta {
    match d
    case DeltaExec(n, price, _) => DeltaExec(n, price, if n in c.orders then c.orders[n].qty else 0)
    case _ => d
  }

  lemma StringOrder()
    ensures TotalOrder(StringLess)
  {
    forall a, b ensures !StringLess(a, a) && (a == b || StringLess(a, b) || StringLess(b, a)) { StringTotal(a, b); }
    forall a, b, c | StringLess(a, b) && StringLess(b, c) ensures StringLess(a, c) { StringTransitive(a, b, c); }
  }
}
