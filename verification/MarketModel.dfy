/** The prototype's market: reference data, books and tape behind one message
    entry point, and what a late joiner rebuilds from a snapshot. */
module MarketModel {
  import opened Itch
  import opened Orders
  import opened Totals
  import opened BookModel
  import opened TapeModel

  const SUSPENDED: char := 'V'
  const UNRESTRICTED: char := '0'
  const NANOS: nat := 1_000_000_000

  /** Static data of one book; `info` is absent until a directory message. */
  datatype Instrument = Instrument(info: Option<Info>, group: Option<string>, trading: char, shortSell: char,
    reference: Option<nat>)

  const Unknown := Instrument(None, None, SUSPENDED, UNRESTRICTED, None)

  /** One row of a tick-size table. */
  datatype TickKey = TickKey(table: nat, start: nat)

  /** Everything but the orders and the tape.  A tick table is its rows, so a
      table exists exactly when it has one. */
  datatype Refs = Refs(
    insts: map<string, Instrument>,
    ticks: map<TickKey, nat>,
    events: seq<(nat, string, char)>,
    seconds: nat,
    snapshotSeq: Option<nat>)

  datatype Market = Market(refs: Refs, store: Store, tape: Tape)

  const Blank := Market(Refs(map[], map[], [], 0, None), BookModel.Empty, TapeModel.Blank)

  function Get(r: Refs, id: string): Instrument {
    if id in r.insts then r.insts[id] else Unknown
  }

  /** A message's group counts only where none is known yet. */
  function WithGroup(i: Instrument, group: string): Instrument {
    if i.group.None? then i.(group := Some(group)) else i
  }

  function SetInst(r: Refs, id: string, i: Instrument): Refs {
    r.(insts := r.insts[id := i])
  }

  function RefStep(r: Refs, m: Msg): Refs {
    match m
    case Seconds(s) => r.(seconds := s)
    case EndOfSnapshot(n) => r.(snapshotSeq := Some(n))
    case Add(n, b, g, _, p, _, attributed, _) =>
      if n == 0 && !attributed then SetInst(r, b, WithGroup(Get(r, b), g).(reference := Some(p))) else r
    case Directory(b, g, info) => SetInst(r, b, Get(r, b).(info := Some(info), group := Some(g)))
    case TickSize(t, start, size) => r.(ticks := r.ticks[TickKey(t, start) := size])
    case TradingState(b, g, s) => SetInst(r, b, WithGroup(Get(r, b), g).(trading := s))
    case ShortSell(b, g, s) => SetInst(r, b, WithGroup(Get(r, b), g).(shortSell := s))
    case SystemEvent(ns, g, e) => r.(events := r.events + [(ns, g, e)])
    case _ => r
  }

  /** The prototype's orders carry no order type. */
  function Plain(m: Msg): Msg {
    if m.Add? then m.(attributed := false) else m
  }

  /** The trade an execution puts on the tape: the clock's time, and the base
      price if the book is known. */
  function TradeOf(r: Refs, m: Msg, e: Execution): Trade
    requires m.Exec?
  {
    Trade(r.seconds * NANOS + m.ns, e.book, e.price, e.qty, e.matchNumber,
          if e.book in r.insts then r.insts[e.book].reference else None)
  }

  datatype Step = Step(market: Market, fault: Fault, execution: Option<Execution>, trades: seq<Trade>)

  /** One message: the order store ignores what is not an order message, and the
      reference data what is not theirs. */
  function Apply(mk: Market, m: Msg): Step {
    var r := BookModel.Apply(mk.store, Plain(m));
    var ts := if r.execution.Some? && m.Exec? then [TradeOf(mk.refs, m, r.execution.value)] else [];
    Step(Market(RefStep(mk.refs, m), r.store, RecordAll(mk.tape, ts)), r.fault, r.execution, ts)
  }

  /** A run, its executions and its trades; a call that raises ends it. */
  datatype Trace = Trace(market: Market, fault: Fault, executions: seq<Option<Execution>>, trades: seq<Trade>)

  function Run(mk: Market, ms: seq<Msg>): Trace {
    if ms == [] then Trace(mk, NoFault, [], [])
    else
      var r := Run(mk, ms[..|ms| - 1]);
      if !r.fault.NoFault? then r
      else
        Extend(r, Apply(r.market, ms[|ms| - 1]))
  }

  function Chain(x: Trace, y: Trace): Trace {
    Trace(y.market, y.fault, x.executions + y.executions, x.trades + y.trades)
  }

  function Extend(x: Trace, s: Step): Trace {
    Trace(s.market, s.fault, x.executions + [s.execution], x.trades + s.trades)
  }

  lemma ChainExtend(x: Trace, y: Trace, s: Step)
    ensures Extend(Chain(x, y), s) == Chain(x, Extend(y, s))
  {
    assert (x.executions + y.executions) + [s.execution] == x.executions + (y.executions + [s.execution]);
    assert (x.trades + y.trades) + s.trades == x.trades + (y.trades + s.trades);
  }

  lemma {:induction false} RunSplit(mk: Market, a: seq<Msg>, b: seq<Msg>)
    requires Run(mk, a).fault.NoFault?
    ensures Run(mk, a + b) == Chain(Run(mk, a), Run(Run(mk, a).market, b))
  {
    var x := Run(mk, a);
    if b == [] {
      assert a + b == a;
    } else {
      var front := b[..|b| - 1];
      assert (a + b)[..|a + b| - 1] == a + front;
      RunSplit(mk, a, front);
      var y := Run(x.market, front);
      if y.fault.NoFault? { ChainExtend(x, y, Apply(y.market, b[|b| - 1])); }
    }
  }

  /** The tape is the record of the run's trades. */
  lemma {:induction false} RunTape(mk: Market, ms: seq<Msg>)
    ensures Run(mk, ms).market.tape == RecordAll(mk.tape, Run(mk, ms).trades)
  {
    if ms != [] {
      var front := Run(mk, ms[..|ms| - 1]);
      RunTape(mk, ms[..|ms| - 1]);
      if front.fault.NoFault? {
        RecordSplit(mk.tape, front.trades, Apply(front.market, ms[|ms| - 1]).trades);
      }
    }
  }

  ghost predicate AllPositiveQty(ms: seq<Msg>) {
    forall i :: 0 <= i < |ms| ==> PositiveQty(ms[i])
  }

  function Refold(r: Refs, ms: seq<Msg>): Refs {
    if ms == [] then r else RefStep(Refold(r, ms[..|ms| - 1]), ms[|ms| - 1])
  }

  function Retable(t: Table, ms: seq<Msg>): Table {
    if ms == [] then t else Orders.Step(Retable(t, ms[..|ms| - 1]), Plain(ms[|ms| - 1]))
  }

  lemma {:induction false} RefoldSplit(r: Refs, a: seq<Msg>, b: seq<Msg>)
    ensures Refold(r, a + b) == Refold(Refold(r, a), b)
  {
    if b == [] {
      assert a + b == a;
    } else {
      assert (a + b)[..|a + b| - 1] == a + b[..|b| - 1];
      RefoldSplit(r, a, b[..|b| - 1]);
    }
  }

  lemma {:induction false} RetableSplit(t: Table, a: seq<Msg>, b: seq<Msg>)
    ensures Retable(t, a + b) == Retable(Retable(t, a), b)
  {
    if b == [] {
      assert a + b == a;
    } else {
      assert (a + b)[..|a + b| - 1] == a + b[..|b| - 1];
      RetableSplit(t, a, b[..|b| - 1]);
    }
  }

  /** A store whose orders are all positive and whose levels are their sums. */
  ghost predicate Sound(s: Store) {
    LevelsAgree(s) && AllPositive(s.orders)
  }

  lemma StepSound(s: Store, m: Msg)
    requires Sound(s) && PositiveQty(m)
    ensures var r := BookModel.Apply(s, Plain(m));
            r.fault.NoFault? && Sound(r.store) && r.store.orders == Orders.Step(s.orders, Plain(m))
  {
    PositiveAdmissible(s.orders, Plain(m));
    ApplyExact(s, Plain(m));
    ApplyOrders(s, Plain(m));
  }

  /** On positive quantities nothing raises; the run's parts evolve independently. */
  lemma {:induction false} RunParts(mk: Market, ms: seq<Msg>)
    requires Sound(mk.store) && AllPositiveQty(ms)
    ensures var r := Run(mk, ms);
            && r.fault.NoFault? && Sound(r.market.store)
            && r.market.refs == Refold(mk.refs, ms)
            && r.market.store.orders == Retable(mk.store.orders, ms)
  {
    if ms != [] {
      var front, m := ms[..|ms| - 1], ms[|ms| - 1];
      RunParts(mk, front);
      StepSound(Run(mk, front).market.store, m);
    }
  }

  /** Equal orders force equal levels. */
  lemma SameLevels(a: Store, b: Store)
    requires LevelsAgree(a) && LevelsAgree(b) && a.orders == b.orders
    ensures a == b
  {
    assert forall k :: k in a.levels <==> k in b.levels;
    assert a.levels == b.levels;
  }

  // --- conservation ------------------------------------------------------------------

  /** Quantity a message puts in, fills, and takes out otherwise (a deletion, a
      replaced original, an order whose number is taken over). */
  function Inserted(t: Table, m: Msg): nat {
    match m
    case Add(n, _, _, _, _, q, _, _) => if n == 0 then 0 else q
    case Replace(o, _, _, q) => if o in t then q else 0
    case _ => 0
  }

  function Executed(t: Table, m: Msg): nat {
    if m.Exec? && m.number in t then (if m.executed > t[m.number].qty then t[m.number].qty else m.executed) else 0
  }

  function Removed(t: Table, m: Msg): nat {
    match m
    case Add(n, _, _, _, _, _, _, _) => if n != 0 && n in t then t[n].qty else 0
    case Delete(n) => if n in t then t[n].qty else 0
    case Replace(o, n, _, _) => if o in t then t[o].qty + (if n in t && n != o then t[n].qty else 0) else 0
    case _ => 0
  }

  lemma StepLedger(t: Table, m: Msg)
    ensures LiveQty(t) + Inserted(t, m) == LiveQty(Orders.Step(t, Plain(m))) + Executed(t, m) + Removed(t, m)
  {
    match m
    case Add(n, _, _, _, _, _, _, _) =>
      Put(t, n, Added(Plain(m)), Qty());
      Drop(t, n, Qty());
    case Exec(_, n, q, _) =>
      if n in t {
        Drop(t, n, Qty());
        Put(t, n, t[n].(qty := if q > t[n].qty then 0 else t[n].qty - q), Qty());
      }
    case Delete(n) => Drop(t, n, Qty());
    case Replace(_, _, _, _) => ReplaceLedger(t, m);
    case _ =>
  }

  lemma ReplaceLedger(t: Table, m: Msg)
    requires m.Replace?
    ensures LiveQty(t) + Inserted(t, m) == LiveQty(Orders.Step(t, Plain(m))) + Executed(t, m) + Removed(t, m)
  {
    var o, n := m.orig, m.number;
    if o in t {
      Drop(t, o, Qty());
      Put(t - {o}, n, Replaced(m, t[o]), Qty());
      Drop(t - {o}, n, Qty());
    }
  }

  /** Totals over a run from the empty market. */
  function SumOver(f: (Table, Msg) -> nat, ms: seq<Msg>): nat {
    if ms == [] then 0 else SumOver(f, ms[..|ms| - 1]) + f(Retable(map[], ms[..|ms| - 1]), ms[|ms| - 1])
  }

  /** Quantity is conserved: whatever was inserted is live, executed or removed;
      and what was executed is what the tape holds, in total and book by book. */
  lemma {:induction false} Conservation(ms: seq<Msg>)
    requires AllPositiveQty(ms)
    ensures var r := Run(Blank, ms);
            && SumOver(Inserted, ms) == LiveQty(r.market.store.orders) + SumOver(Executed, ms) + SumOver(Removed, ms)
            && r.market.tape.volume == SumOver(Executed, ms)
            && Total(r.market.tape.stats, VolumeOf()) == SumOver(Executed, ms)
            && Volume(r.trades) == SumOver(Executed, ms)
  {
    EmptyAgrees();
    RunParts(Blank, ms);
    RunTape(Blank, ms);
    TapeClosed(Run(Blank, ms).trades);
    VolumesAddUp(Run(Blank, ms).trades);
    RunLedger(ms);
    RunVolume(ms);
  }

  lemma {:induction false} RunLedger(ms: seq<Msg>)
    requires AllPositiveQty(ms)
    ensures SumOver(Inserted, ms) == LiveQty(Retable(map[], ms)) + SumOver(Executed, ms) + SumOver(Removed, ms)
  {
    if ms != [] {
      RunLedger(ms[..|ms| - 1]);
      StepLedger(Retable(map[], ms[..|ms| - 1]), ms[|ms| - 1]);
    }
  }

  lemma {:induction false} RunVolume(ms: seq<Msg>)
    requires AllPositiveQty(ms)
    ensures Volume(Run(Blank, ms).trades) == SumOver(Executed, ms)
  {
    if ms != [] {
      var front, m := ms[..|ms| - 1], ms[|ms| - 1];
      var r := Run(Blank, front);
      RunVolume(front);
      EmptyAgrees();
      RunParts(Blank, front);
      StepTrades(r.market, m);
      VolumeSplit(r.trades, Apply(r.market, m).trades);
    }
  }

  lemma StepTrades(mk: Market, m: Msg)
    requires Sound(mk.store) && PositiveQty(m)
    ensures Volume(Apply(mk, m).trades) == Executed(mk.store.orders, m)
  {
    StepSound(mk.store, m);
    var ts := Apply(mk, m).trades;
    if ts != [] { assert ts[..|ts| - 1] == []; }
  }

  lemma VolumeSplit(a: seq<Trade>, b: seq<Trade>)
    requires |b| <= 1
    ensures Volume(a + b) == Volume(a) + Volume(b)
  {
    if b == [] {
      assert a + b == a;
    } else {
      assert (a + b)[..|a|] == a && b[..0] == [];
    }
  }
}

/** The snapshot a joiner is sent, and what it gives. */
module Snapshot {
  import opened Itch
  import opened Orders
  import opened BookModel
  import opened TapeModel
  import opened MarketModel
  import opened TableModel
  import Uptick

  function Clock(r: Refs): seq<Msg> {
    if r.seconds == 0 then [] else [Seconds(r.seconds)]
  }

  function TickRow(r: Refs, k: TickKey): Msg
    requires k in r.ticks
  {
    TickSize(k.table, k.start, r.ticks[k])
  }

  function TickRows(r: Refs, rows: seq<TickKey>): seq<Msg>
    requires forall k :: k in rows ==> k in r.ticks
  {
    seq(|rows|, i requires 0 <= i < |rows| => TickRow(r, rows[i]))
  }

  function GroupText(i: Instrument): string {
    if i.group.Some? then i.group.value else ""
  }

  /** One instrument: directory if described, both states, reference price if known. */
  function Block(id: string, i: Instrument): seq<Msg> {
    var g := GroupText(i);
    (if i.info.Some? then [Directory(id, g, i.info.value)] else [])
    + [TradingState(id, g, i.trading), ShortSell(id, g, i.shortSell)]
    + (if i.reference.Some? then [Add(0, id, g, 'B', i.reference.value, 0, false, ' ')] else [])
  }

  function Blocks(r: Refs, ids: seq<string>): seq<Msg>
    requires forall id :: id in ids ==> id in r.insts
  {
    if ids == [] then [] else Block(ids[0], r.insts[ids[0]]) + Blocks(r, ids[1..])
  }

  function OrderMsg(t: Table, n: nat): Msg
    requires n in t
  {
    Add(n, t[n].book, t[n].group, t[n].side, t[n].price, t[n].qty, false, ' ')
  }

  function OrderMsgs(t: Table, nums: seq<nat>): seq<Msg>
    requires forall n :: n in nums ==> n in t
  {
    seq(|nums|, i requires 0 <= i < |nums| => OrderMsg(t, nums[i]))
  }

  /** The order in which the dictionaries are walked; any order will do. */
  datatype Walk = Walk(rows: seq<TickKey>, ids: seq<string>, nums: seq<nat>)

  ghost predicate Covers(mk: Market, w: Walk) {
    && (forall k :: k in w.rows <==> k in mk.refs.ticks)
    && (forall id :: id in w.ids <==> id in mk.refs.insts)
    && (forall n :: n in w.nums <==> n in mk.store.orders)
  }

  ghost function Snap(mk: Market, w: Walk): seq<Msg>
    requires Covers(mk, w)
  {
    Clock(mk.refs) + TickRows(mk.refs, w.rows) + Blocks(mk.refs, w.ids) + OrderMsgs(mk.store.orders, w.nums)
  }

  /** What a joiner must share with a market that saw everything. */
  predicate Same(a: Market, b: Market) {
    && a.store == b.store
    && a.refs.insts == b.refs.insts && a.refs.ticks == b.refs.ticks && a.refs.seconds == b.refs.seconds
  }

  // --- reference data -------------------------------------------------------------

  lemma {:induction false} TicksBack(r: Refs, s: Refs, rows: seq<TickKey>)
    requires forall k :: k in rows ==> k in s.ticks
    ensures Refold(r, TickRows(s, rows)) == r.(ticks := r.ticks + Pick(s.ticks, rows))
  {
    if rows == [] {
      assert r.ticks + Pick(s.ticks, rows) == r.ticks;
    } else {
      var front, k := rows[..|rows| - 1], rows[|rows| - 1];
      assert TickRows(s, rows)[..|rows| - 1] == TickRows(s, front);
      TicksBack(r, s, front);
      PickLast(r.ticks, s.ticks, rows);
    }
  }

  lemma PickLast<K, V>(m: map<K, V>, f: map<K, V>, keys: seq<K>)
    requires keys != [] && forall k :: k in keys ==> k in f
    ensures var n := |keys| - 1; (m + Pick(f, keys[..n]))[keys[n] := f[keys[n]]] == m + Pick(f, keys)
  {
    var n := |keys| - 1;
    assert forall k :: k in keys <==> k == keys[n] || k in keys[..n];
  }

  lemma RefoldOne(r: Refs, m: Msg)
    ensures Refold(r, [m]) == RefStep(r, m)
  {
    assert [m][..0] == [];
  }

  /** The directory and state messages rebuild all but the reference price. */
  lemma StatesBack(r: Refs, id: string, i: Instrument, a: seq<Msg>)
    requires i.group.Some? && (id in r.insts ==> r.insts[id] == i)
    requires a == if i.info.Some? then [Directory(id, GroupText(i), i.info.value)] else []
    ensures var h, y := TradingState(id, GroupText(i), i.trading), ShortSell(id, GroupText(i), i.shortSell);
            Refold(r, a + [h, y]) == SetInst(r, id, i.(reference := Get(r, id).reference))
  {
    var h, y := TradingState(id, GroupText(i), i.trading), ShortSell(id, GroupText(i), i.shortSell);
    RefoldSplit(r, a, [h, y]);
    if a != [] { RefoldOne(r, a[0]); }
    RefoldTwo(Refold(r, a), h, y);
    StatesSet(r, Refold(r, a), id, i);
  }

  lemma RefoldTwo(r: Refs, m: Msg, n: Msg)
    ensures Refold(r, [m, n]) == RefStep(RefStep(r, m), n)
  {
    assert [m, n] == [m] + [n];
    RefoldSplit(r, [m], [n]);
    RefoldOne(r, m);
    RefoldOne(RefStep(r, m), n);
  }

  lemma StatesSet(r: Refs, r1: Refs, id: string, i: Instrument)
    requires i.group.Some? && (id in r.insts ==> r.insts[id] == i)
    requires r1 == if i.info.Some? then RefStep(r, Directory(id, GroupText(i), i.info.value)) else r
    ensures var h, y := TradingState(id, GroupText(i), i.trading), ShortSell(id, GroupText(i), i.shortSell);
            RefStep(RefStep(r1, h), y) == SetInst(r, id, i.(reference := Get(r, id).reference))
  {
    var h, y := TradingState(id, GroupText(i), i.trading), ShortSell(id, GroupText(i), i.shortSell);
    assert RefStep(RefStep(r1, h), y).insts == r.insts[id := i.(reference := Get(r, id).reference)];
  }

  /** An instrument's block rebuilds it, from nothing or over itself. */
  lemma BlockBack(r: Refs, id: string, i: Instrument)
    requires i.group.Some? && (id in r.insts ==> r.insts[id] == i)
    ensures Refold(r, Block(id, i)) == SetInst(r, id, i)
  {
    var g := GroupText(i);
    var a: seq<Msg> := if i.info.Some? then [Directory(id, g, i.info.value)] else [];
    var b := [TradingState(id, g, i.trading), ShortSell(id, g, i.shortSell)];
    var c: seq<Msg> := if i.reference.Some? then [Add(0, id, g, 'B', i.reference.value, 0, false, ' ')] else [];
    RefoldSplit(r, a + b, c);
    StatesBack(r, id, i, a);
    var r2 := Refold(r, a + b);
    if c != [] { RefoldOne(r2, c[0]); }
    assert Refold(r2, c).insts == r.insts[id := i];
  }

  lemma {:induction false} BlocksBack(r: Refs, s: Refs, ids: seq<string>)
    requires forall id :: id in ids ==> id in s.insts && s.insts[id].group.Some?
    requires forall id :: id in r.insts ==> id in s.insts && r.insts[id] == s.insts[id]
    ensures Refold(r, Blocks(s, ids)) == r.(insts := r.insts + Pick(s.insts, ids))
    decreases |ids|
  {
    if ids == [] {
      assert r.insts + Pick(s.insts, ids) == r.insts;
    } else {
      var id := ids[0];
      RefoldSplit(r, Block(id, s.insts[id]), Blocks(s, ids[1..]));
      BlockBack(r, id, s.insts[id]);
      PickNext(r.insts, s.insts, ids);
      BlocksBack(SetInst(r, id, s.insts[id]), s, ids[1..]);
    }
  }

  lemma {:induction false} OrdersLeaveRefs(r: Refs, t: Table, nums: seq<nat>)
    requires 0 !in nums && forall n :: n in nums ==> n in t
    ensures Refold(r, OrderMsgs(t, nums)) == r
  {
    if nums != [] {
      assert OrderMsgs(t, nums)[..|nums| - 1] == OrderMsgs(t, nums[..|nums| - 1]);
      OrdersLeaveRefs(r, t, nums[..|nums| - 1]);
    }
  }

  // --- orders ---------------------------------------------------------------------

  /** Messages that put nothing in the order table. */
  lemma {:induction false} OthersLeaveOrders(t: Table, ms: seq<Msg>)
    requires forall i :: 0 <= i < |ms| ==>
               !ms[i].Exec? && !ms[i].Delete? && !ms[i].Replace? && (ms[i].Add? ==> ms[i].number == 0)
    ensures Retable(t, ms) == t
  {
    if ms != [] { OthersLeaveOrders(t, ms[..|ms| - 1]); }
  }

  lemma PickNonZero(t: Table, nums: seq<nat>)
    requires nums != [] && forall n :: n in nums ==> n in t
    ensures var k := |nums| - 1;
            var front := Pick(t, nums[..k]) - {0};
            Pick(t, nums) - {0} == if nums[k] == 0 then front else front[nums[k] := t[nums[k]]]
  {
    var k := |nums| - 1;
    assert forall n :: n in nums <==> n == nums[k] || n in nums[..k];
  }

  /** Order messages install the orders they name, but never number zero. */
  lemma {:induction false} OrdersBack(t: Table, nums: seq<nat>)
    requires forall n :: n in nums ==> n in t && t[n].kind == ' '
    ensures Retable(map[], OrderMsgs(t, nums)) == Pick(t, nums) - {0}
  {
    if nums != [] {
      var k := |nums| - 1;
      assert OrderMsgs(t, nums)[..k] == OrderMsgs(t, nums[..k]);
      OrdersBack(t, nums[..k]);
      PickNonZero(t, nums);
      var m := OrderMsg(t, nums[k]);
      assert Added(Plain(m)) == t[nums[k]];
    }
  }

  lemma {:induction false} BlocksShape(r: Refs, ids: seq<string>)
    requires forall id :: id in ids ==> id in r.insts
    ensures forall m :: m in Blocks(r, ids) ==> !m.Exec? && !m.Delete? && !m.Replace? && (m.Add? ==> m.number == 0)
    decreases |ids|
  {
    if ids != [] { BlocksShape(r, ids[1..]); }
  }

  // --- the joiner -------------------------------------------------------------------

  /** What replaying keeps: every known instrument has a group, and orders carry
      no order type. */
  ghost predicate Regular(mk: Market) {
    && Sound(mk.store)
    && (forall id :: id in mk.refs.insts ==> mk.refs.insts[id].group.Some?)
    && (forall n :: n in mk.store.orders ==> mk.store.orders[n].kind == ' ')
  }

  lemma StepRegular(mk: Market, m: Msg)
    requires Regular(mk) && PositiveQty(m)
    ensures Regular(MarketModel.Apply(mk, m).market) && MarketModel.Apply(mk, m).fault.NoFault?
  {
    StepSound(mk.store, m);
    var t := Orders.Step(mk.store.orders, Plain(m));
    assert forall n :: n in t ==> t[n].kind == ' ';
  }

  lemma {:induction false} RunRegular(ms: seq<Msg>)
    requires AllPositiveQty(ms)
    ensures Regular(Run(MarketModel.Blank, ms).market) && Run(MarketModel.Blank, ms).fault.NoFault?
  {
    if ms == [] {
      EmptyAgrees();
    } else {
      RunRegular(ms[..|ms| - 1]);
      StepRegular(Run(MarketModel.Blank, ms[..|ms| - 1]).market, ms[|ms| - 1]);
    }
  }

  lemma SnapPositive(mk: Market, w: Walk)
    requires Regular(mk) && Covers(mk, w)
    ensures AllPositiveQty(Snap(mk, w))
  {
    BlocksShape(mk.refs, w.ids);
    var out := Snap(mk, w);
    forall i | 0 <= i < |out|
      ensures PositiveQty(out[i])
    {
      assert out[i] in Clock(mk.refs) || out[i] in TickRows(mk.refs, w.rows) || out[i] in Blocks(mk.refs, w.ids)
          || out[i] in OrderMsgs(mk.store.orders, w.nums);
    }
  }

  lemma SnapOrders(mk: Market, w: Walk)
    requires Regular(mk) && Covers(mk, w)
    ensures Retable(map[], Snap(mk, w)) == mk.store.orders - {0}
  {
    var head := Clock(mk.refs) + TickRows(mk.refs, w.rows) + Blocks(mk.refs, w.ids);
    BlocksShape(mk.refs, w.ids);
    forall i | 0 <= i < |head|
      ensures !head[i].Exec? && !head[i].Delete? && !head[i].Replace? && (head[i].Add? ==> head[i].number == 0)
    {
      assert head[i] in Clock(mk.refs) || head[i] in TickRows(mk.refs, w.rows) || head[i] in Blocks(mk.refs, w.ids);
    }
    OthersLeaveOrders(map[], head);
    RetableSplit(map[], head, OrderMsgs(mk.store.orders, w.nums));
    OrdersBack(mk.store.orders, w.nums);
    PickAll(mk.store.orders, w.nums);
  }

  /** Clock, tick rows and instruments, before the orders. */
  ghost function SnapFront(mk: Market, w: Walk): seq<Msg>
    requires Covers(mk, w)
  {
    Clock(mk.refs) + TickRows(mk.refs, w.rows) + Blocks(mk.refs, w.ids)
  }

  lemma FrontRefs(mk: Market, w: Walk)
    requires Regular(mk) && Covers(mk, w)
    ensures var r := Refold(MarketModel.Blank.refs, SnapFront(mk, w));
            r.insts == mk.refs.insts && r.ticks == mk.refs.ticks && r.seconds == mk.refs.seconds
  {
    var r0 := MarketModel.Blank.refs;
    var a, b, c := Clock(mk.refs), TickRows(mk.refs, w.rows), Blocks(mk.refs, w.ids);
    RefoldSplit(r0, a + b, c);
    RefoldSplit(r0, a, b);
    var r1 := Refold(r0, a);
    assert r1 == r0.(seconds := mk.refs.seconds) by { assert a != [] ==> a[..0] == []; }
    TicksBack(r1, mk.refs, w.rows);
    PickAll(mk.refs.ticks, w.rows);
    BlocksBack(Refold(r0, a + b), mk.refs, w.ids);
    PickAll(mk.refs.insts, w.ids);
  }

  lemma SnapRefs(mk: Market, w: Walk)
    requires Regular(mk) && Covers(mk, w) && 0 !in mk.store.orders
    ensures var r := Refold(MarketModel.Blank.refs, Snap(mk, w));
            r.insts == mk.refs.insts && r.ticks == mk.refs.ticks && r.seconds == mk.refs.seconds
  {
    var r0 := MarketModel.Blank.refs;
    RefoldSplit(r0, SnapFront(mk, w), OrderMsgs(mk.store.orders, w.nums));
    FrontRefs(mk, w);
    OrdersLeaveRefs(Refold(r0, SnapFront(mk, w)), mk.store.orders, w.nums);
  }

  /** A fresh market fed the snapshot raises nothing, trades nothing, and is the
      same as the one that replayed the prefix exactly when no live order has
      number zero. */
  lemma SnapshotSame(ms: seq<Msg>, w: Walk)
    requires AllPositiveQty(ms) && Covers(Run(MarketModel.Blank, ms).market, w)
    ensures var mk := Run(MarketModel.Blank, ms).market;
            var r := Run(MarketModel.Blank, Snap(mk, w));
            && r.fault.NoFault? && r.trades == []
            && (Same(mk, r.market) <==> 0 !in mk.store.orders)
  {
    RunRegular(ms);
    SnapResult(Run(MarketModel.Blank, ms).market, w);
    SnapTrades(Run(MarketModel.Blank, ms).market, w);
  }

  lemma SnapResult(mk: Market, w: Walk)
    requires Regular(mk) && Covers(mk, w)
    ensures var r := Run(MarketModel.Blank, Snap(mk, w));
            r.fault.NoFault? && (Same(mk, r.market) <==> 0 !in mk.store.orders)
  {
    SnapPositive(mk, w);
    SnapOrders(mk, w);
    EmptyAgrees();
    RunParts(MarketModel.Blank, Snap(mk, w));
    var r := Run(MarketModel.Blank, Snap(mk, w));
    assert r.market.store.orders == mk.store.orders - {0};
    if 0 !in mk.store.orders {
      SnapRefs(mk, w);
      assert mk.store.orders - {0} == mk.store.orders;
      SameLevels(mk.store, r.market.store);
    }
  }

  lemma {:induction false} NoExecNoTrades(mk: Market, ms: seq<Msg>)
    requires forall i :: 0 <= i < |ms| ==> !ms[i].Exec?
    ensures Run(mk, ms).trades == []
  {
    if ms != [] { NoExecNoTrades(mk, ms[..|ms| - 1]); }
  }

  lemma SnapTrades(mk: Market, w: Walk)
    requires Covers(mk, w)
    ensures Run(MarketModel.Blank, Snap(mk, w)).trades == []
  {
    BlocksShape(mk.refs, w.ids);
    var out := Snap(mk, w);
    forall i | 0 <= i < |out|
      ensures !out[i].Exec?
    {
      assert out[i] in Clock(mk.refs) || out[i] in TickRows(mk.refs, w.rows) || out[i] in Blocks(mk.refs, w.ids)
          || out[i] in OrderMsgs(mk.store.orders, w.nums);
    }
    NoExecNoTrades(MarketModel.Blank, out);
  }

  lemma StepSame(a: Market, b: Market, m: Msg)
    requires Same(a, b)
    ensures var x, y := MarketModel.Apply(a, m), MarketModel.Apply(b, m);
            Same(x.market, y.market) && x.fault == y.fault && x.execution == y.execution && x.trades == y.trades
  {
  }

  /** The relation is kept by every message, which is answered alike. */
  lemma {:induction false} RunSame(a: Market, b: Market, ms: seq<Msg>)
    requires Same(a, b)
    ensures var x, y := Run(a, ms), Run(b, ms);
            Same(x.market, y.market) && x.fault == y.fault && x.executions == y.executions && x.trades == y.trades
  {
    if ms != [] {
      var front := ms[..|ms| - 1];
      RunSame(a, b, front);
      StepSame(Run(a, front).market, Run(b, front).market, ms[|ms| - 1]);
    }
  }

  /** The two runs, split at the cut. */
  lemma JoinTraces(pre: seq<Msg>, post: seq<Msg>, w: Walk)
    requires AllPositiveQty(pre) && Covers(Run(MarketModel.Blank, pre).market, w)
    ensures var cut := Run(MarketModel.Blank, pre);
            var snap := Run(MarketModel.Blank, Snap(cut.market, w));
            && snap.trades == []
            && Run(MarketModel.Blank, pre + post) == Chain(cut, Run(cut.market, post))
            && Run(MarketModel.Blank, Snap(cut.market, w) + post) == Chain(snap, Run(snap.market, post))
  {
    RunRegular(pre);
    SnapshotSame(pre, w);
    RunSplit(MarketModel.Blank, pre, post);
    RunSplit(MarketModel.Blank, Snap(Run(MarketModel.Blank, pre).market, w), post);
  }

  /** Joining at a cut: from there on the joiner matches the full replay message
      by message, and trades exactly what the full replay trades after the cut. */
  lemma JoinerMatches(pre: seq<Msg>, post: seq<Msg>, w: Walk)
    requires AllPositiveQty(pre) && Covers(Run(MarketModel.Blank, pre).market, w)
    requires 0 !in Run(MarketModel.Blank, pre).market.store.orders
    ensures var cut := Run(MarketModel.Blank, pre);
            var full := Run(MarketModel.Blank, pre + post);
            var joined := Run(MarketModel.Blank, Snap(cut.market, w) + post);
            Same(full.market, joined.market) && full.fault == joined.fault && full.trades == cut.trades + joined.trades
  {
    var cut := Run(MarketModel.Blank, pre);
    var snap := Run(MarketModel.Blank, Snap(cut.market, w));
    JoinTraces(pre, post, w);
    assert Same(cut.market, snap.market) by { SnapshotSame(pre, w); }
    RunSame(cut.market, snap.market, post);
    ChainSame(cut, snap, Run(cut.market, post), Run(snap.market, post));
  }

  lemma ChainSame(cut: Trace, snap: Trace, x: Trace, y: Trace)
    requires snap.trades == [] && Same(x.market, y.market) && x.fault == y.fault && x.trades == y.trades
    ensures var full, joined := Chain(cut, x), Chain(snap, y);
            Same(full.market, joined.market) && full.fault == joined.fault && full.trades == cut.trades + joined.trades
  {
    assert snap.trades + y.trades == y.trades;
  }

  /** So its tape records exactly the trades after the cut. */
  lemma JoinerTape(pre: seq<Msg>, post: seq<Msg>, w: Walk)
    requires AllPositiveQty(pre) && Covers(Run(MarketModel.Blank, pre).market, w)
    requires 0 !in Run(MarketModel.Blank, pre).market.store.orders
    ensures var cut := Run(MarketModel.Blank, pre);
            var full := Run(MarketModel.Blank, pre + post);
            && cut.trades <= full.trades
            && Run(MarketModel.Blank, Snap(cut.market, w) + post).market.tape
               == RecordAll(TapeModel.Blank, full.trades[|cut.trades|..])
  {
    JoinerMatches(pre, post, w);
    RunTape(MarketModel.Blank, Snap(Run(MarketModel.Blank, pre).market, w) + post);
  }

  /** The joiner's short-sell flag of a book agrees with the full replay's exactly
      when a trade it saw moved from another it saw, or both gave the first trade
      it saw the same flag. */
  lemma JoinerUptick(pre: seq<Msg>, post: seq<Msg>, w: Walk, b: string)
    requires AllPositiveQty(pre) && Covers(Run(MarketModel.Blank, pre).market, w)
    requires 0 !in Run(MarketModel.Blank, pre).market.store.orders
    requires OfBook(Run(MarketModel.Blank, Snap(Run(MarketModel.Blank, pre).market, w) + post).trades, b) != []
    ensures var cut := Run(MarketModel.Blank, pre);
            var full := Run(MarketModel.Blank, pre + post);
            var joined := Run(MarketModel.Blank, Snap(cut.market, w) + post);
            && b in full.market.tape.stats && b in joined.market.tape.stats
            && var t, ps := Uptick.Run(Uptick.PYTHON, Uptick.Opening, Prints(OfBook(cut.trades, b))),
                 Prints(OfBook(joined.trades, b));
               full.market.tape.stats[b].uptick == joined.market.tape.stats[b].uptick <==>
                 || (exists i :: 0 < i < |ps| && Uptick.Moves(Uptick.PYTHON, t, ps, i))
                 || Uptick.FlagAfter(Uptick.PYTHON, t, ps[0])
                    == (ps[0].base.Some? && ps[0].base.value != Uptick.NO_PRICE && ps[0].price > ps[0].base.value)
  {
    var cut := Run(MarketModel.Blank, pre);
    var seen := Run(MarketModel.Blank, Snap(cut.market, w) + post).trades;
    JoinerMatches(pre, post, w);
    RunTape(MarketModel.Blank, pre + post);
    RunTape(MarketModel.Blank, Snap(cut.market, w) + post);
    LateTape(cut.trades, seen, b);
  }

  /** A replacement may take number zero, and then the snapshot cannot carry it. */
  lemma NumberZeroIsReachable()
    ensures var ms := [Add(7, "8306", "DAY", 'B', 100, 5, false, ' '), Replace(7, 0, 101, 5)];
            AllPositiveQty(ms) && 0 in Run(MarketModel.Blank, ms).market.store.orders
  {
    var ms := [Add(7, "8306", "DAY", 'B', 100, 5, false, ' '), Replace(7, 0, 101, 5)];
    EmptyAgrees();
    RunParts(MarketModel.Blank, ms);
    assert ms[..1] == [ms[0]] && ms[..1][..0] == [];
    assert 7 in Retable(map[], ms[..1]);
  }
}
