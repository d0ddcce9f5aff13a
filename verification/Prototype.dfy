/** One tick-size table: two parallel lists kept by binary search. */
module TickTables {
  import Bisect
  import opened Itch
  import opened OrderBook

  /** The rows that lists of starts and sizes hold. */
  function Rows(starts: seq<nat>, sizes: seq<nat>): map<nat, nat>
    requires |starts| == |sizes|
  {
    if starts == [] then map[]
    else
      var n := |starts| - 1;
      Rows(starts[..n], sizes[..n])[starts[n] := sizes[n]]
  }

  lemma {:induction false} RowsAt(starts: seq<nat>, sizes: seq<nat>)
    requires |starts| == |sizes| && Bisect.Ascending(starts)
    ensures forall p :: p in Rows(starts, sizes) <==> p in starts
    ensures forall i :: 0 <= i < |starts| ==>
              starts[i] in Rows(starts, sizes) && Rows(starts, sizes)[starts[i]] == sizes[i]
  {
    if starts != [] {
      var n := |starts| - 1;
      RowsAt(starts[..n], sizes[..n]);
      assert forall p :: p in starts <==> p == starts[n] || p in starts[..n];
    }
  }

  /** `start` is where the row in force at `price` begins. */
  ghost predicate InForce(rows: map<nat, nat>, price: nat, start: nat) {
    && start in rows && start <= price
    && forall s :: s in rows && s <= price ==> s <= start
  }

  /** The latest size written for each start, whatever the order of writes. */
  function Written(writes: seq<(nat, nat)>): map<nat, nat> {
    if writes == [] then map[]
    else
      var n := |writes| - 1;
      Written(writes[..n])[writes[n].0 := writes[n].1]
  }

  /** `Written` keeps, for every start, the size of its last write. */
  lemma {:induction false} WrittenLast(writes: seq<(nat, nat)>, start: nat)
    ensures start in Written(writes) <==> exists i :: 0 <= i < |writes| && writes[i].0 == start
    ensures forall i | 0 <= i < |writes| && writes[i].0 == start ::
              (forall j :: i < j < |writes| ==> writes[j].0 != start) ==>
              Written(writes)[start] == writes[i].1
  {
    if writes != [] {
      var n := |writes| - 1;
      var front := writes[..n];
      WrittenLast(front, start);
      if start in Written(front) {
        var i :| 0 <= i < |front| && front[i].0 == start;
        assert writes[i].0 == start;
      }
      if i :| 0 <= i < n && writes[i].0 == start {
        assert front[i].0 == start;
      }
      forall i | 0 <= i < n && writes[i].0 == start && (forall j :: i < j < |writes| ==> writes[j].0 != start)
        ensures Written(writes)[start] == writes[i].1
      {
        assert front[i].0 == start && writes[n].0 != start;
        assert forall j :: i < j < |front| ==> front[j].0 != start;
      }
    }
  }

  class TickTable {
    var starts: seq<nat>
    var sizes: seq<nat>

    /** The lists are aligned and strictly ascending. */
    ghost predicate Valid()
      reads this
    {
      |starts| == |sizes| && Bisect.Ascending(starts)
    }

    ghost function View(): map<nat, nat>
      requires Valid()
      reads this
    {
      Rows(starts, sizes)
    }

    constructor ()
      ensures Valid() && View() == map[]
    {
      starts, sizes := [], [];
    }

    method Add(start: nat, size: nat)
      requires Valid()
      modifies this
      ensures Valid() && View() == old(View())[start := size]
    {
      var i := Bisect.Left(starts, start);
      if i < |starts| && starts[i] == start {
        Overwritten(starts, sizes, i, size);
        sizes := sizes[i := size];
      } else {
        starts := InsertAt(starts, i, start);
        sizes := InsertAt(sizes, i, size);
        Inserted(old(starts), old(sizes), i, start, size);
        InsertKeeps(old(starts), i, start);
      }
    }

    /** The size in force at a price: that of the greatest start not above it. */
    method TickSize(price: nat) returns (r: Option<nat>)
      requires Valid()
      ensures r.None? <==> forall s :: s in View() ==> s > price
      ensures r.Some? ==> exists s :: InForce(View(), price, s) && View()[s] == r.value
    {
      RowsAt(starts, sizes);
      var i := Bisect.Right(starts, price);
      if i == 0 {
        return None;
      }
      r := Some(sizes[i - 1]);
      assert InForce(View(), price, starts[i - 1]);
    }
  }

  /** A table fed rows in any order, with repeats, holds the last size written
      for each start. */
  method Build(writes: seq<(nat, nat)>) returns (t: TickTable)
    ensures fresh(t) && t.Valid() && t.View() == Written(writes)
  {
    t := new TickTable();
    for i := 0 to |writes|
      invariant fresh(t) && t.Valid() && t.View() == Written(writes[..i])
    {
      t.Add(writes[i].0, writes[i].1);
      assert writes[..i + 1][..i] == writes[..i];
    }
    assert writes[..|writes|] == writes;
  }

  lemma Commutes(m: map<nat, nat>, j: nat, x: nat, k: nat, y: nat)
    requires j != k
    ensures m[j := x][k := y] == m[k := y][j := x]
  {
  }

  /** Replacing the size at an index is writing it. */
  lemma {:induction false} Overwritten(starts: seq<nat>, sizes: seq<nat>, i: nat, size: nat)
    requires |starts| == |sizes| && i < |starts| && Bisect.Ascending(starts)
    ensures Rows(starts, sizes[i := size]) == Rows(starts, sizes)[starts[i] := size]
    decreases |starts|
  {
    var n := |starts| - 1;
    if i == n {
      assert sizes[i := size][..n] == sizes[..n];
    } else {
      assert sizes[i := size][..n] == sizes[..n][i := size];
      Overwritten(starts[..n], sizes[..n], i, size);
      Commutes(Rows(starts[..n], sizes[..n]), starts[i], size, starts[n], sizes[n]);
    }
  }

  /** Inserting a row in place is writing it. */
  lemma {:induction false} Inserted(starts: seq<nat>, sizes: seq<nat>, i: nat, start: nat, size: nat)
    requires |starts| == |sizes| && i <= |starts|
    requires forall j :: i <= j < |starts| ==> start < starts[j]
    ensures Rows(InsertAt(starts, i, start), InsertAt(sizes, i, size)) == Rows(starts, sizes)[start := size]
    decreases |starts|
  {
    var a, b := InsertAt(starts, i, start), InsertAt(sizes, i, size);
    var n := |starts|;
    if i == n {
      assert a[..n] == starts && b[..n] == sizes;
    } else {
      var s, z := starts[..n - 1], sizes[..n - 1];
      assert a[..n] == InsertAt(s, i, start) && b[..n] == InsertAt(z, i, size);
      Inserted(s, z, i, start, size);
      assert a[n] == starts[n - 1] && b[n] == sizes[n - 1];
      Commutes(Rows(s, z), start, size, starts[n - 1], sizes[n - 1]);
    }
  }
}

/** The prototype's market, updated in place. */
module Prototype {
  import opened Itch
  import opened Orders
  import opened BookModel
  import opened TapeModel
  import opened MarketModel
  import opened OrderBook
  import opened Uptick
  import Snapshot

  class TradeTape {
    var entries: seq<Entry>
    var stats: map<string, BookStats>
    var count: nat
    var volume: nat

    ghost function View(): Tape
      reads this
    {
      Tape(entries, stats, count, volume)
    }

    constructor ()
      ensures View() == TapeModel.Blank
    {
      entries, stats, count, volume := [], map[], 0, 0;
    }

    method Record(t: Trade)
      modifies this
      ensures View() == TapeModel.Record(old(View()), t)
    {
      entries := Push(entries, EntryOf(t));
      count := count + 1;
      volume := volume + t.qty;
      var s := if t.book in stats then stats[t.book] else NoTrades;
      var up := s.uptick;
      var ltp := if s.last.Some? then s.last else t.base;
      if ltp.Some? && ltp.value != NO_PRICE {
        if t.price > ltp.value {
          up := true;
        } else if t.price < ltp.value {
          up := false;
        }
      }
      stats := stats[t.book := BookStats(s.count + 1, s.volume + t.qty, s.notional + t.price * t.qty, Some(t.price),
        Some(t.qty), up)];
    }
  }

  class MarketState {
    var refs: Refs
    var store: OrderBookStore
    var tape: TradeTape

    ghost predicate Valid()
      reads this, store, store.sides, tape
    {
      store.Valid()
    }

    ghost function View(): Market
      reads this, store, tape
    {
      Market(refs, store.view, tape.View())
    }

    constructor ()
      ensures Valid() && View() == MarketModel.Blank && fresh(store) && fresh(store.sides) && fresh(tape)
    {
      refs := MarketModel.Blank.refs;
      store := new OrderBookStore();
      tape := new TradeTape();
    }

    /** An execution: the store resolves the order, and the trade is recorded. */
    method ApplyExec(m: Msg) returns (fault: Fault, e: Option<Execution>)
      requires Valid() && m.Exec?
      modifies store, store.sides, tape
      ensures Valid() && fresh(store.sides - old(store.sides)) && store == old(store) && tape == old(tape)
      ensures var r := MarketModel.Apply(old(View()), m); fault == r.fault && e == r.execution && View() == r.market
    {
      ghost var start := tape.View();
      assert RecordAll(start, []) == start;
      fault, e := store.Apply(m);
      if e.Some? {
        var t := TradeOf(refs, m, e.value);
        assert [t][..0] == [];
        tape.Record(t);
      }
    }

    /** An order message that is not an execution. */
    method ApplyBook(m: Msg) returns (fault: Fault, e: Option<Execution>)
      requires Valid() && ((m.Add? && (m.number != 0 || m.attributed)) || m.Delete? || m.Replace?)
      modifies store, store.sides
      ensures Valid() && fresh(store.sides - old(store.sides)) && store == old(store)
      ensures var r := MarketModel.Apply(old(View()), m); fault == r.fault && e == r.execution && View() == r.market
    {
      assert RecordAll(tape.View(), []) == tape.View();
      fault, e := store.Apply(Plain(m));
    }

    /** Anything else leaves the store and the tape alone. */
    method ApplyRefs(m: Msg)
      requires Valid() && !m.Exec? && !m.Delete? && !m.Replace? && (m.Add? ==> m.number == 0 && !m.attributed)
      modifies this`refs
      ensures Valid()
      ensures MarketModel.Apply(old(View()), m) == MarketModel.Step(View(), NoFault, None, [])
    {
      assert RecordAll(tape.View(), []) == tape.View();
      refs := RefStep(refs, m);
    }

    /** Routing: reference prices, orders, executions, and the rest. */
    method Apply(m: Msg) returns (fault: Fault, e: Option<Execution>)
      requires Valid()
      modifies this`refs, store, store.sides, tape
      ensures Valid() && fresh(store.sides - old(store.sides)) && store == old(store) && tape == old(tape)
      ensures var r := MarketModel.Apply(old(View()), m); fault == r.fault && e == r.execution && View() == r.market
    {
      if m.Exec? {
        fault, e := ApplyExec(m);
      } else if (m.Add? && (m.number != 0 || m.attributed)) || m.Delete? || m.Replace? {
        fault, e := ApplyBook(m);
      } else {
        ApplyRefs(m);
        fault, e := NoFault, None;
      }
    }

    /** Walk the dictionaries and re-emit the state. */
    method BuildSnapshot() returns (out: seq<Msg>, w: Snapshot.Walk)
      requires Valid()
      ensures Snapshot.Covers(View(), w) && out == Snapshot.Snap(View(), w)
    {
      var rows := SetToSeq(refs.ticks.Keys);
      var ids := SetToSeq(refs.insts.Keys);
      var nums := SetToSeq(store.orders.Keys);
      w := Snapshot.Walk(rows, ids, nums);
      var ticks := TickMessages(refs, rows);
      var blocks := BlockMessages(refs, ids);
      var live := OrderMessages(store.orders, nums);
      out := Snapshot.Clock(refs) + ticks + blocks + live;
    }
  }

  method TickMessages(refs: Refs, rows: seq<TickKey>) returns (out: seq<Msg>)
    requires forall k :: k in rows ==> k in refs.ticks
    ensures out == Snapshot.TickRows(refs, rows)
  {
    out := [];
    for i := 0 to |rows|
      invariant out == Snapshot.TickRows(refs, rows[..i])
    {
      out := out + [Snapshot.TickRow(refs, rows[i])];
    }
    assert rows[..|rows|] == rows;
  }

  method BlockMessages(refs: Refs, ids: seq<string>) returns (out: seq<Msg>)
    requires forall id :: id in ids ==> id in refs.insts
    ensures out == Snapshot.Blocks(refs, ids)
  {
    out := [];
    assert ids[0..] == ids;
    for i := 0 to |ids|
      invariant out + Snapshot.Blocks(refs, ids[i..]) == Snapshot.Blocks(refs, ids)
    {
      var block := Snapshot.Block(ids[i], refs.insts[ids[i]]);
      assert ids[i..][1..] == ids[i + 1..];
      assert (out + block) + Snapshot.Blocks(refs, ids[i + 1..])
             == out + (block + Snapshot.Blocks(refs, ids[i + 1..]));
      out := out + block;
    }
  }

  method OrderMessages(orders: Table, nums: seq<nat>) returns (out: seq<Msg>)
    requires forall n :: n in nums ==> n in orders
    ensures out == Snapshot.OrderMsgs(orders, nums)
  {
    out := [];
    for i := 0 to |nums|
      invariant out == Snapshot.OrderMsgs(orders, nums[..i])
    {
      out := out + [Snapshot.OrderMsg(orders, nums[i])];
    }
    assert nums[..|nums|] == nums;
  }

  /** The elements of a set in some order. */
  method SetToSeq<T(==)>(s: set<T>) returns (q: seq<T>)
    ensures forall x :: x in q <==> x in s
  {
    q := [];
    var rest := s;
    while rest != {}
      invariant rest <= s && forall x :: x in q <==> x in s - rest
      decreases rest
    {
      var x :| x in rest;
      q := q + [x];
      rest := rest - {x};
    }
  }
}
