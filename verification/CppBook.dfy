/** The feed handler's price levels: quantity and order count per price, and
    running totals per side.  They equal the sums over the live orders after any
    run with positive quantities, and after a recovery from order rows. */
module CppBook {
  import opened Itch
  import opened Orders
  import opened Records
  import opened Feed
  import opened BookRows
  import opened Totals

  datatype Level = Level(qty: nat, orders: nat)

  datatype Side = Side(levels: map<nat, Level>, totalQty: int, totalOrders: nat)

  const EmptySide := Side(map[], 0, 0)

  datatype Store = Store(orders: Table, sides: map<SideKey, Side>)

  const Empty := Store(map[], map[])

  function SideAdd(s: Side, price: nat, qty: nat): Side {
    var l := if price in s.levels then s.levels[price] else Level(0, 0);
    Side(s.levels[price := Level(l.qty + qty, l.orders + 1)], s.totalQty + qty, s.totalOrders + 1)
  }

  /** Whether `remove` does anything: it refuses a level that would go negative. */
  predicate CanRemove(s: Side, price: nat, qty: nat) {
    price in s.levels && s.levels[price].qty >= qty
  }

  function SideRemove(s: Side, price: nat, qty: nat, gone: bool): Side {
    if !CanRemove(s, price, qty) then s
    else
      var l := s.levels[price];
      var orders := if gone && l.orders > 0 then l.orders - 1 else l.orders;
      Side(if l.qty == qty then s.levels - {price} else s.levels[price := Level(l.qty - qty, orders)],
           s.totalQty - qty,
           if gone && s.totalOrders > 0 then s.totalOrders - 1 else s.totalOrders)
  }

  function SideOf(o: Order): SideKey {
    SideKey(o.book, o.side == 'B')
  }

  function SideAt(s: Store, k: SideKey): Side {
    if k in s.sides then s.sides[k] else EmptySide
  }

  function Place(s: Store, n: nat, o: Order): Store {
    Store(s.orders[n := o], s.sides[SideOf(o) := SideAdd(SideAt(s, SideOf(o)), o.price, o.qty)])
  }

  function Reduce(s: Store, n: nat, q: nat): Store
    requires n in s.orders && q <= s.orders[n].qty
  {
    var o := s.orders[n];
    Store(if q == o.qty then s.orders - {n} else s.orders[n := o.(qty := o.qty - q)],
          s.sides[SideOf(o) := SideRemove(SideAt(s, SideOf(o)), o.price, q, q == o.qty)])
  }

  function Remove(s: Store, n: nat): Store
    requires n in s.orders
  {
    Reduce(s, n, s.orders[n].qty)
  }

  function Insert(s: Store, n: nat, o: Order): Store {
    Place(if n in s.orders then Remove(s, n) else s, n, o)
  }

  function Apply(s: Store, m: Msg): Store {
    match m
    case Add(n, _, _, _, _, _, _, _) => if n == 0 then s else Insert(s, n, Added(m))
    case Exec(_, n, q, _) =>
      if n !in s.orders then s else Reduce(s, n, if q > s.orders[n].qty then s.orders[n].qty else q)
    case Delete(n) => if n !in s.orders then s else Remove(s, n)
    case Replace(o, n, _, _) => if o !in s.orders then s else Insert(Remove(s, o), n, Replaced(m, s.orders[o]))
    case _ => s
  }

  // --- agreement with the live orders ---------------------------------------------

  ghost predicate LevelAgrees(s: Side, orders: Table, k: SideKey, p: nat) {
    var key := LevelKey(k.book, k.bid, p);
    && (p in s.levels <==> Resting(orders, key) > 0)
    && (p in s.levels ==> s.levels[p] == Level(Resting(orders, key), Total(orders, CountAt(key))))
  }

  ghost predicate SideAgrees(s: Side, orders: Table, k: SideKey) {
    && (forall p :: LevelAgrees(s, orders, k, p))
    && s.totalQty == Total(orders, SideQty(k.book, k.bid))
    && s.totalOrders == Total(orders, SideCount(k.book, k.bid))
  }

  ghost predicate Agrees(s: Store) {
    forall k :: SideAgrees(SideAt(s, k), s.orders, k)
  }

  /** Putting `o` under a free number moves each sum by its own share. */
  lemma PutSums(t: Table, n: nat, o: Order, k: SideKey, p: nat)
    requires n !in t
    ensures var key := LevelKey(k.book, k.bid, p);
            && Resting(t[n := o], key) == Resting(t, key) + (if KeyOf(o) == key then o.qty else 0)
            && Total(t[n := o], CountAt(key)) == Total(t, CountAt(key)) + (if KeyOf(o) == key then 1 else 0)
            && Total(t[n := o], SideQty(k.book, k.bid))
                 == Total(t, SideQty(k.book, k.bid)) + (if SideOf(o) == k then o.qty else 0)
            && Total(t[n := o], SideCount(k.book, k.bid))
                 == Total(t, SideCount(k.book, k.bid)) + (if SideOf(o) == k then 1 else 0)
  {
    assert t - {n} == t;
    var key := LevelKey(k.book, k.bid, p);
    Put(t, n, o, QtyAt(key));
    Put(t, n, o, CountAt(key));
    Put(t, n, o, SideQty(k.book, k.bid));
    Put(t, n, o, SideCount(k.book, k.bid));
  }

  /** A level with an order of positive quantity counts at least that order. */
  lemma CountsZero(t: Table, key: LevelKey)
    requires AllPositive(t)
    ensures Resting(t, key) == 0 <==> Total(t, CountAt(key)) == 0
  {
    Totals.Positive(t, QtyAt(key));
    Totals.Positive(t, CountAt(key));
  }

  lemma PlaceAgrees(s: Store, n: nat, o: Order)
    requires Agrees(s) && AllPositive(s.orders) && n !in s.orders && o.qty > 0
    ensures Agrees(Place(s, n, o)) && AllPositive(Place(s, n, o).orders)
  {
    var s' := Place(s, n, o);
    forall k
      ensures SideAgrees(SideAt(s', k), s'.orders, k)
    {
      assert SideAgrees(SideAt(s, k), s.orders, k);
      PutSums(s.orders, n, o, k, 0);
      forall p: nat
        ensures LevelAgrees(SideAt(s', k), s'.orders, k, p)
      {
        assert LevelAgrees(SideAt(s, k), s.orders, k, p);
        PutSums(s.orders, n, o, k, p);
        CountsZero(s.orders, LevelKey(k.book, k.bid, p));
      }
    }
  }

  /** The sums before and after an order loses `q`, both from the table without it. */
  lemma ReduceSums(t: Table, n: nat, q: nat, k: SideKey, p: nat)
    requires n in t && q <= t[n].qty
    ensures var o := t[n];
            var t' := if q == o.qty then t - {n} else t[n := o.(qty := o.qty - q)];
            var key := LevelKey(k.book, k.bid, p);
            && Resting(t', key) == Resting(t, key) - (if KeyOf(o) == key then q else 0)
            && Total(t', CountAt(key)) == Total(t, CountAt(key)) - (if KeyOf(o) == key && q == o.qty then 1 else 0)
            && Total(t', SideQty(k.book, k.bid)) == Total(t, SideQty(k.book, k.bid)) - (if SideOf(o) == k then q else 0)
            && Total(t', SideCount(k.book, k.bid))
                 == Total(t, SideCount(k.book, k.bid)) - (if SideOf(o) == k && q == o.qty then 1 else 0)
  {
    var o, key := t[n], LevelKey(k.book, k.bid, p);
    ReduceTotal(t, n, q, QtyAt(key));
    ReduceTotal(t, n, q, CountAt(key));
    ReduceTotal(t, n, q, SideQty(k.book, k.bid));
    ReduceTotal(t, n, q, SideCount(k.book, k.bid));
  }

  /** Any weight of an order that loses `q` moves by its own change. */
  lemma ReduceTotal(t: Table, n: nat, q: nat, w: Order -> nat)
    requires n in t && q <= t[n].qty
    ensures var o := t[n];
            var t' := if q == o.qty then t - {n} else t[n := o.(qty := o.qty - q)];
            Total(t', w) == Total(t, w) - w(o) + if q == o.qty then 0 else w(o.(qty := o.qty - q))
  {
    Drop(t, n, w);
    Put(t, n, t[n].(qty := t[n].qty - q), w);
  }

  lemma ReduceSide(side: Side, t: Table, n: nat, q: nat, k: SideKey)
    requires AllPositive(t) && n in t && q <= t[n].qty && SideAgrees(side, t, k)
    ensures var o := t[n];
            var t' := Less(t, n, q);
            && (k != SideOf(o) ==> SideAgrees(side, t', k))
            && (k == SideOf(o) ==>
                 CanRemove(side, o.price, q) && SideAgrees(SideRemove(side, o.price, q, q == o.qty), t', k))
  {
    if k == SideOf(t[n]) {
      ReduceOwnSide(side, t, n, q, k);
    } else {
      ReduceSums(t, n, q, k, 0);
      forall p: nat
        ensures LevelAgrees(side, Less(t, n, q), k, p)
      {
        assert LevelAgrees(side, t, k, p);
        ReduceSums(t, n, q, k, p);
      }
    }
  }

  /** The table once order `n` has lost `q`. */
  function Less(t: Table, n: nat, q: nat): Table
    requires n in t && q <= t[n].qty
  {
    if q == t[n].qty then t - {n} else t[n := t[n].(qty := t[n].qty - q)]
  }

  lemma ReduceOwnSide(side: Side, t: Table, n: nat, q: nat, k: SideKey)
    requires AllPositive(t) && n in t && q <= t[n].qty && SideAgrees(side, t, k) && k == SideOf(t[n])
    ensures CanRemove(side, t[n].price, q)
              && SideAgrees(SideRemove(side, t[n].price, q, q == t[n].qty), Less(t, n, q), k)
  {
    var o := t[n];
    OwnCounts(side, t, n, k);
    ReduceSums(t, n, q, k, o.price);
    var side', t' := SideRemove(side, o.price, q, q == o.qty), Less(t, n, q);
    forall p: nat
      ensures LevelAgrees(side', t', k, p)
    {
      ReduceOwnLevel(side, t, n, q, k, p);
    }
  }

  lemma ReduceOwnLevel(side: Side, t: Table, n: nat, q: nat, k: SideKey, p: nat)
    requires n in t && q <= t[n].qty && k == SideOf(t[n]) && LevelAgrees(side, t, k, p)
    requires CanRemove(side, t[n].price, t[n].qty) && side.levels[t[n].price].orders > 0
    ensures LevelAgrees(SideRemove(side, t[n].price, q, q == t[n].qty), Less(t, n, q), k, p)
  {
    ReduceSums(t, n, q, k, p);
    assert KeyOf(t[n]) == LevelKey(k.book, k.bid, p) <==> t[n].price == p;
  }

  /** A live order is in its level and counted in it and in its side. */
  lemma OwnCounts(side: Side, t: Table, n: nat, k: SideKey)
    requires AllPositive(t) && n in t && SideAgrees(side, t, k) && k == SideOf(t[n])
    ensures CanRemove(side, t[n].price, t[n].qty)
    ensures side.levels[t[n].price].orders > 0 && side.totalOrders > 0
  {
    var o := t[n];
    assert LevelAgrees(side, t, k, o.price);
    RestingDrop(t, n, KeyOf(o));
    Drop(t, n, CountAt(KeyOf(o)));
    Drop(t, n, SideCount(o.book, o.side == 'B'));
  }

  lemma ReduceAgrees(s: Store, n: nat, q: nat)
    requires Agrees(s) && AllPositive(s.orders) && n in s.orders && q <= s.orders[n].qty
    ensures Agrees(Reduce(s, n, q)) && AllPositive(Reduce(s, n, q).orders)
    ensures CanRemove(SideAt(s, SideOf(s.orders[n])), s.orders[n].price, q)
  {
    forall k
      ensures SideAgrees(SideAt(Reduce(s, n, q), k), Reduce(s, n, q).orders, k)
      ensures k == SideOf(s.orders[n]) ==> CanRemove(SideAt(s, k), s.orders[n].price, q)
    {
      ReduceSide(SideAt(s, k), s.orders, n, q, k);
    }
  }

  lemma InsertAgrees(s: Store, n: nat, o: Order)
    requires Agrees(s) && AllPositive(s.orders) && o.qty > 0
    ensures Agrees(Insert(s, n, o)) && AllPositive(Insert(s, n, o).orders)
  {
    if n in s.orders {
      ReduceAgrees(s, n, s.orders[n].qty);
      PlaceAgrees(Remove(s, n), n, o);
    } else {
      PlaceAgrees(s, n, o);
    }
  }

  lemma ApplyOrders(s: Store, m: Msg)
    ensures Apply(s, m).orders == Step(s.orders, m)
  {
    match m
    case Add(n, _, _, _, _, _, _, _) =>
      assert (s.orders - {n})[n := Added(m)] == s.orders[n := Added(m)];
    case Replace(o, n, _, _) =>
      if o in s.orders {
        assert (s.orders - {o} - {n})[n := Replaced(m, s.orders[o])] == (s.orders - {o})[n := Replaced(m, s.orders[o])];
      }
    case _ =>
  }

  /** One message with a positive quantity: the table moves by `Orders.Step`,
      and quantities, order counts and side totals still equal the sums. */
  lemma ApplyAgrees(s: Store, m: Msg)
    requires Agrees(s) && AllPositive(s.orders) && PositiveQty(m)
    ensures Agrees(Apply(s, m)) && AllPositive(Apply(s, m).orders)
    ensures Apply(s, m).orders == Step(s.orders, m)
  {
    ApplyOrders(s, m);
    match m
    case Add(n, _, _, _, _, _, _, _) =>
      if n != 0 { InsertAgrees(s, n, Added(m)); }
    case Exec(_, n, q, _) =>
      if n in s.orders { ReduceAgrees(s, n, if q > s.orders[n].qty then s.orders[n].qty else q); }
    case Delete(n) =>
      if n in s.orders { ReduceAgrees(s, n, s.orders[n].qty); }
    case Replace(o, n, _, _) =>
      if o in s.orders {
        ReduceAgrees(s, o, s.orders[o].qty);
        InsertAgrees(Remove(s, o), n, Replaced(m, s.orders[o]));
      }
    case _ =>
  }

  function After(ms: seq<Msg>, n: nat): Store
    requires n <= |ms|
  {
    if n == 0 then Empty else Apply(After(ms, n - 1), ms[n - 1])
  }

  lemma EmptyAgrees()
    ensures Agrees(Empty)
  {
    forall k
      ensures SideAgrees(SideAt(Empty, k), Empty.orders, k)
    {
      forall p: nat ensures LevelAgrees(SideAt(Empty, k), Empty.orders, k, p) {}
    }
  }

  /** Any run with positive quantities. */
  lemma {:induction false} RunAgrees(ms: seq<Msg>, n: nat)
    requires n <= |ms| && forall i :: 0 <= i < |ms| ==> PositiveQty(ms[i])
    ensures Agrees(After(ms, n)) && AllPositive(After(ms, n).orders)
  {
    if n == 0 {
      EmptyAgrees();
    } else {
      RunAgrees(ms, n - 1);
      ApplyAgrees(After(ms, n - 1), ms[n - 1]);
    }
  }

  /** `restore_order` over the order rows of a recovery dump. */
  function Restore(orders: Table, numbers: seq<nat>): Store
    requires forall n :: n in numbers ==> n in orders
  {
    if numbers == [] then Empty
    else
      var n := numbers[|numbers| - 1];
      Place(Restore(orders, numbers[..|numbers| - 1]), n, orders[n])
  }

  /** A dump lists each live order once, so recovery rebuilds the orders and the
      very levels, counts and totals of a store that never stopped. */
  lemma {:induction false} RestoreAgrees(orders: Table, numbers: seq<nat>)
    requires AllPositive(orders)
    requires forall n :: n in numbers ==> n in orders
    requires forall i, j :: 0 <= i < j < |numbers| ==> numbers[i] != numbers[j]
    ensures Agrees(Restore(orders, numbers)) && AllPositive(Restore(orders, numbers).orders)
    ensures Restore(orders, numbers).orders == map n | n in numbers :: orders[n]
  {
    RestoredOrders(orders, numbers);
    if numbers == [] {
      EmptyAgrees();
    } else {
      var rest := numbers[..|numbers| - 1];
      var n := numbers[|numbers| - 1];
      RestoreAgrees(orders, rest);
      NotAgain(numbers);
      PlaceAgrees(Restore(orders, rest), n, orders[n]);
    }
  }

  lemma NotAgain(numbers: seq<nat>)
    requires numbers != [] && forall i, j :: 0 <= i < j < |numbers| ==> numbers[i] != numbers[j]
    ensures numbers[|numbers| - 1] !in numbers[..|numbers| - 1]
  {
  }

  lemma {:induction false} RestoredOrders(orders: Table, numbers: seq<nat>)
    requires forall n :: n in numbers ==> n in orders
    ensures Restore(orders, numbers).orders == map n | n in numbers :: orders[n]
  {
    if numbers != [] {
      var rest, n := numbers[..|numbers| - 1], numbers[|numbers| - 1];
      RestoredOrders(orders, rest);
      assert forall k :: k in numbers <==> k in rest || k == n;
    }
  }

  // --- the book section of an update ------------------------------------------------

  predicate IsBest(p: nat, keys: set<nat>, bid: bool) {
    p in keys && forall q :: q in keys && q != p ==> Better(bid, p, q)
  }

  lemma {:induction false} BestExists(keys: set<nat>, bid: bool)
    requires keys != {}
    ensures exists p :: IsBest(p, keys, bid)
  {
    var some :| some in keys;
    if keys == {some} {
      assert IsBest(some, keys, bid);
    } else {
      BestExists(keys - {some}, bid);
      var p :| IsBest(p, keys - {some}, bid);
      if Better(bid, p, some) {
        assert IsBest(p, keys, bid);
      } else {
        forall q | q in keys && q != some
          ensures Better(bid, some, q)
        {
          assert q in keys - {some};
        }
        assert IsBest(some, keys, bid);
      }
    }
  }

  ghost function Best(keys: set<nat>, bid: bool): (best: nat)
    requires keys != {}
    ensures IsBest(best, keys, bid)
  {
    BestExists(keys, bid);
    var best :| IsBest(best, keys, bid);
    best
  }

  function Shown(p: nat, l: Level): BookLevel {
    BookLevel(p, l.qty % U32, l.orders)
  }

  /** The best `room` of the given prices, best first. */
  ghost function Top(levels: map<nat, Level>, keys: set<nat>, bid: bool, room: nat): seq<BookLevel>
    requires keys <= levels.Keys
  {
    if keys == {} || room == 0 then []
    else
      var p := Best(keys, bid);
      [Shown(p, levels[p])] + Top(levels, keys - {p}, bid, room - 1)
  }

  lemma {:induction false} TopSorted(levels: map<nat, Level>, keys: set<nat>, bid: bool, room: nat)
    requires keys <= levels.Keys
    ensures var ls := Top(levels, keys, bid, room);
            && |ls| <= room
            && (forall i :: 0 <= i < |ls| ==> ls[i].price in keys && ls[i] == Shown(ls[i].price, levels[ls[i].price]))
            && (forall i, j :: 0 <= i < j < |ls| ==> Better(bid, ls[i].price, ls[j].price))
  {
    if keys != {} && room > 0 { TopSorted(levels, keys - {Best(keys, bid)}, bid, room - 1); }
  }

  /** A price that is not listed is beaten by a full list. */
  lemma {:induction false} TopCovers(levels: map<nat, Level>, keys: set<nat>, bid: bool, room: nat, p: nat)
    requires keys <= levels.Keys && p in keys && room > 0
    ensures var ls := Top(levels, keys, bid, room);
            || (exists i :: 0 <= i < |ls| && ls[i].price == p)
            || (|ls| == room && Better(bid, ls[room - 1].price, p))
  {
    var best := Best(keys, bid);
    var rest := Top(levels, keys - {best}, bid, room - 1);
    var ls := Top(levels, keys, bid, room);
    assert ls == [Shown(best, levels[best])] + rest;
    if p == best || room == 1 {
      assert ls[0].price == best;
    } else {
      TopCovers(levels, keys - {best}, bid, room - 1, p);
      if i :| 0 <= i < |rest| && rest[i].price == p {
        assert ls[i + 1].price == p;
      } else {
        assert ls[room - 1] == rest[room - 2];
      }
    }
  }

  /** The best ten levels of an agreeing side are what `ShowsSide` asks for. */
  lemma TopShows(s: Side, orders: Table, k: SideKey)
    requires SideAgrees(s, orders, k)
    ensures ShowsSide(Top(s.levels, s.levels.Keys, k.bid, DEPTH), orders, k.book, k.bid)
  {
    TopSorted(s.levels, s.levels.Keys, k.bid, DEPTH);
    var ls := Top(s.levels, s.levels.Keys, k.bid, DEPTH);
    forall i | 0 <= i < |ls|
      ensures ShowsLevel(ls[i], orders, k.book, k.bid)
    {
      assert LevelAgrees(s, orders, k, ls[i].price);
    }
    forall p | Resting(orders, LevelKey(k.book, k.bid, p)) > 0
      ensures (exists i :: 0 <= i < |ls| && ls[i].price == p)
                || (|ls| == 10 && Better(k.bid, ls[9].price, p))
    {
      assert LevelAgrees(s, orders, k, p);
      TopCovers(s.levels, s.levels.Keys, k.bid, DEPTH, p);
    }
  }

  /** The level loops of `make_update`: walk the side best first, stop at ten. */
  method ListTop(levels: map<nat, Level>, bid: bool) returns (ls: seq<BookLevel>)
    ensures ls == Top(levels, levels.Keys, bid, DEPTH)
  {
    ls := [];
    var rest := levels.Keys;
    while rest != {} && |ls| < DEPTH
      invariant |ls| <= DEPTH && rest <= levels.Keys
      invariant ls + Top(levels, rest, bid, DEPTH - |ls|) == Top(levels, levels.Keys, bid, DEPTH)
      decreases rest
    {
      BestExists(rest, bid);
      var p :| p in rest && IsBest(p, rest, bid);
      assert p == Best(rest, bid);
      ghost var tail := Top(levels, rest - {p}, bid, DEPTH - |ls| - 1);
      assert Top(levels, rest, bid, DEPTH - |ls|) == [Shown(p, levels[p])] + tail;
      assert ls + ([Shown(p, levels[p])] + tail) == (ls + [Shown(p, levels[p])]) + tail;
      ls := ls + [Shown(p, levels[p])];
      rest := rest - {p};
    }
    assert Top(levels, rest, bid, DEPTH - |ls|) == [];
  }

  /** The whole book section for one ticker. */
  method MakeSection(s: Store, book: string) returns (r: Section)
    ensures Agrees(s) ==> Shows(r, s.orders, book)
  {
    var bids := SideAt(s, SideKey(book, true));
    var asks := SideAt(s, SideKey(book, false));
    var bs := ListTop(bids.levels, true);
    var as_ := ListTop(asks.levels, false);
    if Agrees(s) {
      assert SideAgrees(bids, s.orders, SideKey(book, true)) && SideAgrees(asks, s.orders, SideKey(book, false));
      TopShows(bids, s.orders, SideKey(book, true));
      TopShows(asks, s.orders, SideKey(book, false));
    }
    r := Section(bs, as_, bids.totalQty, asks.totalQty, bids.totalOrders, asks.totalOrders);
  }
}
