/** Binary searches over an ascending sequence. */
module Bisect {

  ghost predicate Ascending(s: seq<nat>) {
    forall i, j :: 0 <= i < j < |s| ==> s[i] < s[j]
  }

  /** The first index whose element is not below `x`. */
  method Left(s: seq<nat>, x: nat) returns (lo: nat)
    requires Ascending(s)
    ensures lo <= |s|
    ensures forall i :: 0 <= i < lo ==> s[i] < x
    ensures forall i :: lo <= i < |s| ==> x <= s[i]
  {
    lo := 0;
    var hi := |s|;
    while lo < hi
      invariant lo <= hi <= |s|
      invariant forall i :: 0 <= i < lo ==> s[i] < x
      invariant forall i :: hi <= i < |s| ==> x <= s[i]
    {
      var mid := (lo + hi) / 2;
      if s[mid] < x { lo := mid + 1; } else { hi := mid; }
    }
  }

  /** The first index whose element is above `x`. */
  method Right(s: seq<nat>, x: nat) returns (lo: nat)
    requires Ascending(s)
    ensures lo <= |s|
    ensures forall i :: 0 <= i < lo ==> s[i] <= x
    ensures forall i :: lo <= i < |s| ==> x < s[i]
  {
    lo := 0;
    var hi := |s|;
    while lo < hi
      invariant lo <= hi <= |s|
      invariant forall i :: 0 <= i < lo ==> s[i] <= x
      invariant forall i :: hi <= i < |s| ==> x < s[i]
    {
      var mid := (lo + hi) / 2;
      if x < s[mid] { hi := mid; } else { lo := mid + 1; }
    }
  }
}

/** The prototype's book builder, updated in place. */
module OrderBook {
  import Bisect
  import opened Itch
  import opened Orders
  import opened BookModel

  function InsertAt(s: seq<nat>, i: nat, x: nat): seq<nat>
    requires i <= |s|
  {
    s[..i] + [x] + s[i..]
  }

  function DeleteAt(s: seq<nat>, i: nat): seq<nat>
    requires i < |s|
  {
    s[..i] + s[i + 1..]
  }

  lemma InsertKeeps(s: seq<nat>, i: nat, x: nat)
    requires Bisect.Ascending(s) && i <= |s|
    requires forall j :: 0 <= j < i ==> s[j] < x
    requires forall j :: i <= j < |s| ==> x < s[j]
    ensures Bisect.Ascending(InsertAt(s, i, x))
    ensures forall p :: p in InsertAt(s, i, x) <==> p in s || p == x
  {
    assert s == s[..i] + s[i..];
    assert InsertAt(s, i, x)[i] == x;
  }

  lemma DeleteKeeps(s: seq<nat>, i: nat)
    requires Bisect.Ascending(s) && i < |s|
    ensures Bisect.Ascending(DeleteAt(s, i))
    ensures forall p :: p in DeleteAt(s, i) <==> p in s && p != s[i]
  {
    assert s == s[..i] + [s[i]] + s[i + 1..];
    forall p | p in DeleteAt(s, i)
      ensures p != s[i]
    {
      var j :| 0 <= j < |s| - 1 && DeleteAt(s, i)[j] == p;
      assert p == s[if j < i then j else j + 1];
    }
  }

  /** Aggregated quantity per price for one side of one book: an ascending list
      of the prices beside a dictionary from price to quantity. */
  class SideLevels {
    var prices: seq<nat>
    var qty: map<nat, nat>

    /** The list is strictly ascending and holds exactly the dictionary's keys. */
    ghost predicate Valid()
      reads this
    {
      Bisect.Ascending(prices) && forall p :: p in prices <==> p in qty
    }

    constructor ()
      ensures Valid() && qty == map[]
    {
      prices, qty := [], map[];
    }

    method Add(price: nat, q: nat)
      requires Valid()
      modifies this
      ensures Valid() && qty == DictAdd(old(qty), price, q)
    {
      if price !in qty {
        qty := qty[price := q];
        var i := Bisect.Right(prices, price);
        InsertKeeps(prices, i, price);
        prices := InsertAt(prices, i, price);
      } else {
        qty := qty[price := qty[price] + q];
      }
    }

    method Remove(price: nat, q: nat) returns (fault: Fault)
      requires Valid()
      modifies this
      ensures Valid()
      ensures fault == DictFault(old(qty), price, q) && qty == DictRemove(old(qty), price, q)
    {
      if price !in qty { return MissingLevel; }
      if qty[price] < q { return NegativeLevel; }
      if qty[price] == q {
        var i := Bisect.Left(prices, price);
        DeleteKeeps(prices, i);
        qty := qty - {price};
        prices := DeleteAt(prices, i);
      } else {
        qty := qty[price := qty[price] - q];
      }
      return NoFault;
    }
  }

  function DictAdd(d: map<nat, nat>, p: nat, q: nat): map<nat, nat> {
    d[p := (if p in d then d[p] else 0) + q]
  }

  function DictFault(d: map<nat, nat>, p: nat, q: nat): Fault {
    if p !in d then MissingLevel else if d[p] < q then NegativeLevel else NoFault
  }

  function DictRemove(d: map<nat, nat>, p: nat, q: nat): map<nat, nat> {
    if p !in d || d[p] < q then d
    else if d[p] == q then d - {p}
    else d[p := d[p] - q]
  }

  /** A book's two sides never change hands once the book exists. */
  datatype Book = Book(bids: SideLevels, asks: SideLevels) {
    function Side(bid: bool): SideLevels { if bid then bids else asks }
  }

  /** All dictionaries of all sides, read as one map of levels. */
  ghost predicate Flat(dicts: map<SideKey, map<nat, nat>>, levels: map<LevelKey, nat>) {
    forall k :: Entry(dicts, k) == if k in levels then Some(levels[k]) else None
  }

  ghost function Entry(dicts: map<SideKey, map<nat, nat>>, k: LevelKey): Option<nat> {
    var s := SideKey(k.book, k.bid);
    if s in dicts && k.price in dicts[s] then Some(dicts[s][k.price]) else None
  }

  /** Empty sides have no entries. */
  lemma NewSides(dicts: map<SideKey, map<nat, nat>>, levels: map<LevelKey, nat>, id: string)
    requires Flat(dicts, levels) && SideKey(id, true) !in dicts && SideKey(id, false) !in dicts
    ensures Flat(dicts[SideKey(id, true) := map[]][SideKey(id, false) := map[]], levels)
  {
    var more := dicts[SideKey(id, true) := map[]][SideKey(id, false) := map[]];
    forall k
      ensures Entry(more, k) == if k in levels then Some(levels[k]) else None
    {
      assert Entry(dicts, k) == if k in levels then Some(levels[k]) else None;
    }
  }

  /** A change at one price of one side is a change of that entry. */
  lemma FlatAt(dicts: map<SideKey, map<nat, nat>>, levels: map<LevelKey, nat>, k: LevelKey, d: map<nat, nat>,
               levels': map<LevelKey, nat>)
    requires Flat(dicts, levels) && SideKey(k.book, k.bid) in dicts
    requires forall p :: p != k.price ==> (p in d <==> p in dicts[SideKey(k.book, k.bid)])
    requires forall p :: p != k.price && p in d ==> d[p] == dicts[SideKey(k.book, k.bid)][p]
    requires forall j :: j != k ==> (j in levels' <==> j in levels) && (j in levels ==> levels'[j] == levels[j])
    requires k.price in d <==> k in levels'
    requires k.price in d ==> d[k.price] == levels'[k]
    ensures Flat(dicts[SideKey(k.book, k.bid) := d], levels')
  {
    var s := SideKey(k.book, k.bid);
    forall j
      ensures Entry(dicts[s := d], j) == if j in levels' then Some(levels'[j]) else None
    {
      assert Entry(dicts, j) == if j in levels then Some(levels[j]) else None;
      if SideKey(j.book, j.bid) == s && j != k { assert j.price != k.price; }
    }
  }

  lemma FlatChange(dicts: map<SideKey, map<nat, nat>>, levels: map<LevelKey, nat>, k: LevelKey, q: nat)
    requires Flat(dicts, levels) && SideKey(k.book, k.bid) in dicts
    ensures var s := SideKey(k.book, k.bid);
            && Flat(dicts[s := DictAdd(dicts[s], k.price, q)], LevelAdd(levels, k, q))
            && Flat(dicts[s := DictRemove(dicts[s], k.price, q)], LevelRemove(levels, k, q))
            && DictFault(dicts[s], k.price, q) == LevelFault(levels, k, q)
  {
    var s := SideKey(k.book, k.bid);
    assert Entry(dicts, k) == if k in levels then Some(levels[k]) else None;
    FlatAt(dicts, levels, k, DictAdd(dicts[s], k.price, q), LevelAdd(levels, k, q));
    FlatAt(dicts, levels, k, DictRemove(dicts[s], k.price, q), LevelRemove(levels, k, q));
  }

  /** An execution step by step: shrink the order, take from the level, and drop
      the order if it is done. */
  lemma ExecuteStore(v: Store, n: nat, f: nat)
    requires n in v.orders && f <= v.orders[n].qty
    ensures var o := v.orders[n];
            var shrunk := v.orders[n := o.(qty := o.qty - f)];
            var r := BookModel.Execute(v, n, f, 0);
            && r.fault == LevelFault(v.levels, KeyOf(o), f)
            && r.store == Store(if r.fault.NoFault? && o.qty == f then shrunk - {n} else shrunk,
                                LevelRemove(v.levels, KeyOf(o), f))
  {
    assert v.orders[n := v.orders[n].(qty := v.orders[n].qty - f)] - {n} == v.orders - {n};
  }

  class OrderBookStore {
    var orders: map<nat, Order>
    var books: map<string, Book>
    var collisions: nat
    var orphanExecutes: nat
    var orphanDeletes: nat
    var orphanReplaces: nat
    var refPriceIgnored: nat
    var executedVolume: nat
    var executionCount: nat
    /** Live orders and levels as one value, tied to the fields by `Valid`. */
    ghost var view: Store
    ghost var dicts: map<SideKey, map<nat, nat>>
    ghost var sides: set<SideLevels>

    /** Every side of every book is its own object, in order, and its dictionary
        is the one recorded. */
    ghost predicate Valid()
      reads `orders, `books, `view, `dicts, `sides, sides
    {
      && (forall b, x :: b in books <==> SideKey(b, x) in dicts)
      && (forall b, x :: b in books ==> books[b].Side(x) in sides)
      && (forall b, x :: b in books ==> books[b].Side(x).Valid() && books[b].Side(x).qty == dicts[SideKey(b, x)])
      && (forall b, c, x, y :: b in books && c in books && books[b].Side(x) == books[c].Side(y) ==> b == c && x == y)
      && view.orders == orders
      && Flat(dicts, view.levels)
    }

    constructor ()
      ensures Valid() && view == Empty && fresh(sides)
      ensures collisions == orphanExecutes == orphanDeletes == orphanReplaces == refPriceIgnored == 0
      ensures executedVolume == executionCount == 0
    {
      orders, books, collisions, executedVolume, executionCount := map[], map[], 0, 0, 0;
      orphanExecutes, orphanDeletes, orphanReplaces, refPriceIgnored := 0, 0, 0, 0;
      view, dicts, sides := Empty, map[], {};
    }

    /** The book for `id`, created empty on first use. */
    method BookOf(id: string) returns (b: Book)
      requires Valid()
      modifies this`books, this`dicts, this`sides
      ensures Valid() && fresh(sides - old(sides))
      ensures id in books && b == books[id]
    {
      if id !in books {
        var bids := new SideLevels();
        var asks := new SideLevels();
        books := books[id := Book(bids, asks)];
        sides := sides + {bids, asks};
        NewSides(dicts, view.levels, id);
        dicts := dicts[SideKey(id, true) := map[]][SideKey(id, false) := map[]];
        assert forall c, x :: c in books && c != id ==> books[c].Side(x) in old(sides);
        assert forall x :: books[id].Side(x) == if x then bids else asks;
      }
      b := books[id];
    }

    method AddLevel(o: Order)
      requires Valid()
      modifies this`books, this`dicts, this`sides, this`view, sides
      ensures Valid() && fresh(sides - old(sides))
      ensures view == Store(old(view.orders), LevelAdd(old(view.levels), KeyOf(o), o.qty))
    {
      var b := BookOf(o.book);
      var side := b.Side(o.side == 'B');
      side.Add(o.price, o.qty);
      FlatChange(dicts, view.levels, KeyOf(o), o.qty);
      dicts := dicts[SideKey(o.book, o.side == 'B') := side.qty];
      view := Store(view.orders, LevelAdd(view.levels, KeyOf(o), o.qty));
    }

    method RemoveLevel(o: Order, q: nat) returns (fault: Fault)
      requires Valid()
      modifies this`books, this`dicts, this`sides, this`view, sides
      ensures Valid() && fresh(sides - old(sides))
      ensures fault == LevelFault(old(view.levels), KeyOf(o), q)
      ensures view == Store(old(view.orders), LevelRemove(old(view.levels), KeyOf(o), q))
    {
      var b := BookOf(o.book);
      var side := b.Side(o.side == 'B');
      fault := side.Remove(o.price, q);
      FlatChange(dicts, view.levels, KeyOf(o), q);
      dicts := dicts[SideKey(o.book, o.side == 'B') := side.qty];
      view := Store(view.orders, LevelRemove(view.levels, KeyOf(o), q));
    }

    method SetOrders(t: map<nat, Order>)
      requires Valid()
      modifies this`orders, this`view
      ensures Valid() && view == Store(t, old(view.levels))
    {
      orders, view := t, Store(t, view.levels);
    }

    method Forget(n: nat) returns (fault: Fault)
      requires Valid() && n in orders
      modifies this`orders, this`books, this`dicts, this`sides, this`view, sides
      ensures Valid() && fresh(sides - old(sides))
      ensures var r := BookModel.RemoveOrder(old(view), n); fault == r.fault && view == r.store
    {
      var o := orders[n];
      SetOrders(orders - {n});
      fault := RemoveLevel(o, o.qty);
    }

    method Place(n: nat, o: Order) returns (fault: Fault)
      requires Valid()
      modifies this`orders, this`books, this`dicts, this`sides, this`view, this`collisions, sides
      ensures Valid() && fresh(sides - old(sides))
      ensures var r := BookModel.Insert(old(view), n, o); fault == r.fault && view == r.store
      ensures collisions == old(collisions) + if n in old(orders) then 1 else 0
    {
      if n in orders {
        fault := Forget(n);
        collisions := collisions + 1;
        if !fault.NoFault? { return; }
      }
      SetOrders(orders[n := o]);
      AddLevel(o);
      fault := NoFault;
    }

    method Reduce(n: nat, f: nat) returns (fault: Fault)
      requires Valid() && n in orders && f <= orders[n].qty
      modifies this`orders, this`books, this`dicts, this`sides, this`view, sides
      ensures Valid() && fresh(sides - old(sides))
      ensures var r := BookModel.Execute(old(view), n, f, 0); fault == r.fault && view == r.store
    {
      var o := orders[n];
      ExecuteStore(view, n, f);
      SetOrders(orders[n := o.(qty := o.qty - f)]);
      fault := RemoveLevel(o, f);
      if fault.NoFault? && o.qty == f {
        SetOrders(orders - {n});
      }
    }

    method Fill(n: nat, q: nat, matchNumber: nat) returns (fault: Fault, e: Option<Execution>)
      requires Valid() && n in orders
      modifies this`orders, this`books, this`dicts, this`sides, this`view, this`executedVolume, this`executionCount,
        sides
      ensures Valid() && fresh(sides - old(sides))
      ensures
        var r := BookModel.Execute(old(view), n, q, matchNumber);
        fault == r.fault && view == r.store && e == r.execution
      ensures executedVolume == old(executedVolume) + if e.Some? then e.value.qty else 0
      ensures executionCount == old(executionCount) + if e.Some? then 1 else 0
    {
      var o := orders[n];
      var f := q;
      if f > o.qty { f := o.qty; }
      fault := Reduce(n, f);
      if !fault.NoFault? { e := None; return; }
      e := Some(Execution(o.book, o.group, o.side, o.price, f, matchNumber));
      executedVolume := executedVolume + f;
      executionCount := executionCount + 1;
    }

    method Amend(m: Msg) returns (fault: Fault)
      requires Valid() && m.Replace? && m.orig in orders
      modifies this`orders, this`books, this`dicts, this`sides, this`view, this`collisions, sides
      ensures Valid() && fresh(sides - old(sides))
      ensures var r := BookModel.Apply(old(view), m); fault == r.fault && view == r.store
      ensures collisions == old(collisions) + if Collides(old(view), m) then 1 else 0
    {
      var orig := orders[m.orig];
      fault := Forget(m.orig);
      if fault.NoFault? { fault := Place(m.number, Replaced(m, orig)); }
    }

    /** Count a message the store will ignore: a reference price, or one that names an
        unknown order. */
    method CountMiss(m: Msg)
      modifies `refPriceIgnored, `orphanExecutes, `orphanDeletes, `orphanReplaces
      ensures refPriceIgnored == old(refPriceIgnored) + if m.Add? && m.number == 0 then 1 else 0
      ensures orphanExecutes == old(orphanExecutes) + if m.Exec? && m.number !in orders then 1 else 0
      ensures orphanDeletes == old(orphanDeletes) + if m.Delete? && m.number !in orders then 1 else 0
      ensures orphanReplaces == old(orphanReplaces) + if m.Replace? && m.orig !in orders then 1 else 0
    {
      match m {
        case Add(n, _, _, _, _, _, _, _) => if n == 0 { refPriceIgnored := refPriceIgnored + 1; }
        case Exec(_, n, _, _) => if n !in orders { orphanExecutes := orphanExecutes + 1; }
        case Delete(n) => if n !in orders { orphanDeletes := orphanDeletes + 1; }
        case Replace(o, _, _, _) => if o !in orders { orphanReplaces := orphanReplaces + 1; }
        case _ =>
      }
    }

    /** What changes the store: the in-place update is the function `BookModel.Apply`. */
    method Route(m: Msg) returns (fault: Fault, e: Option<Execution>)
      requires Valid()
      modifies this`orders, this`books, this`dicts, this`sides, this`view, this`collisions,
        this`executedVolume, this`executionCount, sides
      ensures Valid() && fresh(sides - old(sides))
      ensures var r := BookModel.Apply(old(view), m); fault == r.fault && view == r.store && e == r.execution
      ensures executedVolume == old(executedVolume) + if e.Some? then e.value.qty else 0
      ensures executionCount == old(executionCount) + if e.Some? then 1 else 0
      ensures collisions == old(collisions) + if Collides(old(view), m) then 1 else 0
    {
      fault, e := NoFault, None;
      match m {
        case Add(n, _, _, _, _, _, _, _) =>
          if n != 0 { fault := Place(n, Added(m)); }
        case Exec(_, n, q, mn) =>
          if n in orders { fault, e := Fill(n, q, mn); }
        case Delete(n) =>
          if n in orders { fault := Forget(n); }
        case Replace(o, _, _, _) =>
          if o in orders { fault := Amend(m); }
        case _ =>
      }
    }

    /** One message, counted and routed. */
    method Apply(m: Msg) returns (fault: Fault, e: Option<Execution>)
      requires Valid()
      modifies this, sides
      ensures Valid() && fresh(sides - old(sides))
      ensures var r := BookModel.Apply(old(view), m); fault == r.fault && view == r.store && e == r.execution
      ensures executedVolume == old(executedVolume) + if e.Some? then e.value.qty else 0
      ensures executionCount == old(executionCount) + if e.Some? then 1 else 0
      ensures collisions == old(collisions) + if Collides(old(view), m) then 1 else 0
      ensures refPriceIgnored == old(refPriceIgnored) + if m.Add? && m.number == 0 then 1 else 0
      ensures orphanExecutes == old(orphanExecutes) + if m.Exec? && m.number !in old(orders) then 1 else 0
      ensures orphanDeletes == old(orphanDeletes) + if m.Delete? && m.number !in old(orders) then 1 else 0
      ensures orphanReplaces == old(orphanReplaces) + if m.Replace? && m.orig !in old(orders) then 1 else 0
    {
      CountMiss(m);
      fault, e := Route(m);
    }
  }

  /** The message inserts over a live number other than the one it replaces, and gets
      that far. */
  ghost predicate Collides(v: Store, m: Msg) {
    || (m.Add? && m.number != 0 && m.number in v.orders)
    || (m.Replace? && m.orig in v.orders && RemoveOrder(v, m.orig).fault.NoFault?
        && m.number in v.orders && m.number != m.orig)
  }
}
