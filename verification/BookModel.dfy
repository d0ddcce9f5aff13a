/** The book builder as a function of its state: live orders, aggregated price
    levels, and the two ways `_SideLevels.remove` can raise.  The main result is
    that the levels always equal the sums recomputed from the live orders, with
    the exact condition under which one message keeps that. */
module BookModel {
  import opened Itch
  import opened Orders
  import opened Totals

  /** What a call raised: nothing, the missing level, or a level below zero. */
  datatype Fault = NoFault | MissingLevel | NegativeLevel

  datatype Execution = Execution(book: string, group: string, side: char, price: nat, qty: nat, matchNumber: nat)

  /** Live orders and levels; `levels` holds one entry per dictionary entry of
      every side of every book. */
  datatype Store = Store(orders: Table, levels: map<LevelKey, nat>)

  datatype Outcome = Outcome(store: Store, fault: Fault, execution: Option<Execution>)

  const Empty := Store(map[], map[])

  function LevelAdd(levels: map<LevelKey, nat>, k: LevelKey, q: nat): map<LevelKey, nat> {
    levels[k := (if k in levels then levels[k] else 0) + q]
  }

  function LevelFault(levels: map<LevelKey, nat>, k: LevelKey, q: nat): Fault {
    if k !in levels then MissingLevel
    else if levels[k] < q then NegativeLevel
    else NoFault
  }

  /** A level reduced to exactly zero is dropped; a call that raises changes nothing. */
  function LevelRemove(levels: map<LevelKey, nat>, k: LevelKey, q: nat): map<LevelKey, nat> {
    if k !in levels || levels[k] < q then levels
    else if levels[k] == q then levels - {k}
    else levels[k := levels[k] - q]
  }

  /** The order leaves the table before its level is reduced, so a fault leaves
      it gone. */
  function RemoveOrder(s: Store, n: nat): Outcome
    requires n in s.orders
  {
    var o := s.orders[n];
    Outcome(Store(s.orders - {n}, LevelRemove(s.levels, KeyOf(o), o.qty)),
            LevelFault(s.levels, KeyOf(o), o.qty), None)
  }

  /** An insert over a live number first removes the stale order. */
  function Insert(s: Store, n: nat, o: Order): Outcome {
    var cleared := if n in s.orders then RemoveOrder(s, n) else Outcome(s, NoFault, None);
    if !cleared.fault.NoFault? then cleared
    else Outcome(Store(cleared.store.orders[n := o], LevelAdd(cleared.store.levels, KeyOf(o), o.qty)), NoFault, None)
  }

  /** Executed quantity, clamped to what remains. */
  function Filled(o: Order, q: nat): nat {
    if q > o.qty then o.qty else q
  }

  function Execute(s: Store, n: nat, q: nat, matchNumber: nat): Outcome
    requires n in s.orders
  {
    var o := s.orders[n];
    var f := Filled(o, q);
    var fault := LevelFault(s.levels, KeyOf(o), f);
    var levels := LevelRemove(s.levels, KeyOf(o), f);
    if !fault.NoFault? then
      // `remaining_qty` was already reduced when the level lookup raises
      Outcome(Store(s.orders[n := o.(qty := o.qty - f)], levels), fault, None)
    else
      Outcome(Store(if o.qty == f then s.orders - {n} else s.orders[n := o.(qty := o.qty - f)], levels), NoFault,
              Some(Execution(o.book, o.group, o.side, o.price, f, matchNumber)))
  }

  function Apply(s: Store, m: Msg): Outcome {
    match m
    case Add(n, _, _, _, _, _, _, _) => if n == 0 then Outcome(s, NoFault, None) else Insert(s, n, Added(m))
    case Exec(_, n, q, mn) => if n !in s.orders then Outcome(s, NoFault, None) else Execute(s, n, q, mn)
    case Delete(n) => if n !in s.orders then Outcome(s, NoFault, None) else RemoveOrder(s, n)
    case Replace(o, n, _, _) =>
      if o !in s.orders then Outcome(s, NoFault, None)
      else
        var removed := RemoveOrder(s, o);
        if !removed.fault.NoFault? then removed else Insert(removed.store, n, Replaced(m, s.orders[o]))
    case _ => Outcome(s, NoFault, None)
  }

  // --- the levels are the recomputed sums ---------------------------------

  /** Every level present is the sum of the orders resting there, and a level is
      present exactly when that sum is not zero. */
  ghost predicate LevelsAgree(s: Store) {
    forall k :: (k in s.levels <==> Resting(s.orders, k) > 0) && (k in s.levels ==> s.levels[k] == Resting(s.orders, k))
  }

  ghost predicate Good(r: Outcome) {
    r.fault.NoFault? && LevelsAgree(r.store)
  }

  /** Taking order `n` away is safe: its quantity is positive, or some other
      order still holds its level up. */
  ghost predicate Removable(t: Table, n: nat)
    requires n in t
  {
    t[n].qty > 0 || Resting(t, KeyOf(t[n])) > 0
  }

  /** Putting order `o` under number `n` is safe: the order it displaces can be
      removed, and the level it joins does not stay empty. */
  ghost predicate Insertable(t: Table, n: nat, o: Order) {
    (n in t ==> Removable(t, n)) && (o.qty > 0 || Resting(t - {n}, KeyOf(o)) > 0)
  }

  /** The exact condition on a message for the levels to survive it. */
  ghost predicate Admissible(t: Table, m: Msg) {
    match m
    case Add(n, _, _, _, _, _, _, _) => n == 0 || Insertable(t, n, Added(m))
    case Exec(_, n, _, _) => n in t ==> Removable(t, n)
    case Delete(n) => n in t ==> Removable(t, n)
    case Replace(o, n, _, _) => o in t ==> Removable(t, o) && Insertable(t - {o}, n, Replaced(m, t[o]))
    case _ => true
  }

  lemma ReduceResting(t: Table, n: nat, q: nat, k: LevelKey)
    requires n in t && q <= t[n].qty
    ensures Resting(if q == t[n].qty then t - {n} else t[n := t[n].(qty := t[n].qty - q)], k)
            == Resting(t, k) - if k == KeyOf(t[n]) then q else 0
  {
    RestingDrop(t, n, k);
    RestingPut(t, n, t[n].(qty := t[n].qty - q), k);
  }

  lemma ReduceExact(s: Store, n: nat, q: nat)
    requires LevelsAgree(s) && n in s.orders && q <= s.orders[n].qty
    ensures LevelFault(s.levels, KeyOf(s.orders[n]), q).NoFault? <==> Removable(s.orders, n)
    ensures Removable(s.orders, n) ==>
              var o := s.orders[n];
              LevelsAgree(Store(if q == o.qty then s.orders - {n} else s.orders[n := o.(qty := o.qty - q)],
                                LevelRemove(s.levels, KeyOf(o), q)))
  {
    var o := s.orders[n];
    RestingDrop(s.orders, n, KeyOf(o));
    var t := if q == o.qty then s.orders - {n} else s.orders[n := o.(qty := o.qty - q)];
    forall k
      ensures Resting(t, k) == Resting(s.orders, k) - if k == KeyOf(o) then q else 0
    {
      ReduceResting(s.orders, n, q, k);
    }
    if Removable(s.orders, n) {
      var levels := LevelRemove(s.levels, KeyOf(o), q);
      assert LevelsAgree(Store(t, levels));
    }
  }

  lemma RemoveExact(s: Store, n: nat)
    requires LevelsAgree(s) && n in s.orders
    ensures Good(RemoveOrder(s, n)) <==> Removable(s.orders, n)
  {
    ReduceExact(s, n, s.orders[n].qty);
  }

  lemma PlaceExact(s: Store, n: nat, o: Order)
    requires LevelsAgree(s) && n !in s.orders
    ensures LevelsAgree(Store(s.orders[n := o], LevelAdd(s.levels, KeyOf(o), o.qty)))
            <==> o.qty > 0 || Resting(s.orders, KeyOf(o)) > 0
  {
    var levels := LevelAdd(s.levels, KeyOf(o), o.qty);
    var t := s.orders[n := o];
    assert s.orders - {n} == s.orders;
    forall k
      ensures Resting(t, k) == Resting(s.orders, k) + if k == KeyOf(o) then o.qty else 0
    {
      RestingPut(s.orders, n, o, k);
    }
    assert KeyOf(o) in levels;
  }

  lemma InsertExact(s: Store, n: nat, o: Order)
    requires LevelsAgree(s)
    ensures Good(Insert(s, n, o)) <==> Insertable(s.orders, n, o)
  {
    if n in s.orders {
      RemoveExact(s, n);
      if Removable(s.orders, n) {
        var cleared := RemoveOrder(s, n).store;
        assert cleared.orders[n := o] == s.orders[n := o];
        PlaceExact(cleared, n, o);
      }
    } else {
      assert s.orders - {n} == s.orders;
      PlaceExact(s, n, o);
    }
  }

  /** One message, from any store whose levels agree with its orders: nothing is
      raised and the levels agree again if and only if the message is admissible. */
  lemma ApplyExact(s: Store, m: Msg)
    requires LevelsAgree(s)
    ensures Good(Apply(s, m)) <==> Admissible(s.orders, m)
  {
    match m
    case Add(n, _, _, _, _, _, _, _) => InsertExact(s, n, Added(m));
    case Exec(_, n, q, _) =>
      if n in s.orders { ReduceExact(s, n, Filled(s.orders[n], q)); }
    case Delete(n) =>
      if n in s.orders { RemoveExact(s, n); }
    case Replace(o, n, _, _) =>
      if o in s.orders {
        RemoveExact(s, o);
        if Removable(s.orders, o) { InsertExact(RemoveOrder(s, o).store, n, Replaced(m, s.orders[o])); }
      }
    case _ =>
  }

  /** A message that raises nothing moves the order table by `Orders.Step`, so
      collisions, clamped and orphan messages have their documented effect. */
  lemma ApplyOrders(s: Store, m: Msg)
    requires Apply(s, m).fault.NoFault?
    ensures Apply(s, m).store.orders == Step(s.orders, m)
  {
    match m
    case Replace(o, n, _, _) =>
      if o in s.orders && n in s.orders - {o} {
        assert (s.orders - {o} - {n})[n := Replaced(m, s.orders[o])] == (s.orders - {o})[n := Replaced(m, s.orders[o])];
      }
    case Add(n, _, _, _, _, _, _, _) =>
      assert (s.orders - {n})[n := Added(m)] == s.orders[n := Added(m)];
    case _ =>
  }

  // --- runs ------------------------------------------------------------------

  /** The outcome of the first `n` messages on an empty store; a fault stops the run. */
  function After(ms: seq<Msg>, n: nat): Outcome
    requires n <= |ms|
  {
    if n == 0 then Outcome(Empty, NoFault, None)
    else
      var before := After(ms, n - 1);
      if !before.fault.NoFault? then before else Apply(before.store, ms[n - 1])
  }

  lemma {:induction false} EmptyAgrees()
    ensures LevelsAgree(Empty)
  {
    forall k ensures Resting(Empty.orders, k) == 0 {}
  }

  /** The levels agree with the orders, and nothing was raised, after each of
      the first `n` messages. */
  ghost predicate AlwaysGood(ms: seq<Msg>, n: nat)
    requires n <= |ms|
  {
    Good(After(ms, n)) && (n > 0 ==> AlwaysGood(ms, n - 1))
  }

  /** Each of the first `n` messages is admissible in the table it meets. */
  ghost predicate AlwaysAdmissible(ms: seq<Msg>, n: nat)
    requires n <= |ms|
  {
    n > 0 ==> Admissible(After(ms, n - 1).store.orders, ms[n - 1]) && AlwaysAdmissible(ms, n - 1)
  }

  /** Over a whole run, the levels agree with the orders after every message,
      and nothing is ever raised, if and only if every message was admissible in
      the table it met. */
  lemma {:induction false} RunExact(ms: seq<Msg>, n: nat)
    requires n <= |ms|
    ensures AlwaysGood(ms, n) <==> AlwaysAdmissible(ms, n)
  {
    if n == 0 {
      EmptyAgrees();
    } else {
      RunExact(ms, n - 1);
      if AlwaysGood(ms, n - 1) {
        var before := After(ms, n - 1);
        ApplyExact(before.store, ms[n - 1]);
        assert After(ms, n) == Apply(before.store, ms[n - 1]);
      }
    }
  }

  /** Positive quantities are enough: every such message is admissible. */
  lemma PositiveAdmissible(t: Table, m: Msg)
    requires AllPositive(t) && PositiveQty(m)
    ensures Admissible(t, m) && AllPositive(Step(t, m))
  {
  }

  /** After any sequence of messages with positive quantities, whatever its
      collisions, over-executions and orphans: no KeyError, no negative level,
      and the levels are the sums over the live orders. */
  lemma {:induction false} PositiveRun(ms: seq<Msg>, n: nat)
    requires n <= |ms|
    requires forall i :: 0 <= i < |ms| ==> PositiveQty(ms[i])
    ensures Good(After(ms, n)) && AllPositive(After(ms, n).store.orders)
  {
    if n == 0 {
      EmptyAgrees();
    } else {
      PositiveRun(ms, n - 1);
      var before := After(ms, n - 1).store;
      PositiveAdmissible(before.orders, ms[n - 1]);
      ApplyExact(before, ms[n - 1]);
      ApplyOrders(before, ms[n - 1]);
    }
  }

  /** Zero quantities break it: another order's deletion takes the level that a
      zero-quantity order still names, and deleting that one raises. */
  lemma ZeroQuantityRaises()
    ensures var zero := Add(1, "8306", "DAY", 'B', 100, 0, false, ' ');
            var ten := Add(2, "8306", "DAY", 'B', 100, 10, false, ' ');
            var ms := [zero, ten, Delete(2), Delete(1)];
            After(ms, 3).fault.NoFault? && After(ms, 4).fault.MissingLevel?
  {
    var zero := Add(1, "8306", "DAY", 'B', 100, 0, false, ' ');
    var ten := Add(2, "8306", "DAY", 'B', 100, 10, false, ' ');
    var ms := [zero, ten, Delete(2), Delete(1)];
    var k := LevelKey("8306", true, 100);
    var s1 := Store(map[1 := Added(zero)], map[k := 0]);
    var s2 := Store(map[1 := Added(zero), 2 := Added(ten)], map[k := 10]);
    var s3 := Store(map[1 := Added(zero)], map[]);
    assert After(ms, 1).store == s1;
    assert After(ms, 2).store == s2;
    assert s2.levels - {k} == map[];
    assert s2.orders - {2} == s1.orders;
    assert After(ms, 3).store == s3;
  }
}
