/** Sums of a weight over the values of a finite map.  A sum is defined by
    taking the keys out in some order; the lemmas make it independent of that
    order, so that one changed key changes the sum by one term. */
module Totals {

  ghost function Total<K, V>(m: map<K, V>, w: V -> nat): (t: nat)
    decreases |m|
  {
    if m == map[] then 0
    else
      var k :| k in m;
      w(m[k]) + Total(m - {k}, w)
  }

  lemma {:induction false} Split<K, V>(m: map<K, V>, k: K, w: V -> nat)
    requires k in m
    ensures Total(m, w) == w(m[k]) + Total(m - {k}, w)
    decreases |m|
  {
    var j :| j in m && Total(m, w) == w(m[j]) + Total(m - {j}, w);
    if j != k {
      Split(m - {j}, k, w);
      Split(m - {k}, j, w);
      assert m - {j} - {k} == m - {k} - {j};
    }
  }

  lemma Put<K, V>(m: map<K, V>, k: K, v: V, w: V -> nat)
    ensures Total(m[k := v], w) == Total(m - {k}, w) + w(v)
  {
    Split(m[k := v], k, w);
    assert m[k := v] - {k} == m - {k};
  }

  lemma Drop<K, V>(m: map<K, V>, k: K, w: V -> nat)
    ensures Total(m, w) == Total(m - {k}, w) + if k in m then w(m[k]) else 0
  {
    if k in m {
      Split(m, k, w);
    } else {
      assert m - {k} == m;
    }
  }

  /** A sum is positive exactly when some term is. */
  lemma {:induction false} Positive<K, V>(m: map<K, V>, w: V -> nat)
    ensures Total(m, w) > 0 <==> exists k :: k in m && w(m[k]) > 0
    decreases |m|
  {
    if m != map[] {
      var j :| j in m && Total(m, w) == w(m[j]) + Total(m - {j}, w);
      Positive(m - {j}, w);
      forall k | k in m && w(m[k]) > 0
        ensures Total(m, w) > 0
      {
        if k != j {
          assert k in m - {j} && (m - {j})[k] == m[k];
        }
      }
    }
  }

  /** Two maps whose values weigh the same key by key have the same sum. */
  lemma {:induction false} Same<K, U, V>(m: map<K, U>, n: map<K, V>, w: U -> nat, x: V -> nat)
    requires m.Keys == n.Keys
    requires forall k :: k in m ==> w(m[k]) == x(n[k])
    ensures Total(m, w) == Total(n, x)
    decreases |m|
  {
    if m != map[] {
      var j :| j in m;
      Split(m, j, w);
      Split(n, j, x);
      Same(m - {j}, n - {j}, w, x);
    } else {
      assert n == map[];
    }
  }
}

/** Decoded ITCH messages, with the fields that reach the market state. */
module Itch {

  datatype Option<+T> = None | Some(value: T)

  datatype Msg =
    | Seconds(seconds: nat)                                    // T
    | EndOfSnapshot(sequence: nat)                             // G
    | Add(number: nat, book: string, group: string, side: char, price: nat, qty: nat,
          attributed: bool, kind: char)                        // A, or F when attributed
    | Exec(ns: nat, number: nat, executed: nat, matchNumber: nat) // E
    | Delete(number: nat)                                      // D
    | Replace(orig: nat, number: nat, price: nat, qty: nat)    // U
    | Directory(book: string, group: string, info: Info)       // R
    | TickSize(table: nat, start: nat, size: nat)              // L
    | TradingState(book: string, group: string, state: char)   // H
    | ShortSell(book: string, group: string, state: char)      // Y
    | SystemEvent(ns: nat, group: string, event: char)         // S

  /** The directory fields of an instrument. */
  datatype Info = Info(isin: string, roundLot: nat, tickTable: nat, decimals: nat, upper: nat, lower: nat)
}

/** The order-number-keyed table that A/F/E/D/U messages drive, and the price
    levels it aggregates to. */
module Orders {
  import opened Itch
  import opened Totals

  datatype Order = Order(book: string, group: string, side: char, price: nat, qty: nat, kind: char)

  type Table = map<nat, Order>

  /** One side of one book at one price.  Every side other than 'B' is an ask. */
  datatype LevelKey = LevelKey(book: string, bid: bool, price: nat)

  /** One side of one book. */
  datatype SideKey = SideKey(book: string, bid: bool)

  function KeyOf(o: Order): LevelKey {
    LevelKey(o.book, o.side == 'B', o.price)
  }

  /** The order an A/F message inserts; only F carries an order type. */
  function Added(m: Msg): Order
    requires m.Add?
  {
    Order(m.book, m.group, m.side, m.price, m.qty, if m.attributed then m.kind else ' ')
  }

  /** The order a U message inserts in place of `orig`. */
  function Replaced(m: Msg, orig: Order): Order
    requires m.Replace?
  {
    orig.(price := m.price, qty := m.qty)
  }

  /** Effect of one message on the live orders. */
  function Step(t: Table, m: Msg): Table {
    match m
    case Add(n, _, _, _, _, _, _, _) => if n == 0 then t else t[n := Added(m)]
    case Exec(_, n, q, _) =>
      if n !in t then t
      else if q >= t[n].qty then t - {n}
      else t[n := t[n].(qty := t[n].qty - q)]
    case Delete(n) => t - {n}
    case Replace(o, n, _, _) => if o !in t then t else (t - {o})[n := Replaced(m, t[o])]
    case _ => t
  }

  /** Weights: the quantity, and the number, of orders resting at a level. */
  function QtyAt(k: LevelKey): Order -> nat {
    (o: Order) => if KeyOf(o) == k then o.qty else 0
  }

  function CountAt(k: LevelKey): Order -> nat {
    (o: Order) => if KeyOf(o) == k then 1 else 0
  }

  function Qty(): Order -> nat {
    (o: Order) => o.qty
  }

  /** Quantity that the live orders put at a level: the definition the
      incrementally kept levels are compared with. */
  ghost function Resting(t: Table, k: LevelKey): nat {
    Total(t, QtyAt(k))
  }

  ghost predicate AllPositive(t: Table) {
    forall n :: n in t ==> t[n].qty > 0
  }

  /** A message whose order, if it inserts one, has a positive quantity.  An A with
      number 0 is a reference price and inserts nothing. */
  predicate PositiveQty(m: Msg) {
    (m.Add? && m.number != 0 ==> m.qty > 0) && (m.Replace? ==> m.qty > 0)
  }

  /** Total quantity of the live orders. */
  ghost function LiveQty(t: Table): nat {
    Total(t, Qty())
  }

  lemma RestingPut(t: Table, n: nat, o: Order, k: LevelKey)
    ensures Resting(t[n := o], k) == Resting(t - {n}, k) + if KeyOf(o) == k then o.qty else 0
  {
    Put(t, n, o, QtyAt(k));
  }

  lemma RestingDrop(t: Table, n: nat, k: LevelKey)
    ensures Resting(t, k) == Resting(t - {n}, k) + if n in t && KeyOf(t[n]) == k then t[n].qty else 0
  {
    Drop(t, n, QtyAt(k));
  }
}
