/** The plus/minus/zero tick test behind the short-sell price. */
module Uptick {
  import opened Itch

  const NO_PRICE: nat := 0x7FFFFFFF

  /** Prices that stand for "no price": the prototype excludes the sentinel, the
      C++ tape marks an absent price by its sign instead. */
  const PYTHON: set<nat> := {NO_PRICE}
  const CPP: set<nat> := {}

  /** What a book remembers between trades. */
  datatype Tick = Tick(last: Option<nat>, up: bool)

  /** One trade: its price, and the base price known when it was recorded. */
  datatype Print = Print(price: nat, base: Option<nat>)

  const Opening := Tick(None, false)

  function Step(unknown: set<nat>, t: Tick, p: Print): Tick {
    var ltp := if t.last.Some? then t.last else p.base;
    if ltp.Some? && ltp.value !in unknown then
      if p.price > ltp.value then Tick(Some(p.price), true)
      else if p.price < ltp.value then Tick(Some(p.price), false)
      else Tick(Some(p.price), t.up)
    else Tick(Some(p.price), t.up)
  }

  function Run(unknown: set<nat>, t: Tick, ps: seq<Print>): Tick {
    if ps == [] then t else Step(unknown, Run(unknown, t, ps[..|ps| - 1]), ps[|ps| - 1])
  }

  // --- the closed form ------------------------------------------------------------

  /** The price the `i`-th print is compared with: the print before it, and for
      the first the remembered price or else the base price. */
  function Earlier(t: Tick, ps: seq<Print>, i: nat): Option<nat>
    requires i < |ps|
  {
    if i > 0 then Some(ps[i - 1].price) else if t.last.Some? then t.last else ps[0].base
  }

  /** A price change whose earlier price is known. */
  predicate Moves(unknown: set<nat>, t: Tick, ps: seq<Print>, i: nat)
    requires i < |ps|
  {
    Earlier(t, ps, i).Some? && Earlier(t, ps, i).value !in unknown && ps[i].price != Earlier(t, ps, i).value
  }

  predicate Rises(unknown: set<nat>, t: Tick, ps: seq<Print>, i: nat)
    requires i < |ps|
  {
    Moves(unknown, t, ps, i) && ps[i].price > Earlier(t, ps, i).value
  }

  ghost predicate LastMove(unknown: set<nat>, t: Tick, ps: seq<Print>, j: nat) {
    && j < |ps| && Moves(unknown, t, ps, j)
    && forall i :: j < i < |ps| ==> !Moves(unknown, t, ps, i)
  }

  /** The last price move decides; without one the flag stays as it was. */
  lemma {:induction false} RunClosed(unknown: set<nat>, t: Tick, ps: seq<Print>)
    ensures Run(unknown, t, ps).last == if ps == [] then t.last else Some(ps[|ps| - 1].price)
    ensures forall j :: LastMove(unknown, t, ps, j) ==> Run(unknown, t, ps).up == Rises(unknown, t, ps, j)
    ensures (forall i :: 0 <= i < |ps| ==> !Moves(unknown, t, ps, i)) ==> Run(unknown, t, ps).up == t.up
  {
    if ps != [] {
      var n := |ps| - 1;
      var front := ps[..n];
      RunClosed(unknown, t, front);
      forall i | 0 <= i < n
        ensures Moves(unknown, t, front, i) == Moves(unknown, t, ps, i)
        ensures Rises(unknown, t, front, i) == Rises(unknown, t, ps, i)
      {
      }
      if !Moves(unknown, t, ps, n) {
        assert Run(unknown, t, ps).up == Run(unknown, t, front).up;
        forall j | LastMove(unknown, t, ps, j)
          ensures Run(unknown, t, ps).up == Rises(unknown, t, ps, j)
        {
          assert LastMove(unknown, t, front, j);
        }
      }
    }
  }

  /** There is a last move as soon as there is one at all. */
  lemma {:induction false} LastMoveExists(unknown: set<nat>, t: Tick, ps: seq<Print>, i: nat) returns (j: nat)
    requires i < |ps| && Moves(unknown, t, ps, i)
    ensures LastMove(unknown, t, ps, j) && i <= j
    decreases |ps| - i
  {
    if k :| i < k < |ps| && Moves(unknown, t, ps, k) {
      j := LastMoveExists(unknown, t, ps, k);
    } else {
      j := i;
    }
  }

  /** From the open: the flag is up exactly when the last price change, in the
      base price followed by the trades, was a rise. */
  lemma UptickClosed(unknown: set<nat>, ps: seq<Print>)
    ensures Run(unknown, Opening, ps).up <==>
              exists j :: LastMove(unknown, Opening, ps, j) && Rises(unknown, Opening, ps, j)
  {
    RunClosed(unknown, Opening, ps);
    if i :| 0 <= i < |ps| && Moves(unknown, Opening, ps, i) {
      var j := LastMoveExists(unknown, Opening, ps, i);
    }
  }

  // --- markets that joined late ------------------------------------------------------

  /** The flag a first print leaves, from the remembered price or else the base. */
  predicate FlagAfter(unknown: set<nat>, t: Tick, p: Print) {
    var ltp := if t.last.Some? then t.last else p.base;
    if ltp.Some? && ltp.value !in unknown && p.price != ltp.value then p.price > ltp.value else t.up
  }

  predicate SamePrices(ps: seq<Print>, qs: seq<Print>) {
    |ps| == |qs| && forall i :: 0 <= i < |ps| ==> ps[i].price == qs[i].price
  }

  /** Two markets that see the same prices from different pasts, and perhaps with
      different base prices, agree on the flag exactly when some print moved from a
      price both saw, or the first print left them the same flag: it moved the same
      way from what each remembered, or left equal flags alone. */
  lemma PricesAgree(unknown: set<nat>, t: Tick, ps: seq<Print>, u: Tick, qs: seq<Print>)
    requires ps != [] && SamePrices(ps, qs)
    ensures Run(unknown, t, ps).up == Run(unknown, u, qs).up <==>
              || (exists i :: 0 < i < |ps| && Moves(unknown, t, ps, i))
              || FlagAfter(unknown, t, ps[0]) == FlagAfter(unknown, u, qs[0])
  {
    RunClosed(unknown, t, ps);
    RunClosed(unknown, u, qs);
    forall i | 0 < i < |ps|
      ensures Moves(unknown, t, ps, i) == Moves(unknown, u, qs, i)
                && Rises(unknown, t, ps, i) == Rises(unknown, u, qs, i)
    {
    }
    if i :| 0 < i < |ps| && Moves(unknown, t, ps, i) {
      var j := LastMoveExists(unknown, t, ps, i);
      assert LastMove(unknown, u, qs, j);
    } else {
      FirstDecides(unknown, t, ps);
      FirstDecides(unknown, u, qs);
    }
  }

  /** The same, for the very same prints. */
  lemma JoinAgrees(unknown: set<nat>, t: Tick, u: Tick, ps: seq<Print>)
    requires ps != []
    ensures Run(unknown, t, ps).up == Run(unknown, u, ps).up <==>
              || (exists i :: 0 < i < |ps| && Moves(unknown, t, ps, i))
              || FlagAfter(unknown, t, ps[0]) == FlagAfter(unknown, u, ps[0])
  {
    PricesAgree(unknown, t, ps, u, ps);
  }

  lemma FirstDecides(unknown: set<nat>, t: Tick, ps: seq<Print>)
    requires ps != [] && forall i :: 0 < i < |ps| ==> !Moves(unknown, t, ps, i)
    ensures Run(unknown, t, ps).up == Step(unknown, t, ps[0]).up
  {
    RunClosed(unknown, t, ps);
    if Moves(unknown, t, ps, 0) {
      assert LastMove(unknown, t, ps, 0);
    } else {
      forall i | 0 <= i < |ps|
        ensures !Moves(unknown, t, ps, i)
      {
      }
    }
  }

  /** Recovery from the database restores the last price and clears the flag: the
      recovered market agrees exactly when the flag was down, or a print has
      moved since. */
  lemma RecoveryAgrees(unknown: set<nat>, t: Tick, ps: seq<Print>)
    requires t.last.Some?
    ensures Run(unknown, t, ps).up == Run(unknown, Tick(t.last, false), ps).up <==>
              !t.up || exists i :: 0 <= i < |ps| && Moves(unknown, t, ps, i)
  {
    var u := Tick(t.last, false);
    RunClosed(unknown, t, ps);
    RunClosed(unknown, u, ps);
    forall i | 0 <= i < |ps|
      ensures Moves(unknown, t, ps, i) == Moves(unknown, u, ps, i)
                && Rises(unknown, t, ps, i) == Rises(unknown, u, ps, i)
    {
    }
    if i :| 0 <= i < |ps| && Moves(unknown, t, ps, i) {
      var j := LastMoveExists(unknown, t, ps, i);
      assert LastMove(unknown, u, ps, j);
    }
  }
}

/** The trade tape: a bounded list of trades and per-book statistics. */
module TapeModel {
  import opened Itch
  import opened Totals
  import opened Uptick

  const CAP: nat := 10000

  /** One trade as it is recorded, with the base price known then. */
  datatype Trade = Trade(time: nat, book: string, price: nat, qty: nat, matchNumber: nat, base: Option<nat>)

  datatype Entry = Entry(time: nat, book: string, price: nat, qty: nat, matchNumber: nat)

  datatype BookStats = BookStats(count: nat, volume: nat, notional: nat, last: Option<nat>, lastQty: Option<nat>,
    uptick: bool)

  datatype Tape = Tape(entries: seq<Entry>, stats: map<string, BookStats>, count: nat, volume: nat)

  const Blank := Tape([], map[], 0, 0)
  const NoTrades := BookStats(0, 0, 0, None, None, false)

  function EntryOf(t: Trade): Entry {
    Entry(t.time, t.book, t.price, t.qty, t.matchNumber)
  }

  /** Append to a bounded list, the oldest entry leaving first. */
  function Push(entries: seq<Entry>, e: Entry): seq<Entry> {
    if |entries| < CAP then entries + [e] else entries[|entries| - CAP + 1..] + [e]
  }

  function Bump(s: BookStats, t: Trade): BookStats {
    var k := Step(PYTHON, Tick(s.last, s.uptick), Print(t.price, t.base));
    BookStats(s.count + 1, s.volume + t.qty, s.notional + t.price * t.qty, Some(t.price), Some(t.qty), k.up)
  }

  function Record(tape: Tape, t: Trade): Tape {
    var s := if t.book in tape.stats then tape.stats[t.book] else NoTrades;
    Tape(Push(tape.entries, EntryOf(t)), tape.stats[t.book := Bump(s, t)], tape.count + 1, tape.volume + t.qty)
  }

  function RecordAll(tape: Tape, ts: seq<Trade>): Tape {
    if ts == [] then tape else Record(RecordAll(tape, ts[..|ts| - 1]), ts[|ts| - 1])
  }

  // --- what the tape adds up to ------------------------------------------------------

  /** The trades of one book, in order. */
  function OfBook(ts: seq<Trade>, b: string): seq<Trade> {
    if ts == [] then []
    else
      var front := OfBook(ts[..|ts| - 1], b);
      if ts[|ts| - 1].book == b then front + [ts[|ts| - 1]] else front
  }

  function Volume(ts: seq<Trade>): nat {
    if ts == [] then 0 else Volume(ts[..|ts| - 1]) + ts[|ts| - 1].qty
  }

  function Notional(ts: seq<Trade>): nat {
    if ts == [] then 0 else Notional(ts[..|ts| - 1]) + ts[|ts| - 1].price * ts[|ts| - 1].qty
  }

  function Prints(ts: seq<Trade>): seq<Print> {
    seq(|ts|, i requires 0 <= i < |ts| => Print(ts[i].price, ts[i].base))
  }

  function Entries(ts: seq<Trade>): seq<Entry> {
    seq(|ts|, i requires 0 <= i < |ts| => Entry(ts[i].time, ts[i].book, ts[i].price, ts[i].qty, ts[i].matchNumber))
  }

  /** The statistics a non-empty list of one book's trades should show. */
  function Summary(ts: seq<Trade>): BookStats
    requires ts != []
  {
    var last := ts[|ts| - 1];
    BookStats(|ts|, Volume(ts), Notional(ts), Some(last.price), Some(last.qty), Run(PYTHON, Opening, Prints(ts)).up)
  }

  lemma VolumeNext(ts: seq<Trade>, t: Trade)
    ensures Volume(ts + [t]) == Volume(ts) + t.qty
  {
    assert (ts + [t])[..|ts|] == ts;
  }

  lemma NotionalNext(ts: seq<Trade>, t: Trade)
    ensures Notional(ts + [t]) == Notional(ts) + t.price * t.qty
  {
    var us := ts + [t];
    assert us[..|us| - 1] == ts && us[|us| - 1] == t;
  }

  lemma TickNext(ts: seq<Trade>, t: Trade)
    ensures Run(PYTHON, Opening, Prints(ts + [t]))
            == Step(PYTHON, Run(PYTHON, Opening, Prints(ts)), Print(t.price, t.base))
  {
    var us := ts + [t];
    assert Prints(us)[..|ts|] == Prints(ts);
    assert Prints(us)[|ts|] == Print(t.price, t.base);
  }

  lemma SummaryNext(ts: seq<Trade>, t: Trade)
    ensures Summary(ts + [t]) == Bump(if ts == [] then NoTrades else Summary(ts), t)
  {
    VolumeNext(ts, t);
    NotionalNext(ts, t);
    TickNext(ts, t);
    RunClosed(PYTHON, Opening, Prints(ts));
    var s := if ts == [] then NoTrades else Summary(ts);
    assert Tick(s.last, s.uptick) == Run(PYTHON, Opening, Prints(ts));
    assert s.volume == Volume(ts) && s.notional == Notional(ts);
  }

  lemma {:induction false} BookClosed(ts: seq<Trade>, b: string)
    ensures var s := RecordAll(Blank, ts).stats;
            (b in s <==> OfBook(ts, b) != []) && (b in s ==> s[b] == Summary(OfBook(ts, b)))
  {
    if ts != [] {
      var front, t := ts[..|ts| - 1], ts[|ts| - 1];
      BookClosed(front, b);
      RecordAt(RecordAll(Blank, front), t, b);
      if t.book == b { SummaryNext(OfBook(front, b), t); }
    }
  }

  lemma RecordAt(tape: Tape, t: Trade, b: string)
    ensures var s := Record(tape, t).stats;
            && (b in s <==> b in tape.stats || b == t.book)
            && (b in s ==> s[b] == if b != t.book then tape.stats[b]
                                   else Bump(if b in tape.stats then tape.stats[b] else NoTrades, t))
  {
  }

  lemma {:induction false} ListClosed(ts: seq<Trade>)
    ensures var tape := RecordAll(Blank, ts);
            && tape.count == |ts| && tape.volume == Volume(ts)
            && tape.entries == Entries(ts)[if |ts| > 10_000 then |ts| - 10_000 else 0..]
  {
    if ts != [] {
      var front, t := ts[..|ts| - 1], ts[|ts| - 1];
      ListClosed(front);
      assert Entries(ts) == Entries(front) + [EntryOf(t)];
    }
  }

  /** Every book that traded, and no other, has statistics, and they are those of
      its own trades; the list holds the latest trades, at most 10,000. */
  lemma TapeClosed(ts: seq<Trade>)
    ensures var tape := RecordAll(Blank, ts);
            && tape.count == |ts| && tape.volume == Volume(ts)
            && tape.entries == Entries(ts)[if |ts| > 10_000 then |ts| - 10_000 else 0..]
            && forall b :: (b in tape.stats <==> OfBook(ts, b) != [])
                        && (b in tape.stats ==> tape.stats[b] == Summary(OfBook(ts, b)))
  {
    ListClosed(ts);
    forall b
      ensures var s := RecordAll(Blank, ts).stats;
              (b in s <==> OfBook(ts, b) != []) && (b in s ==> s[b] == Summary(OfBook(ts, b)))
    {
      BookClosed(ts, b);
    }
  }

  function VolumeOf(): BookStats -> nat {
    (s: BookStats) => s.volume
  }

  /** The books' volumes add up to the tape's. */
  lemma {:induction false} VolumesAddUp(ts: seq<Trade>)
    ensures Total(RecordAll(Blank, ts).stats, VolumeOf()) == Volume(ts)
  {
    if ts != [] {
      var front, t := ts[..|ts| - 1], ts[|ts| - 1];
      VolumesAddUp(front);
      var tape := RecordAll(Blank, front);
      var s := if t.book in tape.stats then tape.stats[t.book] else NoTrades;
      Put(tape.stats, t.book, Bump(s, t), VolumeOf());
      Drop(tape.stats, t.book, VolumeOf());
    }
  }

  /** Notional lies between the extreme prices times the volume. */
  lemma {:induction false} NotionalBounds(ts: seq<Trade>, lo: nat, hi: nat)
    requires forall i :: 0 <= i < |ts| ==> lo <= ts[i].price <= hi
    ensures lo * Volume(ts) <= Notional(ts) <= hi * Volume(ts)
  {
    if ts != [] {
      var front, t := ts[..|ts| - 1], ts[|ts| - 1];
      NotionalBounds(front, lo, hi);
      Widen(lo, hi, Volume(front), Notional(front), t.price, t.qty);
    }
  }

  lemma Widen(lo: nat, hi: nat, v: nat, n: nat, p: nat, q: nat)
    requires lo * v <= n <= hi * v && lo <= p <= hi
    ensures lo * (v + q) <= n + p * q <= hi * (v + q)
  {
    assert lo * (v + q) == lo * v + lo * q;
    assert hi * (v + q) == hi * v + hi * q;
    assert (p - lo) * q >= 0 && (hi - p) * q >= 0;
  }

  /** A book's statistics keep within the extreme prices of its own trades. */
  lemma BookNotional(ts: seq<Trade>, b: string, lo: nat, hi: nat)
    requires OfBook(ts, b) != [] && forall i :: 0 <= i < |OfBook(ts, b)| ==> lo <= OfBook(ts, b)[i].price <= hi
    ensures var s := RecordAll(Blank, ts).stats;
            b in s && lo * s[b].volume <= s[b].notional <= hi * s[b].volume
  {
    BookClosed(ts, b);
    NotionalBounds(OfBook(ts, b), lo, hi);
  }

  lemma {:induction false} RecordSplit(tape: Tape, a: seq<Trade>, b: seq<Trade>)
    ensures RecordAll(tape, a + b) == RecordAll(RecordAll(tape, a), b)
  {
    if b == [] {
      assert a + b == a;
    } else {
      assert (a + b)[..|a + b| - 1] == a + b[..|b| - 1];
      RecordSplit(tape, a, b[..|b| - 1]);
    }
  }

  // --- a tape that starts late ---------------------------------------------------------

  lemma {:induction false} OfBookSplit(a: seq<Trade>, c: seq<Trade>, b: string)
    ensures OfBook(a + c, b) == OfBook(a, b) + OfBook(c, b)
  {
    if c == [] {
      assert a + c == a;
    } else {
      assert (a + c)[..|a + c| - 1] == a + c[..|c| - 1];
      OfBookSplit(a, c[..|c| - 1], b);
    }
  }

  lemma {:induction false} TickSplit(t: Tick, p: seq<Print>, q: seq<Print>)
    ensures Run(PYTHON, t, p + q) == Run(PYTHON, Run(PYTHON, t, p), q)
  {
    if q == [] {
      assert p + q == p;
    } else {
      assert (p + q)[..|p + q| - 1] == p + q[..|q| - 1];
      TickSplit(t, p, q[..|q| - 1]);
    }
  }

  lemma PrintsSplit(x: seq<Trade>, y: seq<Trade>)
    ensures Run(PYTHON, Opening, Prints(x + y)) == Run(PYTHON, Run(PYTHON, Opening, Prints(x)), Prints(y))
  {
    assert Prints(x + y) == Prints(x) + Prints(y);
    TickSplit(Opening, Prints(x), Prints(y));
  }

  /** A book's flag is decided by its own trades alone. */
  lemma BookFlag(ts: seq<Trade>, b: string)
    requires OfBook(ts, b) != []
    ensures var s := RecordAll(Blank, ts).stats; b in s && s[b].uptick == Run(PYTHON, Opening, Prints(OfBook(ts, b))).up
  {
    BookClosed(ts, b);
  }

  /** A tape that missed the trades `a` agrees on a book's flag exactly when one of
      the book's later trades moved from the trade before it, or the two already
      agreed after the first of them. */
  lemma LateTape(a: seq<Trade>, c: seq<Trade>, b: string)
    requires OfBook(c, b) != []
    ensures b in RecordAll(Blank, a + c).stats && b in RecordAll(Blank, c).stats
    ensures var t, ps := Run(PYTHON, Opening, Prints(OfBook(a, b))), Prints(OfBook(c, b));
            RecordAll(Blank, a + c).stats[b].uptick == RecordAll(Blank, c).stats[b].uptick <==>
              || (exists i :: 0 < i < |ps| && Moves(PYTHON, t, ps, i))
              || FlagAfter(PYTHON, t, ps[0])
                 == (ps[0].base.Some? && ps[0].base.value != NO_PRICE && ps[0].price > ps[0].base.value)
  {
    var x, y := OfBook(a, b), OfBook(c, b);
    OfBookSplit(a, c, b);
    BookFlag(a + c, b);
    BookFlag(c, b);
    PrintsSplit(x, y);
    JoinAgrees(PYTHON, Run(PYTHON, Opening, Prints(x)), Opening, Prints(y));
  }
}
