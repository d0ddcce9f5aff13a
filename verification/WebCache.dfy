/** What the viewer's cache holds after any events: for each ticker the row that the
    events of the current epoch give it, and the ring of its last prints. */
module WebCache {
  import opened Itch
  import opened WebModel

  // --- the events of the current epoch ------------------------------------------------

  /** The epoch the cache is in: the last update's, or a newer snapshot's. */
  function EpochOf(es: seq<Event>): Option<nat> {
    if es == [] then None
    else
      var was := EpochOf(es[..|es| - 1]);
      match es[|es| - 1]
      case Live(r) => Some(r.epoch)
      case Snap(_, e) => if was.Some? && e < was.value then was else Some(e)
  }

  /** A snapshot older than the epoch is not looked at. */
  predicate Stale(es: seq<Event>)
    requires es != []
  {
    var was := EpochOf(es[..|es| - 1]);
    es[|es| - 1].Snap? && was.Some? && es[|es| - 1].epoch < was.value
  }

  /** The last event changes the epoch. */
  predicate Turns(es: seq<Event>)
    requires es != []
  {
    EpochOf(es[..|es| - 1]).Some? && EpochOf(es) != EpochOf(es[..|es| - 1])
  }

  /** The events that count: those since the epoch last changed, less stale snapshots. */
  function Since(es: seq<Event>): seq<Event> {
    if es == [] then []
    else if Turns(es) then [es[|es| - 1]]
    else if Stale(es) then Since(es[..|es| - 1])
    else Since(es[..|es| - 1]) + [es[|es| - 1]]
  }

  function TurnsOf(es: seq<Event>): nat {
    if es == [] then 0 else TurnsOf(es[..|es| - 1]) + if Turns(es) then 1 else 0
  }

  // --- what they offer a ticker ---------------------------------------------------------

  /** A row offered for a ticker, by a live update or by a snapshot. */
  datatype Offer = Offer(row: Row, live: bool)

  function RowOffers(rows: seq<Row>, t: string): seq<Offer> {
    if rows == [] then []
    else
      var front, r := RowOffers(rows[..|rows| - 1], t), rows[|rows| - 1];
      if r.ticker == t then front + [Offer(r, false)] else front
  }

  function EventOffers(e: Event, t: string): seq<Offer> {
    match e
    case Live(r) => if r.ticker == t then [Offer(r, true)] else []
    case Snap(rows, _) => RowOffers(rows, t)
  }

  /** All offers to a ticker, in order. */
  function Offers(es: seq<Event>, t: string): seq<Offer> {
    if es == [] then [] else Offers(es[..|es| - 1], t) + EventOffers(es[|es| - 1], t)
  }

  /** Offer `p` stands: it is the last live one, or a later snapshot row that beats
      everything from the last live one on. */
  ghost predicate Stands(os: seq<Offer>, p: nat) {
    && p < |os|
    && (forall q :: p < q < |os| ==> !os[q].live && os[q].row.exchSeq <= os[p].row.exchSeq)
    && (!os[p].live ==> forall q :: 0 <= q < p && NoneLive(os, q, p) ==> os[q].row.exchSeq < os[p].row.exchSeq)
  }

  /** No live offer after `q`, up to `p`. */
  ghost predicate NoneLive(os: seq<Offer>, q: nat, p: nat)
    requires p < |os|
  {
    forall k :: q < k <= p ==> !os[k].live
  }

  /** Offer `p` was taken when it came: it stood among the offers so far. */
  ghost predicate Taken(os: seq<Offer>, p: nat)
    requires p < |os|
  {
    Stands(os[..p + 1], p)
  }

  /** Offer `p` prints: a live execution, or a snapshot row that was taken, traded, and
      is newer than the last print. */
  ghost predicate Prints(os: seq<Offer>, p: nat, last: Option<nat>)
    requires p < |os|
  {
    var r := os[p].row;
    if os[p].live then r.trigger == 'E'
    else Taken(os, p) && r.lastTradeNs != 0 && r.lastQty != 0 && (last.Some? ==> last.value < r.exchSeq)
  }

  /** The offers that print, in order. */
  ghost function Printed(os: seq<Offer>): (ps: seq<Row>) {
    if os == [] then []
    else
      var front := Printed(os[..|os| - 1]);
      var last := if front == [] then None else Some(front[|front| - 1].exchSeq);
      if Prints(os, |os| - 1, last) then front + [os[|os| - 1].row] else front
  }

  /** A ring of the last 50 printed rows, entry by entry. */
  ghost predicate Rings(ring: seq<Print>, ps: seq<Row>) {
    && |ring| == (if |ps| <= 50 then |ps| else 50)
    && forall i :: 0 <= i < |ring| ==> Shows(ring[i], ps[|ps| - |ring| + i])
  }

  predicate Shows(p: Print, r: Row) {
    p.exchSeq == r.exchSeq && p.exchNs == r.exchNs && p.price == r.lastPrice && p.qty == r.lastQty
  }

  /** A ticker's row and ring are what the offers give it. */
  ghost predicate Holds(w: Web, os: seq<Offer>, t: string) {
    && (t in w.tickers <==> os != [])
    && (t in w.tickers ==> exists p: nat :: Stands(os, p) && w.tickers[t] == os[p].row)
    && Rings(Ring(w, t), Printed(os))
  }

  // --- one more offer ---------------------------------------------------------------------

  lemma {:induction false} RingNext(ring: seq<Print>, ps: seq<Row>, r: Row)
    requires Rings(ring, ps)
    ensures Rings(Push(ring, Print(r.exchSeq, r.exchNs, r.lastPrice, r.lastQty)), ps + [r])
  {
    var e := Print(r.exchSeq, r.exchNs, r.lastPrice, r.lastQty);
    var more, all := Push(ring, e), ps + [r];
    forall i | 0 <= i < |more|
      ensures Shows(more[i], all[|all| - |more| + i])
    {
      if i == |more| - 1 {
        assert more[i] == e && all[|all| - |more| + i] == r;
      } else {
        var j := |ring| + 1 - |more| + i;
        assert more[i] == ring[j] && all[|all| - |more| + i] == ps[|ps| - |ring| + j];
      }
    }
  }

  lemma {:induction false} LiveStands(os: seq<Offer>, r: Row)
    ensures Stands(os + [Offer(r, true)], |os|)
  {
  }

  /** A snapshot row stands exactly when it beats the one that stood. */
  lemma {:induction false} SnapStands(os: seq<Offer>, r: Row, p: nat)
    requires Stands(os, p)
    ensures var all := os + [Offer(r, false)];
            && (r.exchSeq <= os[p].row.exchSeq ==> Stands(all, p) && !Stands(all, |os|))
            && (r.exchSeq > os[p].row.exchSeq ==> Stands(all, |os|))
  {
    var all := os + [Offer(r, false)];
    assert forall k :: 0 <= k < |os| ==> all[k] == os[k];
    if r.exchSeq <= os[p].row.exchSeq {
      assert NoneLive(all, p, |os|);
      forall q | 0 <= q < p && NoneLive(all, q, p)
        ensures NoneLive(os, q, p)
      {
      }
    } else {
      forall q | 0 <= q < |os| && NoneLive(all, q, |os|)
        ensures all[q].row.exchSeq < r.exchSeq
      {
        if q < p {
          assert !all[p].live;
          assert NoneLive(os, q, p);
        }
      }
    }
  }

  lemma {:induction false} PrintedNext(os: seq<Offer>, o: Offer)
    ensures var front, all := Printed(os), os + [o];
            var last := if front == [] then None else Some(front[|front| - 1].exchSeq);
            Printed(all) == if Prints(all, |os|, last) then front + [o.row] else front
  {
    assert (os + [o])[..|os|] == os;
  }

  /** The newest entry of the ring is the newest print. */
  lemma {:induction false} NewestPrint(ring: seq<Print>, ps: seq<Row>)
    requires Rings(ring, ps)
    ensures (ring == [] <==> ps == []) && (ring != [] ==> ring[|ring| - 1].exchSeq == ps[|ps| - 1].exchSeq)
  {
    if ring != [] { assert Shows(ring[|ring| - 1], ps[|ps| - 1]); }
  }

  /** A live update in the current epoch. */
  lemma {:induction false} LiveHolds(w: Web, os: seq<Offer>, r: Row)
    requires Holds(w, os, r.ticker) && (w.epoch.None? || w.epoch == Some(r.epoch))
    ensures Holds(ApplyUpdate(w, r), os + [Offer(r, true)], r.ticker)
  {
    var all := os + [Offer(r, true)];
    LiveStands(os, r);
    PrintedNext(os, Offer(r, true));
    assert all[|os|].row == r;
    if r.trigger == 'E' { RingNext(Ring(w, r.ticker), Printed(os), r); }
  }

  lemma {:induction false} LiveOthers(w: Web, os: seq<Offer>, r: Row, t: string)
    requires Holds(w, os, t) && t != r.ticker && (w.epoch.None? || w.epoch == Some(r.epoch))
    ensures Holds(ApplyUpdate(w, r), os, t)
  {
  }

  /** Whether a snapshot row is taken. */
  lemma {:induction false} SnapTaken(w: Web, os: seq<Offer>, r: Row)
    requires Holds(w, os, r.ticker)
    ensures var all := os + [Offer(r, false)];
            && (Taken(all, |os|) <==> !Keeps(w, r))
            && (Keeps(w, r) ==> exists p: nat :: Stands(all, p) && w.tickers[r.ticker] == all[p].row)
            && (!Keeps(w, r) ==> Stands(all, |os|))
  {
    var all := os + [Offer(r, false)];
    assert all[..|os| + 1] == all;
    if os != [] {
      var p: nat :| Stands(os, p) && w.tickers[r.ticker] == os[p].row;
      SnapStands(os, r, p);
      assert all[p] == os[p];
    }
  }

  /** What a snapshot row does to the ring: seeded if taken, traded and newer. */
  lemma {:induction false} SnapRing(w: Web, os: seq<Offer>, r: Row)
    requires Rings(Ring(w, r.ticker), Printed(os)) && (Taken(os + [Offer(r, false)], |os|) <==> !Keeps(w, r))
    ensures Rings(Ring(MergeRow(w, r), r.ticker), Printed(os + [Offer(r, false)]))
  {
    var all, ring, ps := os + [Offer(r, false)], Ring(w, r.ticker), Printed(os);
    assert all[|os|] == Offer(r, false);
    PrintedNext(os, Offer(r, false));
    NewestPrint(ring, ps);
    var last := if ps == [] then None else Some(ps[|ps| - 1].exchSeq);
    if Prints(all, |os|, last) {
      RingNext(ring, ps, r);
      assert Ring(MergeRow(w, r), r.ticker) == Push(ring, Print(r.exchSeq, r.exchNs, r.lastPrice, r.lastQty));
    } else {
      assert Ring(MergeRow(w, r), r.ticker) == ring;
    }
  }

  /** One row of a snapshot. */
  lemma {:induction false} SnapHolds(w: Web, os: seq<Offer>, r: Row)
    requires Holds(w, os, r.ticker)
    ensures Holds(MergeRow(w, r), os + [Offer(r, false)], r.ticker)
  {
    SnapTaken(w, os, r);
    SnapRing(w, os, r);
    assert (os + [Offer(r, false)])[|os|].row == r;
  }

  lemma {:induction false} SnapOthers(w: Web, os: seq<Offer>, r: Row, t: string)
    requires Holds(w, os, t) && t != r.ticker
    ensures Holds(MergeRow(w, r), os, t)
  {
  }

  lemma {:induction false} MergeStep(w: Web, os: seq<Offer>, r: Row, t: string)
    requires Holds(w, os, t)
    ensures Holds(MergeRow(w, r), os + if r.ticker == t then [Offer(r, false)] else [], t)
  {
    if r.ticker == t {
      SnapHolds(w, os, r);
    } else {
      SnapOthers(w, os, r, t);
      assert os + [] == os;
    }
  }

  lemma {:induction false} MergeHolds(w: Web, os: seq<Offer>, rows: seq<Row>, t: string)
    requires Holds(w, os, t)
    ensures Holds(MergeRows(w, rows), os + RowOffers(rows, t), t)
  {
    if rows == [] {
      assert os + RowOffers(rows, t) == os;
    } else {
      var front, r := rows[..|rows| - 1], rows[|rows| - 1];
      MergeHolds(w, os, front, t);
      MergeStep(MergeRows(w, front), os + RowOffers(front, t), r, t);
      assert os + RowOffers(rows, t) ==
             (os + RowOffers(front, t)) + if r.ticker == t then [Offer(r, false)] else [];
    }
  }

  // --- any events -------------------------------------------------------------------------

  lemma {:induction false} HoldsSame(w: Web, v: Web, os: seq<Offer>, t: string)
    requires Holds(w, os, t) && v.tickers == w.tickers && v.trades == w.trades
    ensures Holds(v, os, t)
  {
  }

  /** The epoch, and how often it changed. */
  lemma {:induction false} EpochHolds(es: seq<Event>)
    ensures Feed(es).epoch == EpochOf(es) && Feed(es).restarts == TurnsOf(es)
  {
    if es != [] {
      EpochHolds(es[..|es| - 1]);
      var w := Feed(es[..|es| - 1]);
      match es[|es| - 1]
      case Live(_) =>
      case Snap(rows, e) => MergeKeeps(Enter(w, e), rows);
    }
  }

  /** A cache that has just been cleared, or was never filled. */
  lemma {:induction false} ClearHolds(w: Web, t: string)
    requires w.tickers == map[] && w.trades == map[]
    ensures Holds(w, [], t)
  {
  }

  lemma {:induction false} OfferNext(s: seq<Event>, e: Event, t: string)
    ensures Offers(s + [e], t) == Offers(s, t) + EventOffers(e, t)
  {
    assert (s + [e])[..|s|] == s;
  }

  /** One event on a cache that holds `os`, in or after the same epoch. */
  lemma {:induction false} EventHolds(w: Web, os: seq<Offer>, e: Event, t: string)
    requires Holds(w, os, t)
    requires e.Live? ==> w.epoch.None? || w.epoch == Some(e.row.epoch)
    requires e.Snap? ==> w.epoch.None? || w.epoch == Some(e.epoch)
    ensures Holds(if e.Live? then ApplyUpdate(w, e.row) else Merge(w, e.rows, e.epoch), os + EventOffers(e, t), t)
  {
    match e
    case Live(r) =>
      if r.ticker == t {
        LiveHolds(w, os, r);
      } else {
        LiveOthers(w, os, r, t);
        assert os + EventOffers(e, t) == os;
      }
    case Snap(rows, n) =>
      HoldsSame(w, Enter(w, n), os, t);
      MergeHolds(Enter(w, n), os, rows, t);
      HoldsSame(MergeRows(Enter(w, n), rows), Merge(w, rows, n), os + RowOffers(rows, t), t);
  }

  /** A turn: the cache starts over with the event that brought it. */
  lemma {:induction false} TurnHolds(w: Web, e: Event, t: string)
    requires w.epoch.Some? && w.epoch.value != (if e.Live? then e.row.epoch else e.epoch)
    requires e.Snap? ==> e.epoch > w.epoch.value
    ensures Holds(if e.Live? then ApplyUpdate(w, e.row) else Merge(w, e.rows, e.epoch), EventOffers(e, t), t)
  {
    var n := if e.Live? then e.row.epoch else e.epoch;
    var v := Restart(w, n);
    ClearHolds(v, t);
    EventHolds(v, [], e, t);
    assert [] + EventOffers(e, t) == EventOffers(e, t);
    match e
    case Live(r) => assert ApplyUpdate(w, r) == ApplyUpdate(v, r);
    case Snap(rows, _) => assert Merge(w, rows, n) == Merge(v, rows, n);
  }

  /** For every list of events and every ticker: the ticker is cached exactly when an
      event since the epoch last changed offered it a row; the row is the last live
      update's unless a later snapshot row has a greater position, and then the first
      of the greatest; and the ring is the last 50 prints, live executions and seeded
      snapshot rows alike. */
  lemma {:induction false} CacheHolds(es: seq<Event>, t: string)
    ensures Holds(Feed(es), Offers(Since(es), t), t)
  {
    if es == [] {
      ClearHolds(Feed(es), t);
    } else {
      var front, e := es[..|es| - 1], es[|es| - 1];
      CacheHolds(front, t);
      EpochHolds(front);
      if Turns(es) {
        TurnHolds(Feed(front), e, t);
        OfferNext([], e, t);
        assert [] + [e] == [e] && Offers([], t) + EventOffers(e, t) == EventOffers(e, t);
      } else if !Stale(es) {
        EventHolds(Feed(front), Offers(Since(front), t), e, t);
        OfferNext(Since(front), e, t);
      }
    }
  }

  // --- how many rows a snapshot brings -------------------------------------------------------

  /** Row `i` is newer than the cached one and than every earlier row of its ticker. */
  ghost predicate Newer(w: Web, rows: seq<Row>, i: nat)
    requires i < |rows|
  {
    && (rows[i].ticker in w.tickers ==> w.tickers[rows[i].ticker].exchSeq < rows[i].exchSeq)
    && forall j :: 0 <= j < i && rows[j].ticker == rows[i].ticker ==> rows[j].exchSeq < rows[i].exchSeq
  }

  ghost function NewerRows(w: Web, rows: seq<Row>, n: nat): nat
    requires n <= |rows|
  {
    if n == 0 then 0 else NewerRows(w, rows, n - 1) + if Newer(w, rows, n - 1) then 1 else 0
  }

  lemma {:induction false} NewerTaken(w: Web, rows: seq<Row>, i: nat)
    requires i < |rows|
    ensures Newer(w, rows, i) <==> !Keeps(MergeRows(w, rows[..i]), rows[i])
  {
    var v, t := MergeRows(w, rows[..i]), rows[i].ticker;
    MergeMax(w, rows[..i]);
    MergeFrom(w, rows[..i]);
    forall j | 0 <= j < i && rows[j].ticker == t
      ensures Above(v, t, rows[j].exchSeq)
    {
      assert rows[..i][j] == rows[j];
    }
    if Keeps(v, rows[i]) {
      assert FromEither(w, rows[..i], t, v.tickers[t]);
    }
  }

  /** The number a merge reports is that of the rows newer than all before them. */
  lemma {:induction false} MergedNewer(w: Web, rows: seq<Row>, n: nat)
    requires n <= |rows|
    ensures Merged(w, rows[..n]) == NewerRows(w, rows, n)
  {
    if n > 0 {
      MergedNewer(w, rows, n - 1);
      NewerTaken(w, rows, n - 1);
      assert rows[..n][..n - 1] == rows[..n - 1];
    }
  }

  /** The snapshots that were looked at, and the rows they brought. */
  ghost function Looked(es: seq<Event>): nat {
    if es == [] then 0
    else Looked(es[..|es| - 1]) + if es[|es| - 1].Snap? && !Stale(es) then 1 else 0
  }

  ghost function Brought(es: seq<Event>): nat {
    if es == [] then 0
    else
      var front, e := es[..|es| - 1], es[|es| - 1];
      Brought(front) + if e.Snap? && !Stale(es) then NewerRows(Enter(Feed(front), e.epoch), e.rows, |e.rows|) else 0
  }

  lemma {:induction false} SnapshotCounts(es: seq<Event>)
    ensures Feed(es).snapshots == Looked(es) && Feed(es).snapshotRows == Brought(es)
  {
    if es != [] {
      var front := es[..|es| - 1];
      SnapshotCounts(front);
      EpochHolds(front);
      match es[|es| - 1]
      case Live(_) =>
      case Snap(rows, e) =>
        MergeKeeps(Enter(Feed(front), e), rows);
        MergedNewer(Enter(Feed(front), e), rows, |rows|);
        assert rows[..|rows|] == rows;
    }
  }
}
