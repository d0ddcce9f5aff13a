/** The web viewer's cache: live updates, and snapshots merged into them. */
module WebModel {
  import opened Itch

  const RING: nat := 50

  datatype Row = Row(
    ticker: string,
    epoch: nat,
    pubSeq: nat,
    exchSeq: nat,
    trigger: char,
    exchNs: nat,
    lastPrice: nat,
    lastQty: nat,
    lastTradeNs: nat)

  datatype Print = Print(exchSeq: nat, exchNs: nat, price: nat, qty: nat)

  datatype Web = Web(
    tickers: map<string, Row>,
    trades: map<string, seq<Print>>,
    updates: nat,
    gaps: nat,
    restarts: nat,
    snapshots: nat,
    snapshotRows: nat,
    epoch: Option<nat>,
    expected: Option<nat>)

  const Fresh := Web(map[], map[], 0, 0, 0, 0, 0, None, None)

  function PrintOf(r: Row): Print {
    Print(r.exchSeq, r.exchNs, r.lastPrice, r.lastQty)
  }

  function Ring(w: Web, t: string): seq<Print> {
    if t in w.trades then w.trades[t] else []
  }

  function Push(ring: seq<Print>, p: Print): seq<Print> {
    if |ring| < RING then ring + [p] else ring[|ring| - RING + 1..] + [p]
  }

  /** A new incarnation of the feed handler: the cache starts over. */
  function Restart(w: Web, e: nat): Web {
    w.(tickers := map[], trades := map[], restarts := w.restarts + 1, epoch := Some(e), expected := None)
  }

  function Enter(w: Web, e: nat): Web {
    if w.epoch.None? then w.(epoch := Some(e), expected := None)
    else if w.epoch.value != e then Restart(w, e)
    else w
  }

  function ApplyUpdate(w: Web, r: Row): Web {
    var v := Enter(w, r.epoch);
    var missed := if v.expected.Some? && r.pubSeq > v.expected.value then r.pubSeq - v.expected.value else 0;
    v.(gaps := v.gaps + missed,
       expected := Some(r.pubSeq + 1),
       tickers := v.tickers[r.ticker := r],
       trades := if r.trigger == 'E' then v.trades[r.ticker := Push(Ring(v, r.ticker), PrintOf(r))] else v.trades,
       updates := v.updates + 1)
  }

  /** A snapshot row's last trade enters the ring unless it is there already. */
  function SeedTrade(w: Web, r: Row): map<string, seq<Print>> {
    var ring := Ring(w, r.ticker);
    if r.lastTradeNs == 0 || r.lastQty == 0 then w.trades
    else if ring != [] && ring[|ring| - 1].exchSeq >= r.exchSeq then w.trades
    else w.trades[r.ticker := Push(ring, PrintOf(r))]
  }

  /** The cached row is as fresh as this one, or fresher. */
  predicate Keeps(w: Web, r: Row) {
    r.ticker in w.tickers && w.tickers[r.ticker].exchSeq >= r.exchSeq
  }

  function MergeRow(w: Web, r: Row): Web {
    if Keeps(w, r) then w else w.(tickers := w.tickers[r.ticker := r], trades := SeedTrade(w, r))
  }

  function MergeRows(w: Web, rows: seq<Row>): Web {
    if rows == [] then w else MergeRow(MergeRows(w, rows[..|rows| - 1]), rows[|rows| - 1])
  }

  function Merged(w: Web, rows: seq<Row>): nat {
    if rows == [] then 0
    else Merged(w, rows[..|rows| - 1]) + if Keeps(MergeRows(w, rows[..|rows| - 1]), rows[|rows| - 1]) then 0 else 1
  }

  /** A snapshot older than the live feed is discarded; a newer one restarts. */
  function Merge(w: Web, rows: seq<Row>, e: nat): Web {
    if w.epoch.Some? && e < w.epoch.value then w
    else
      var v := Enter(w, e);
      var m := MergeRows(v, rows);
      m.(snapshots := m.snapshots + 1, snapshotRows := m.snapshotRows + Merged(v, rows))
  }

  // --- merging takes the maximum ------------------------------------------------------

  ghost predicate Above(w: Web, t: string, n: nat) {
    t in w.tickers && w.tickers[t].exchSeq >= n
  }

  /** Row `r` is the one cached for `t`, or one of the snapshot's for it. */
  ghost predicate FromEither(w: Web, rows: seq<Row>, t: string, r: Row) {
    (t in w.tickers && r == w.tickers[t]) || exists i :: 0 <= i < |rows| && rows[i].ticker == t && r == rows[i]
  }

  /** After merging, every row and every cached row is matched or beaten, and each
      cached row is one of them: so each ticker holds the maximum. */
  lemma {:induction false} MergeMax(w: Web, rows: seq<Row>)
    ensures var v := MergeRows(w, rows);
            && (forall t :: t in w.tickers ==> Above(v, t, w.tickers[t].exchSeq))
            && (forall i :: 0 <= i < |rows| ==> Above(v, rows[i].ticker, rows[i].exchSeq))
  {
    if rows != [] {
      var n := |rows| - 1;
      MergeMax(w, rows[..n]);
      forall i | 0 <= i < |rows|
        ensures Above(MergeRows(w, rows), rows[i].ticker, rows[i].exchSeq)
      {
        if i < n { assert rows[..n][i] == rows[i]; }
      }
    }
  }

  lemma FromLonger(w: Web, rows: seq<Row>, n: nat, t: string, r: Row)
    requires n <= |rows| && FromEither(w, rows[..n], t, r)
    ensures FromEither(w, rows, t, r)
  {
    if !(t in w.tickers && r == w.tickers[t]) {
      var i :| 0 <= i < n && rows[..n][i].ticker == t && r == rows[..n][i];
      assert rows[i].ticker == t && r == rows[i];
    }
  }

  lemma {:induction false} MergeFrom(w: Web, rows: seq<Row>)
    ensures forall t :: t in MergeRows(w, rows).tickers ==> FromEither(w, rows, t, MergeRows(w, rows).tickers[t])
  {
    if rows != [] {
      var n := |rows| - 1;
      MergeFrom(w, rows[..n]);
      var u, v := MergeRows(w, rows[..n]), MergeRows(w, rows);
      forall t | t in v.tickers
        ensures FromEither(w, rows, t, v.tickers[t])
      {
        if t in u.tickers && v.tickers[t] == u.tickers[t] {
          FromLonger(w, rows, n, t, u.tickers[t]);
        } else {
          assert rows[n].ticker == t;
        }
      }
    }
  }

  /** A row that is matched or beaten is not merged. */
  lemma {:induction false} MergeNothing(w: Web, rows: seq<Row>)
    requires forall i :: 0 <= i < |rows| ==> Above(w, rows[i].ticker, rows[i].exchSeq)
    ensures MergeRows(w, rows) == w && Merged(w, rows) == 0
  {
    if rows != [] {
      var n := |rows| - 1;
      forall i | 0 <= i < n
        ensures Above(w, rows[..n][i].ticker, rows[..n][i].exchSeq)
      {
        assert rows[..n][i] == rows[i];
      }
      MergeNothing(w, rows[..n]);
    }
  }

  /** A snapshot of the current epoch: every ticker ends at the greatest position
      among its cached row and the snapshot's, none is lowered, nothing else
      appears, and merging it again merges nothing. */
  lemma SameEpochMerge(w: Web, rows: seq<Row>, e: nat)
    requires w.epoch == Some(e) || w.epoch.None?
    ensures var v := Merge(w, rows, e);
            && (forall t :: t in w.tickers ==> Above(v, t, w.tickers[t].exchSeq))
            && (forall i :: 0 <= i < |rows| ==> Above(v, rows[i].ticker, rows[i].exchSeq))
            && (forall t :: t in v.tickers ==> FromEither(w, rows, t, v.tickers[t]))
            && Merge(v, rows, e) == v.(snapshots := v.snapshots + 1)
  {
    var u := Enter(w, e);
    MergeMax(u, rows);
    MergeFrom(u, rows);
    MergeKeeps(u, rows);
    var v := Merge(w, rows, e);
    forall i | 0 <= i < |rows|
      ensures Above(v, rows[i].ticker, rows[i].exchSeq)
    {
      assert Above(MergeRows(u, rows), rows[i].ticker, rows[i].exchSeq);
    }
    forall t | t in w.tickers
      ensures Above(v, t, w.tickers[t].exchSeq)
    {
      assert Above(MergeRows(u, rows), t, u.tickers[t].exchSeq);
    }
    MergeNothing(v, rows);
  }

  /** Merging touches only rows and trades. */
  lemma {:induction false} MergeKeeps(w: Web, rows: seq<Row>)
    ensures var v := MergeRows(w, rows); v == w.(tickers := v.tickers, trades := v.trades)
  {
    if rows != [] { MergeKeeps(w, rows[..|rows| - 1]); }
  }

  // --- gap counting ---------------------------------------------------------------------

  datatype Event = Live(row: Row) | Snap(rows: seq<Row>, epoch: nat)

  function Feed(es: seq<Event>): Web {
    if es == [] then Fresh
    else
      var w := Feed(es[..|es| - 1]);
      match es[|es| - 1]
      case Live(r) => ApplyUpdate(w, r)
      case Snap(rows, e) => Merge(w, rows, e)
  }

  /** The live updates among the events. */
  function Updates(es: seq<Event>): seq<Row> {
    if es == [] then []
    else
      var front := Updates(es[..|es| - 1]);
      if es[|es| - 1].Live? then front + [es[|es| - 1].row] else front
  }

  // A run of updates ends where the epoch changes, where the number does not grow (a
  // handler that recovered keeps its epoch and counts from the start), and where a
  // newer snapshot is adopted.

  /** Runs of live updates so far, and whether the last one may still go on. */
  datatype Cut = Cut(runs: seq<seq<Row>>, open: bool)

  function Last<T>(s: seq<T>): T
    requires s != []
  {
    s[|s| - 1]
  }

  predicate Continues(u: Row, r: Row) {
    u.epoch == r.epoch && u.pubSeq < r.pubSeq
  }

  predicate Runs(runs: seq<seq<Row>>) {
    forall i :: 0 <= i < |runs| ==> runs[i] != []
  }

  function CutOf(es: seq<Event>): (c: Cut)
    ensures Runs(c.runs) && (c.open ==> c.runs != [])
  {
    if es == [] then Cut([], false)
    else
      var c := CutOf(es[..|es| - 1]);
      match es[|es| - 1]
      case Live(r) =>
        if c.open && Continues(Last(Last(c.runs)), r) then c.(runs := Extended(c.runs, r))
        else Cut(c.runs + [[r]], true)
      case Snap(_, e) => c.(open := c.open && e <= Last(Last(c.runs)).epoch)
  }

  function Extended(runs: seq<seq<Row>>, r: Row): (longer: seq<seq<Row>>)
    requires runs != [] && Runs(runs)
    ensures Runs(longer) && |longer| == |runs|
  {
    runs[..|runs| - 1] + [Last(runs) + [r]]
  }

  function Flatten(runs: seq<seq<Row>>): seq<Row> {
    if runs == [] then [] else Flatten(runs[..|runs| - 1]) + Last(runs)
  }

  /** The numbers the runs cover: from the first to the last of each. */
  function Spanned(runs: seq<seq<Row>>): int
    requires Runs(runs)
  {
    if runs == [] then 0 else Spanned(runs[..|runs| - 1]) + Last(Last(runs)).pubSeq - Last(runs)[0].pubSeq + 1
  }

  lemma SpannedNew(runs: seq<seq<Row>>, r: Row)
    requires Runs(runs)
    ensures Runs(runs + [[r]]) && Spanned(runs + [[r]]) == Spanned(runs) + 1
    ensures Flatten(runs + [[r]]) == Flatten(runs) + [r]
  {
    assert (runs + [[r]])[..|runs|] == runs;
  }

  lemma SpannedLonger(runs: seq<seq<Row>>, r: Row)
    requires runs != [] && Runs(runs)
    ensures Spanned(Extended(runs, r)) == Spanned(runs) + r.pubSeq - Last(Last(runs)).pubSeq
    ensures Flatten(Extended(runs, r)) == Flatten(runs) + [r]
  {
    var front, run := runs[..|runs| - 1], Last(runs);
    assert Extended(runs, r)[..|runs| - 1] == front;
    assert Flatten(front) + (run + [r]) == (Flatten(front) + run) + [r];
  }

  /** The cache's counters against the runs. */
  ghost predicate Tracks(w: Web, c: Cut)
    requires Runs(c.runs) && (c.open ==> c.runs != [])
  {
    && w.gaps + w.updates == Spanned(c.runs) && w.updates == |Flatten(c.runs)|
    && (!c.open ==> w.expected.None?)
    && (c.open ==> w.epoch == Some(Last(Last(c.runs)).epoch) && w.expected == Some(Last(Last(c.runs)).pubSeq + 1))
  }

  lemma TracksLive(w: Web, c: Cut, r: Row)
    requires Runs(c.runs) && (c.open ==> c.runs != []) && Tracks(w, c)
    ensures var next := if c.open && Continues(Last(Last(c.runs)), r) then c.(runs := Extended(c.runs, r))
                        else Cut(c.runs + [[r]], true);
            Runs(next.runs) && Tracks(ApplyUpdate(w, r), next)
  {
    if c.open && Continues(Last(Last(c.runs)), r) {
      SpannedLonger(c.runs, r);
      assert Last(Extended(c.runs, r)) == Last(c.runs) + [r];
    } else {
      SpannedNew(c.runs, r);
    }
  }

  lemma TracksSnap(w: Web, c: Cut, rows: seq<Row>, e: nat)
    requires Runs(c.runs) && (c.open ==> c.runs != []) && Tracks(w, c)
    ensures Tracks(Merge(w, rows, e), c.(open := c.open && e <= Last(Last(c.runs)).epoch))
  {
    MergeKeeps(Enter(w, e), rows);
  }

  /** For every feed of updates and snapshots, in any order and of any epochs: counted
      updates and gaps together are the numbers covered, last - first + 1 a run. */
  lemma {:induction false} GapsAddUp(es: seq<Event>)
    ensures Tracks(Feed(es), CutOf(es))
  {
    if es != [] {
      var n := |es| - 1;
      GapsAddUp(es[..n]);
      match es[n]
      case Live(r) => TracksLive(Feed(es[..n]), CutOf(es[..n]), r);
      case Snap(rows, e) => TracksSnap(Feed(es[..n]), CutOf(es[..n]), rows, e);
    }
  }

  /** One epoch, and numbers that grow. */
  ghost predicate Growing(run: seq<Row>) {
    forall i :: 0 < i < |run| ==> Continues(run[i - 1], run[i])
  }

  /** The runs are the updates cut up, and each is one. */
  lemma {:induction false} CutRuns(es: seq<Event>)
    ensures Flatten(CutOf(es).runs) == Updates(es)
    ensures forall i :: 0 <= i < |CutOf(es).runs| ==> Growing(CutOf(es).runs[i])
  {
    if es != [] {
      var n := |es| - 1;
      CutRuns(es[..n]);
      if es[n].Live? {
        var c, r := CutOf(es[..n]), es[n].row;
        if c.open && Continues(Last(Last(c.runs)), r) {
          SpannedLonger(c.runs, r);
          assert Growing(Last(c.runs) + [r]);
        } else {
          SpannedNew(c.runs, r);
        }
      }
    }
  }
}

/** The cache, updated in place. */
module WebState {
  import opened Itch
  import opened WebModel

  class State {
    var tickers: map<string, Row>
    var trades: map<string, seq<Print>>
    var updates: nat
    var gaps: nat
    var restarts: nat
    var snapshots: nat
    var snapshotRows: nat
    var lastEpoch: Option<nat>
    var expected: Option<nat>

    ghost function View(): Web
      reads this
    {
      Web(tickers, trades, updates, gaps, restarts, snapshots, snapshotRows, lastEpoch, expected)
    }

    constructor ()
      ensures View() == Fresh
    {
      tickers, trades := map[], map[];
      updates, gaps, restarts, snapshots, snapshotRows := 0, 0, 0, 0, 0;
      lastEpoch, expected := None, None;
    }

    method Clear()
      modifies this`tickers, this`trades
      ensures tickers == map[] && trades == map[]
    {
      tickers, trades := map[], map[];
    }

    method Update(r: Row)
      modifies this
      ensures View() == ApplyUpdate(old(View()), r)
    {
      if lastEpoch.Some? && r.epoch != lastEpoch.value {
        Clear();
        restarts := restarts + 1;
      }
      if lastEpoch != Some(r.epoch) {
        lastEpoch := Some(r.epoch);
        expected := None;
      }
      if expected.Some? && r.pubSeq > expected.value {
        gaps := gaps + (r.pubSeq - expected.value);
      }
      expected := Some(r.pubSeq + 1);
      tickers := tickers[r.ticker := r];
      if r.trigger == 'E' {
        var ring := if r.ticker in trades then trades[r.ticker] else [];
        trades := trades[r.ticker := Push(ring, PrintOf(r))];
      }
      updates := updates + 1;
    }

    method Seed(r: Row)
      modifies this`trades
      ensures trades == SeedTrade(old(View()), r)
    {
      if r.lastTradeNs == 0 || r.lastQty == 0 { return; }
      var ring := if r.ticker in trades then trades[r.ticker] else [];
      if ring != [] && ring[|ring| - 1].exchSeq >= r.exchSeq { return; }
      trades := trades[r.ticker := Push(ring, PrintOf(r))];
    }

    /** Adopt the epoch of a snapshot, clearing the cache if it is newer. */
    method Adopt(e: nat)
      requires lastEpoch.Some? ==> lastEpoch.value <= e
      modifies this
      ensures View() == Enter(old(View()), e)
    {
      if lastEpoch.Some? && e > lastEpoch.value {
        Clear();
        restarts := restarts + 1;
        lastEpoch := Some(e);
        expected := None;
      } else if lastEpoch.None? {
        lastEpoch := Some(e);
        expected := None;
      }
    }

    /** Take a row unless the cached one is as fresh. */
    method Take(r: Row) returns (taken: bool)
      modifies this`tickers, this`trades
      ensures View() == MergeRow(old(View()), r) && taken == !Keeps(old(View()), r)
    {
      taken := !(r.ticker in tickers && tickers[r.ticker].exchSeq >= r.exchSeq);
      if taken {
        Seed(r);
        tickers := tickers[r.ticker := r];
      }
    }

    /** Reconcile the epoch, then take each row that is strictly newer. */
    method MergeSnapshot(rows: seq<Row>, e: nat) returns (merged: nat)
      modifies this
      ensures View() == Merge(old(View()), rows, e)
      ensures merged ==
              if old(lastEpoch).Some? && e < old(lastEpoch).value then 0 else Merged(Enter(old(View()), e), rows)
    {
      if lastEpoch.Some? && e < lastEpoch.value { return 0; }
      Adopt(e);
      merged := 0;
      ghost var start := View();
      for i := 0 to |rows|
        invariant View() == MergeRows(start, rows[..i]) && merged == Merged(start, rows[..i])
      {
        MergeNext(start, rows, i);
        var taken := Take(rows[i]);
        if taken { merged := merged + 1; }
      }
      assert rows[..|rows|] == rows;
      snapshots := snapshots + 1;
      snapshotRows := snapshotRows + merged;
    }
  }

  lemma MergeNext(w: Web, rows: seq<Row>, i: nat)
    requires i < |rows|
    ensures MergeRows(w, rows[..i + 1]) == MergeRow(MergeRows(w, rows[..i]), rows[i])
    ensures Merged(w, rows[..i + 1])
            == Merged(w, rows[..i]) + if Keeps(MergeRows(w, rows[..i]), rows[i]) then 0 else 1
  {
    assert rows[..i + 1][..i] == rows[..i];
  }
}
