/** What the prototype trades: executions and tape entries read off the messages and
    the order table alone. */
module Executions {
  import opened Itch
  import opened Orders
  import opened BookModel
  import opened TapeModel
  import opened MarketModel

  /** Message `i` executes an order that is live when it arrives. */
  predicate Meets(ms: seq<Msg>, i: nat)
    requires i < |ms|
  {
    ms[i].Exec? && ms[i].number in Retable(map[], ms[..i])
  }

  /** The order it executes, as it rested. */
  function Resting(ms: seq<Msg>, i: nat): Order
    requires i < |ms| && Meets(ms, i)
  {
    Retable(map[], ms[..i])[ms[i].number]
  }

  function Min(a: nat, b: nat): nat {
    if a <= b then a else b
  }

  /** The clock: the last T message's seconds. */
  function SecondsAt(ms: seq<Msg>): nat {
    if ms == [] then 0
    else if ms[|ms| - 1].Seconds? then ms[|ms| - 1].seconds
    else SecondsAt(ms[..|ms| - 1])
  }

  /** A book's base price: that of its last reference-price message. */
  function BaseAt(ms: seq<Msg>, book: string): Option<nat> {
    if ms == [] then None
    else
      var m := ms[|ms| - 1];
      if m.Add? && m.number == 0 && !m.attributed && m.book == book then Some(m.price)
      else BaseAt(ms[..|ms| - 1], book)
  }

  /** What message `i` must report: the resting order's book, group, side and price,
      no more than it had left, and the message's own match number. */
  ghost predicate Reports(e: Option<Execution>, ms: seq<Msg>, i: nat)
    requires i < |ms|
  {
    && (e.Some? <==> Meets(ms, i))
    && (e.Some? ==>
          var o := Resting(ms, i);
          && e.value.book == o.book && e.value.group == o.group && e.value.side == o.side
          && e.value.price == o.price && e.value.qty == Min(ms[i].executed, o.qty)
          && e.value.matchNumber == ms[i].matchNumber)
  }

  /** The trade it must put on the tape. */
  ghost predicate Records(t: Trade, ms: seq<Msg>, i: nat)
    requires i < |ms| && Meets(ms, i)
  {
    var o := Resting(ms, i);
    && t.book == o.book && t.price == o.price && t.qty == Min(ms[i].executed, o.qty)
    && t.matchNumber == ms[i].matchNumber
    && t.time == SecondsAt(ms[..i]) * 1_000_000_000 + ms[i].ns && t.base == BaseAt(ms[..i], o.book)
  }

  /** The messages that execute a live order, in order. */
  function Meetings(ms: seq<Msg>): (ix: seq<nat>)
    ensures forall k :: 0 <= k < |ix| ==> ix[k] < |ms| && Meets(ms, ix[k])
    ensures forall j, k :: 0 <= j < k < |ix| ==> ix[j] < ix[k]
    ensures forall i :: 0 <= i < |ms| && Meets(ms, i) ==> i in ix
  {
    if ms == [] then []
    else
      var n := |ms| - 1;
      var front := Meetings(ms[..n]);
      assert forall i :: 0 <= i < n ==> (Meets(ms[..n], i) <==> Meets(ms, i)) by { MeetsFront(ms, n); }
      if Meets(ms, n) then front + [n] else front
  }

  /** Later messages change nothing about an earlier one. */
  lemma MeetsFront(ms: seq<Msg>, n: nat)
    requires n <= |ms|
    ensures forall i :: 0 <= i < n ==> (Meets(ms[..n], i) <==> Meets(ms, i))
  {
    forall i | 0 <= i < n
      ensures Meets(ms[..n], i) <==> Meets(ms, i)
    {
      assert ms[..n][..i] == ms[..i];
    }
  }

  lemma {:induction false} RefoldClock(ms: seq<Msg>, book: string)
    ensures Refold(MarketModel.Blank.refs, ms).seconds == SecondsAt(ms)
    ensures Get(Refold(MarketModel.Blank.refs, ms), book).reference == BaseAt(ms, book)
  {
    if ms != [] { RefoldClock(ms[..|ms| - 1], book); }
  }

  /** The market after the messages before the last. */
  lemma Before(ms: seq<Msg>)
    requires ms != [] && AllPositiveQty(ms)
    ensures var n, r := |ms| - 1, Run(MarketModel.Blank, ms[..|ms| - 1]);
            && r.fault.NoFault? && MarketModel.Sound(r.market.store)
            && r.market.store.orders == Retable(map[], ms[..n])
            && r.market.refs == Refold(MarketModel.Blank.refs, ms[..n])
            && Run(MarketModel.Blank, ms) == Extend(r, MarketModel.Apply(r.market, ms[n]))
  {
    BookModel.EmptyAgrees();
    RunParts(MarketModel.Blank, ms[..|ms| - 1]);
  }

  /** One message on a sound market. */
  lemma StepReports(mk: Market, ms: seq<Msg>)
    requires ms != [] && MarketModel.Sound(mk.store) && PositiveQty(ms[|ms| - 1])
    requires mk.store.orders == Retable(map[], ms[..|ms| - 1])
    ensures Reports(MarketModel.Apply(mk, ms[|ms| - 1]).execution, ms, |ms| - 1)
  {
    StepSound(mk.store, ms[|ms| - 1]);
  }

  lemma StepRecords(mk: Market, ms: seq<Msg>)
    requires ms != [] && mk.refs == Refold(MarketModel.Blank.refs, ms[..|ms| - 1])
    requires Reports(MarketModel.Apply(mk, ms[|ms| - 1]).execution, ms, |ms| - 1)
    ensures var n, s := |ms| - 1, MarketModel.Apply(mk, ms[|ms| - 1]);
            && (Meets(ms, n) ==> |s.trades| == 1 && Records(s.trades[0], ms, n))
            && (!Meets(ms, n) ==> s.trades == [])
  {
    var n := |ms| - 1;
    if Meets(ms, n) { RefoldClock(ms[..n], Resting(ms, n).book); }
  }

  lemma ReportsFront(e: Option<Execution>, ms: seq<Msg>, n: nat, i: nat)
    requires i < n <= |ms| && Reports(e, ms[..n], i)
    ensures Reports(e, ms, i)
  {
    assert ms[..n][..i] == ms[..i];
  }

  lemma RecordsFront(t: Trade, ms: seq<Msg>, n: nat, i: nat)
    requires i < n <= |ms| && Meets(ms[..n], i) && Records(t, ms[..n], i)
    ensures Meets(ms, i) && Records(t, ms, i)
  {
    assert ms[..n][..i] == ms[..i];
  }

  ghost predicate AllReport(es: seq<Option<Execution>>, ms: seq<Msg>) {
    |es| == |ms| && forall i :: 0 <= i < |ms| ==> Reports(es[i], ms, i)
  }

  lemma ReportNext(es: seq<Option<Execution>>, e: Option<Execution>, ms: seq<Msg>)
    requires ms != [] && AllReport(es, ms[..|ms| - 1]) && Reports(e, ms, |ms| - 1)
    ensures AllReport(es + [e], ms)
  {
    forall i | 0 <= i < |ms|
      ensures Reports((es + [e])[i], ms, i)
    {
      if i < |es| { ReportsFront(es[i], ms, |ms| - 1, i); }
    }
  }

  lemma {:induction false} RunReports(ms: seq<Msg>)
    requires AllPositiveQty(ms)
    ensures AllReport(Run(MarketModel.Blank, ms).executions, ms)
  {
    if ms != [] {
      var n := |ms| - 1;
      RunReports(ms[..n]);
      Before(ms);
      var r := Run(MarketModel.Blank, ms[..n]);
      StepReports(r.market, ms);
      ReportNext(r.executions, MarketModel.Apply(r.market, ms[n]).execution, ms);
    }
  }

  lemma {:induction false} RunRecords(ms: seq<Msg>)
    requires AllPositiveQty(ms)
    ensures var r := Run(MarketModel.Blank, ms);
            && |r.trades| == |Meetings(ms)|
            && forall k :: 0 <= k < |r.trades| ==> Records(r.trades[k], ms, Meetings(ms)[k])
  {
    if ms != [] {
      var n := |ms| - 1;
      RunRecords(ms[..n]);
      Before(ms);
      var r, all := Run(MarketModel.Blank, ms[..n]), Run(MarketModel.Blank, ms);
      StepReports(r.market, ms);
      StepRecords(r.market, ms);
      forall k | 0 <= k < |all.trades|
        ensures Records(all.trades[k], ms, Meetings(ms)[k])
      {
        if k < |r.trades| { RecordsFront(r.trades[k], ms, n, Meetings(ms[..n])[k]); }
      }
    }
  }

  /** Over every run on positive quantities: each message is answered with an execution
      exactly when it executes a live order, for that order's book, group, side and
      price; and the trades are those executions, in order. */
  lemma RunTrades(ms: seq<Msg>)
    requires AllPositiveQty(ms)
    ensures var r := Run(MarketModel.Blank, ms);
            && |r.executions| == |ms| && (forall i :: 0 <= i < |ms| ==> Reports(r.executions[i], ms, i))
            && |r.trades| == |Meetings(ms)|
            && (forall k :: 0 <= k < |r.trades| ==> Records(r.trades[k], ms, Meetings(ms)[k]))
  {
    RunReports(ms);
    RunRecords(ms);
  }
}
