/** The prototype's snapshot, fed to the C++ market, is the snapshot start the
    replication system assumes. */
module SnapshotBoot {
  import opened Itch
  import opened Orders
  import opened Feed
  import opened BookRows
  import opened Replication
  import opened Snapshot
  import MarketModel
  import BookModel

  /** Messages that create an instrument. */
  predicate Creates(m: Msg, t: string) {
    (m.Directory? || m.TradingState? || m.ShortSell? || (m.Add? && m.number == 0 && !m.attributed)) && m.book == t
  }

  ghost predicate Created(ms: seq<Msg>, t: string) {
    exists m :: m in ms && Creates(m, t)
  }

  ghost predicate Directed(ms: seq<Msg>, t: string) {
    exists m :: m in ms && m.Directory? && m.book == t
  }

  ghost predicate GroupIn(ms: seq<Msg>, t: string, g: string) {
    exists m :: m in ms && Named(m) && m.book == t && m.group == g
  }

  lemma Longer(ms: seq<Msg>, m: Msg)
    ensures forall t :: Created(ms + [m], t) <==> Created(ms, t) || Creates(m, t)
    ensures forall t :: Directed(ms + [m], t) <==> Directed(ms, t) || (m.Directory? && m.book == t)
    ensures forall t, g :: GroupIn(ms, t, g) ==> GroupIn(ms + [m], t, g)
    ensures Named(m) ==> GroupIn(ms + [m], m.book, m.group)
  {
    assert m in ms + [m];
    assert forall x :: x in ms + [m] <==> x in ms || x == m;
  }

  // --- what a list of messages leaves ---------------------------------------------------

  ghost predicate CppInst(ms: seq<Msg>, c: Core, t: string) {
    && (t in c.insts <==> Created(ms, t)) && (Described(c, t) <==> Directed(ms, t))
    && (t in c.insts ==> GroupIn(ms, t, c.insts[t].group))
  }

  lemma CppNext(ms: seq<Msg>, c: Core, m: Msg, t: string)
    requires CppInst(ms, c, t)
    ensures CppInst(ms + [m], Apply(c, m), t)
  {
    Longer(ms, m);
  }

  /** The C++ instruments come from the messages that name them. */
  lemma {:induction false} CppInsts(ms: seq<Msg>, t: string)
    ensures CppInst(ms, ApplyAll(EmptyCore, ms), t)
  {
    if ms != [] {
      var front, m := ms[..|ms| - 1], ms[|ms| - 1];
      CppInsts(front, t);
      CppNext(front, ApplyAll(EmptyCore, front), m, t);
      assert ms == front + [m];
    }
  }

  ghost predicate PyInst(ms: seq<Msg>, r: MarketModel.Refs, t: string) {
    && (t in r.insts <==> Created(ms, t))
    && (t in r.insts ==>
          && (r.insts[t].info.Some? <==> Directed(ms, t))
          && r.insts[t].group.Some? && GroupIn(ms, t, r.insts[t].group.value))
  }

  lemma PyNext(ms: seq<Msg>, r: MarketModel.Refs, m: Msg, t: string)
    requires PyInst(ms, r, t)
    ensures PyInst(ms + [m], MarketModel.RefStep(r, m), t)
  {
    Longer(ms, m);
    DirectedCreates(ms, t);
  }

  lemma DirectedCreates(ms: seq<Msg>, t: string)
    ensures Directed(ms, t) ==> Created(ms, t)
  {
    if m :| m in ms && m.Directory? && m.book == t { assert Creates(m, t); }
  }

  /** So do the prototype's. */
  lemma {:induction false} PyInsts(ms: seq<Msg>, t: string)
    ensures PyInst(ms, MarketModel.Refold(MarketModel.Blank.refs, ms), t)
  {
    if ms != [] {
      var front, m := ms[..|ms| - 1], ms[|ms| - 1];
      PyInsts(front, t);
      PyNext(front, MarketModel.Refold(MarketModel.Blank.refs, front), m, t);
      assert ms == front + [m];
    }
  }

  ghost predicate OrdersNamed(ms: seq<Msg>, t: Table) {
    forall k :: k in t ==> GroupIn(ms, t[k].book, t[k].group)
  }

  lemma OrdersNext(ms: seq<Msg>, t: Table, m: Msg)
    requires OrdersNamed(ms, t)
    ensures OrdersNamed(ms + [m], Step(t, MarketModel.Plain(m)))
  {
    Longer(ms, m);
    var t' := Step(t, MarketModel.Plain(m));
    forall k | k in t'
      ensures GroupIn(ms + [m], t'[k].book, t'[k].group)
    {
      if k in t { assert GroupIn(ms, t[k].book, t[k].group); }
      if m.Replace? && m.orig in t { assert GroupIn(ms, t[m.orig].book, t[m.orig].group); }
    }
  }

  lemma {:induction false} OrdersSeen(ms: seq<Msg>)
    ensures OrdersNamed(ms, MarketModel.Retable(map[], ms))
  {
    if ms != [] {
      OrdersSeen(ms[..|ms| - 1]);
      OrdersNext(ms[..|ms| - 1], MarketModel.Retable(map[], ms[..|ms| - 1]), ms[|ms| - 1]);
      assert ms == ms[..|ms| - 1] + [ms[|ms| - 1]];
    }
  }

  /** The prototype's orders are the C++ ones without their order types. */
  lemma {:induction false} PlainMirrors(ms: seq<Msg>)
    ensures Mirrors(MarketModel.Retable(map[], ms), ApplyAll(EmptyCore, ms).orders, true)
  {
    if ms != [] {
      var front, m := ms[..|ms| - 1], ms[|ms| - 1];
      PlainMirrors(front);
      ApplyMovesOrders(ApplyAll(EmptyCore, front), m);
      PlainStep(MarketModel.Retable(map[], front), ApplyAll(EmptyCore, front).orders, m);
    }
  }

  lemma PlainStep(t: Table, o: Table, m: Msg)
    requires Mirrors(t, o, true)
    ensures Mirrors(Step(t, MarketModel.Plain(m)), Step(o, m), true)
  {
  }

  // --- the messages of a snapshot -----------------------------------------------------------

  /** What one snapshot message says, by the part it belongs to. */
  ghost predicate FromMarket(mk: MarketModel.Market, m: Msg) {
    || m.Seconds? || m.TickSize?
    || (Named(m) && m.book in mk.refs.insts && m in Block(m.book, mk.refs.insts[m.book]))
    || (m.Add? && m.number in mk.store.orders && m == OrderMsg(mk.store.orders, m.number))
  }

  lemma {:induction false} BlocksFrom(mk: MarketModel.Market, ids: seq<string>)
    requires forall id :: id in ids ==> id in mk.refs.insts
    ensures forall m :: m in Blocks(mk.refs, ids) ==>
              Named(m) && m.book in mk.refs.insts && m in Block(m.book, mk.refs.insts[m.book])
    ensures forall id, m :: id in ids && m in Block(id, mk.refs.insts[id]) ==> m in Blocks(mk.refs, ids)
    decreases |ids|
  {
    if ids != [] {
      BlocksFrom(mk, ids[1..]);
      assert forall id :: id in ids <==> id == ids[0] || id in ids[1..];
    }
  }

  lemma OrdersFrom(mk: MarketModel.Market, nums: seq<nat>)
    requires forall n :: n in nums ==> n in mk.store.orders
    ensures forall m :: m in OrderMsgs(mk.store.orders, nums) ==>
              m.Add? && m.number in nums && m == OrderMsg(mk.store.orders, m.number)
    ensures forall n :: n in nums ==> OrderMsg(mk.store.orders, n) in OrderMsgs(mk.store.orders, nums)
  {
    var d := OrderMsgs(mk.store.orders, nums);
    forall n | n in nums
      ensures OrderMsg(mk.store.orders, n) in d
    {
      var i :| 0 <= i < |nums| && nums[i] == n;
      assert d[i] == OrderMsg(mk.store.orders, n);
    }
  }

  lemma SnapFrom(mk: MarketModel.Market, w: Walk)
    requires Covers(mk, w)
    ensures forall m :: m in Snap(mk, w) ==> FromMarket(mk, m)
    ensures forall id, m :: id in mk.refs.insts && m in Block(id, mk.refs.insts[id]) ==> m in Snap(mk, w)
    ensures forall n :: n in mk.store.orders ==> OrderMsg(mk.store.orders, n) in Snap(mk, w)
  {
    BlocksFrom(mk, w.ids);
    OrdersFrom(mk, w.nums);
    var a, b, c, d := Clock(mk.refs), TickRows(mk.refs, w.rows), Blocks(mk.refs, w.ids),
      OrderMsgs(mk.store.orders, w.nums);
    forall m
      ensures m in Snap(mk, w) <==> m in a || m in b || m in c || m in d
    {
    }
  }

  /** The instruments a snapshot creates: the market's, and the book of an order
      with number 0. */
  lemma SnapCreates(mk: MarketModel.Market, w: Walk, t: string)
    requires Covers(mk, w)
    ensures Created(Snap(mk, w), t) <==> t in mk.refs.insts || (0 in mk.store.orders && mk.store.orders[0].book == t)
  {
    SnapFrom(mk, w);
    if t in mk.refs.insts {
      var i := mk.refs.insts[t];
      var h := TradingState(t, GroupText(i), i.trading);
      assert h in Block(t, i) && Creates(h, t);
    }
    if 0 in mk.store.orders && mk.store.orders[0].book == t {
      assert Creates(OrderMsg(mk.store.orders, 0), t);
    }
    if m :| m in Snap(mk, w) && Creates(m, t) {
      assert FromMarket(mk, m);
    }
  }

  lemma SnapDirects(mk: MarketModel.Market, w: Walk, t: string)
    requires Covers(mk, w)
    ensures Directed(Snap(mk, w), t) <==> t in mk.refs.insts && mk.refs.insts[t].info.Some?
  {
    SnapFrom(mk, w);
    if t in mk.refs.insts && mk.refs.insts[t].info.Some? {
      var i := mk.refs.insts[t];
      var r := Directory(t, GroupText(i), i.info.value);
      assert r in Block(t, i);
    }
    if m :| m in Snap(mk, w) && m.Directory? && m.book == t {
      assert FromMarket(mk, m);
    }
  }

  /** Its groups were given by the messages before it. */
  lemma SnapSays(ms: seq<Msg>, mk: MarketModel.Market, w: Walk, m: Msg)
    requires Covers(mk, w) && m in Snap(mk, w) && OrdersNamed(ms, mk.store.orders)
    requires forall t :: PyInst(ms, mk.refs, t)
    ensures Named(m) ==> GroupIn(ms, m.book, m.group)
  {
    SnapFrom(mk, w);
    assert FromMarket(mk, m);
    if Named(m) { assert PyInst(ms, mk.refs, m.book); }
  }

  // --- the result ---------------------------------------------------------------------------

  ghost predicate Prefix(cfg: Config, ms: seq<Msg>) {
    |ms| <= |cfg.stream| && forall i :: 0 <= i < |ms| ==> cfg.stream[i] == Some(ms[i])
  }

  lemma {:induction false} FoldMsgs(cfg: Config, ms: seq<Msg>)
    requires Prefix(cfg, ms)
    ensures Fold(cfg.stream, |ms|) == ApplyAll(EmptyCore, ms)
  {
    if ms != [] { FoldMsgs(cfg, ms[..|ms| - 1]); }
  }

  lemma {:induction false} NoTrades(ms: seq<Msg>)
    requires forall i :: 0 <= i < |ms| ==> !ms[i].Exec?
    ensures ApplyAll(EmptyCore, ms).stats == map[]
  {
    if ms != [] { NoTrades(ms[..|ms| - 1]); }
  }

  lemma {:induction false} PlainTable(ms: seq<Msg>)
    requires forall i :: 0 <= i < |ms| ==> ms[i].Add? ==> !ms[i].attributed
    ensures ApplyAll(EmptyCore, ms).orders == MarketModel.Retable(map[], ms)
  {
    if ms != [] {
      PlainTable(ms[..|ms| - 1]);
      ApplyMovesOrders(ApplyAll(EmptyCore, ms[..|ms| - 1]), ms[|ms| - 1]);
    }
  }

  lemma SeenIn(cfg: Config, ms: seq<Msg>, t: string, g: string)
    requires Prefix(cfg, ms)
    ensures GroupIn(ms, t, g) ==> GroupSeen(cfg, |ms|, t, g)
  {
    if GroupIn(ms, t, g) {
      var m :| m in ms && Named(m) && m.book == t && m.group == g;
      var i :| 0 <= i < |ms| && ms[i] == m;
      assert Names(cfg.stream[i], t, g);
    }
  }

  lemma SnapInst(cfg: Config, ms: seq<Msg>, w: Walk, t: string)
    requires MarketModel.AllPositiveQty(ms) && Prefix(cfg, ms)
    requires Covers(MarketModel.Run(MarketModel.Blank, ms).market, w)
    ensures var mk := MarketModel.Run(MarketModel.Blank, ms).market;
            var c, f := ApplyAll(EmptyCore, Snap(mk, w)), ApplyAll(EmptyCore, ms);
            && (t in c.insts <==> t in f.insts || (0 in mk.store.orders && mk.store.orders[0].book == t))
            && (Described(c, t) <==> Described(f, t))
            && (t in c.insts ==> GroupSeen(cfg, |ms|, t, c.insts[t].group))
  {
    BookModel.EmptyAgrees();
    MarketModel.RunParts(MarketModel.Blank, ms);
    var mk := MarketModel.Run(MarketModel.Blank, ms).market;
    var snap := Snap(mk, w);
    var c := ApplyAll(EmptyCore, snap);
    CppInsts(snap, t);
    CppInsts(ms, t);
    PyInsts(ms, t);
    DirectedCreates(ms, t);
    SnapCreates(mk, w, t);
    SnapDirects(mk, w, t);
    if t in c.insts {
      forall x
        ensures PyInst(ms, mk.refs, x)
      {
        PyInsts(ms, x);
      }
      OrdersSeen(ms);
      assert GroupIn(snap, t, c.insts[t].group);
      var m :| m in snap && Named(m) && m.book == t && m.group == c.insts[t].group;
      SnapSays(ms, mk, w, m);
      SeenIn(cfg, ms, t, c.insts[t].group);
    }
  }

  // --- states and reference prices ----------------------------------------------------------

  /** Both implementations hold the same states and reference price. */
  ghost predicate SameStates(r: MarketModel.Refs, c: Core, t: string) {
    var i, j := MarketModel.Get(r, t), InstOf(c.insts, t);
    i.trading == j.trading && i.shortSell == j.shortSell && i.reference == j.reference
  }

  lemma StatesNext(r: MarketModel.Refs, c: Core, m: Msg, t: string)
    requires SameStates(r, c, t)
    ensures SameStates(MarketModel.RefStep(r, m), Apply(c, m), t)
  {
    if Creates(m, t) { CreatesAlike(r, c, m); } else { LeavesAlone(r, c, m, t); }
  }

  lemma LeavesAlone(r: MarketModel.Refs, c: Core, m: Msg, t: string)
    requires !Creates(m, t)
    ensures MarketModel.Get(MarketModel.RefStep(r, m), t) == MarketModel.Get(r, t)
    ensures InstOf(Apply(c, m).insts, t) == InstOf(c.insts, t)
  {
  }

  lemma CreatesAlike(r: MarketModel.Refs, c: Core, m: Msg)
    requires m.Directory? || m.TradingState? || m.ShortSell? || m.Add?
    requires Creates(m, m.book) && SameStates(r, c, m.book)
    ensures SameStates(MarketModel.RefStep(r, m), Apply(c, m), m.book)
  {
  }

  lemma {:induction false} StatesAlike(ms: seq<Msg>, t: string)
    ensures SameStates(MarketModel.Refold(MarketModel.Blank.refs, ms), ApplyAll(EmptyCore, ms), t)
  {
    if ms != [] {
      var front := ms[..|ms| - 1];
      StatesAlike(front, t);
      StatesNext(MarketModel.Refold(MarketModel.Blank.refs, front), ApplyAll(EmptyCore, front), ms[|ms| - 1], t);
    }
  }

  /** What the order part of a snapshot does to the reference data: an order 0
      becomes its book's reference price. */
  ghost predicate OrdersTell(r: MarketModel.Refs, r': MarketModel.Refs, orders: Table, nums: seq<nat>, t: string) {
    var i, j := MarketModel.Get(r', t), MarketModel.Get(r, t);
    && i.trading == j.trading && i.shortSell == j.shortSell
    && i.reference == if 0 in nums && 0 in orders && orders[0].book == t then Some(orders[0].price) else j.reference
  }

  lemma {:induction false} OrdersSay(r: MarketModel.Refs, orders: Table, nums: seq<nat>, t: string)
    requires forall n :: n in nums ==> n in orders
    ensures OrdersTell(r, MarketModel.Refold(r, OrderMsgs(orders, nums)), orders, nums, t)
  {
    if nums != [] {
      var k := |nums| - 1;
      var d := OrderMsgs(orders, nums);
      OrdersSay(r, orders, nums[..k], t);
      assert d[..|d| - 1] == OrderMsgs(orders, nums[..k]) && d[k] == OrderMsg(orders, nums[k]);
      assert 0 in nums <==> 0 in nums[..k] || nums[k] == 0;
    }
  }

  lemma SnapStates(ms: seq<Msg>, w: Walk, t: string)
    requires MarketModel.AllPositiveQty(ms) && Covers(MarketModel.Run(MarketModel.Blank, ms).market, w)
    ensures var c := ApplyAll(EmptyCore, Snap(MarketModel.Run(MarketModel.Blank, ms).market, w));
            var f := ApplyAll(EmptyCore, ms);
            SnapshotInst(InstOf(c.insts, t), InstOf(f.insts, t), t, f.orders)
  {
    BookModel.EmptyAgrees();
    MarketModel.RunParts(MarketModel.Blank, ms);
    RunRegular(ms);
    PlainMirrors(ms);
    var mk := MarketModel.Run(MarketModel.Blank, ms).market;
    var front := MarketModel.Refold(MarketModel.Blank.refs, SnapFront(mk, w));
    FrontRefs(mk, w);
    MarketModel.RefoldSplit(MarketModel.Blank.refs, SnapFront(mk, w), OrderMsgs(mk.store.orders, w.nums));
    OrdersSay(front, mk.store.orders, w.nums, t);
    StatesAlike(ms, t);
    StatesAlike(Snap(mk, w), t);
    LessZero(mk.store.orders, ApplyAll(EmptyCore, ms).orders);
  }

  lemma SnapTable(mk: MarketModel.Market, w: Walk)
    requires Snapshot.Regular(mk) && Covers(mk, w)
    ensures var c := ApplyAll(EmptyCore, Snap(mk, w)); c.stats == map[] && c.orders == mk.store.orders - {0}
  {
    var snap := Snap(mk, w);
    assert forall i :: 0 <= i < |snap| ==> !snap[i].Exec? && (snap[i].Add? ==> !snap[i].attributed) by {
      SnapFrom(mk, w);
      forall i | 0 <= i < |snap|
        ensures !snap[i].Exec? && (snap[i].Add? ==> !snap[i].attributed)
      {
        assert FromMarket(mk, snap[i]);
      }
    }
    NoTrades(snap);
    PlainTable(snap);
    SnapOrders(mk, w);
  }

  /** A C++ market fed the prototype's snapshot of any positive prefix is a snapshot
      start: every order but number 0, every instrument, and no trades. */
  lemma SnapshotBoots(cfg: Config, ms: seq<Msg>, w: Walk)
    requires MarketModel.AllPositiveQty(ms) && Prefix(cfg, ms)
    requires Covers(MarketModel.Run(MarketModel.Blank, ms).market, w)
    ensures SnapshotOf(cfg, ApplyAll(EmptyCore, Snap(MarketModel.Run(MarketModel.Blank, ms).market, w)), |ms|)
  {
    var t := MarketModel.Retable(map[], ms);
    FoldMsgs(cfg, ms);
    BookModel.EmptyAgrees();
    MarketModel.RunParts(MarketModel.Blank, ms);
    RunRegular(ms);
    SnapTable(MarketModel.Run(MarketModel.Blank, ms).market, w);
    PlainMirrors(ms);
    LessZero(t, ApplyAll(EmptyCore, ms).orders);
    forall x
      ensures var c, f := ApplyAll(EmptyCore, Snap(MarketModel.Run(MarketModel.Blank, ms).market, w)),
                ApplyAll(EmptyCore, ms);
              && (x in c.insts <==> x in f.insts || (0 in f.orders && f.orders[0].book == x))
              && (Described(c, x) <==> Described(f, x))
              && (x in c.insts ==> GroupSeen(cfg, |ms|, x, c.insts[x].group))
              && (x in c.insts ==> SnapshotInst(c.insts[x], InstOf(f.insts, x), x, f.orders))
    {
      SnapInst(cfg, ms, w, x);
      SnapStates(ms, w, x);
    }
  }

  lemma LessZero(t: Table, o: Table)
    requires Mirrors(t, o, true)
    ensures Mirrors(t - {0}, o - {0}, true)
    ensures 0 in t <==> 0 in o
    ensures 0 in t ==> t[0].book == o[0].book && t[0].price == o[0].price
  {
    if 0 in o { assert Carries(t[0], o[0], true); }
  }
}
