/** Rebuilding a market from the records of a recovery dump. */
module Recovery {
  import opened Itch
  import opened Orders
  import opened Records
  import opened TableModel
  import opened TableDump
  import opened Feed
  import opened BookRows
  import opened Replication

  function RestoreInst(insts: map<string, Inst>, u: Update): map<string, Inst> {
    var was := Mention(insts, u.ticker, u.group);
    insts[u.ticker := Inst(was.group, was.described || u.static_.directorySeen,
                           if Stated(u.state.tradingState) then u.state.tradingState else was.trading,
                           if Stated(u.state.shortSell) then u.state.shortSell else was.shortSell,
                           if u.state.refPrice != 0 then Some(u.state.refPrice) else was.reference)]
  }

  function RestoreRow(c: Core, u: Update): Core {
    if u.ticker == "" then c
    else
      Core(c.orders,
           if Informs(u.static_, u.state) then RestoreInst(c.insts, u) else c.insts,
           if u.trade.count > 0 then c.stats[u.ticker := Restored(u.trade)] else c.stats)
  }

  /** Tick rows feed the tick tables, which this market leaves out. */
  function RestoreRec(c: Core, r: Rec): Core {
    match r
    case OrderRec(n, row) => c.(orders := c.orders[n := row])
    case UpdateRec(u) => RestoreRow(c, u)
    case _ => c
  }

  function RestoreAll(c: Core, q: seq<Rec>): Core
    decreases |q|
  {
    if q == [] then c else RestoreAll(RestoreRec(c, q[0]), q[1..])
  }

  lemma {:induction false} RestoreAppend(c: Core, q: seq<Rec>, r: seq<Rec>)
    ensures RestoreAll(c, q + r) == RestoreAll(RestoreAll(c, q), r)
    decreases |q|
  {
    if q == [] {
      assert q + r == r;
    } else {
      RestoreAppend(RestoreRec(c, q[0]), q[1..], r);
      assert (q + r)[1..] == q[1..] + r;
    }
  }

  lemma {:induction false} RestoreOrders(c: Core, orders: Table, numbers: seq<nat>)
    requires forall n :: n in numbers ==> n in orders
    ensures RestoreAll(c, OrderRecs(orders, numbers)) == c.(orders := c.orders + Pick(orders, numbers))
    decreases |numbers|
  {
    if numbers == [] {
      assert c.orders + Pick(orders, numbers) == c.orders;
    } else {
      var q := OrderRecs(orders, numbers);
      assert q[1..] == OrderRecs(orders, numbers[1..]);
      RestoreOrders(RestoreRec(c, q[0]), orders, numbers[1..]);
      PickNext(c.orders, orders, numbers);
    }
  }

  lemma {:induction false} RestoreOther(c: Core, q: seq<Rec>)
    requires forall r :: r in q ==> r.TickRec? || r.SyncBegin? || r.SyncEnd?
    ensures RestoreAll(c, q) == c
    decreases |q|
  {
    if q != [] {
      assert q[0] in q;
      RestoreOther(c, q[1..]);
    }
  }

  // --- rows --------------------------------------------------------------------------

  /** The instruments and statistics of `c` come from the given rows. */
  ghost predicate InstsFrom(c: Core, us: seq<Update>) {
    && (forall x :: Described(c, x) <==> exists u :: u in us && u.ticker == x != "" && u.static_.directorySeen)
    && (forall x :: x in c.insts <==> exists u :: u in us && u.ticker == x != "" && Informs(u.static_, u.state))
    && (forall x :: x in c.insts ==> exists u :: u in us && u.ticker == x != "" && u.group == c.insts[x].group)
    && (forall x :: x != "" ==> Restores(InstOf(c.insts, x), Told(us, x)))
  }

  ghost function Told(us: seq<Update>, x: string): set<State> {
    set u | u in us && u.ticker == x :: u.state
  }

  ghost predicate StatsFrom(c: Core, us: seq<Update>) {
    && (forall x :: x in c.stats <==> exists u :: u in us && u.ticker == x != "" && u.trade.count > 0)
    && (forall x :: x in c.stats ==>
          exists u :: u in us && u.ticker == x && u.trade.count > 0 && c.stats[x] == Restored(u.trade))
  }

  lemma InstsNext(c: Core, us: seq<Update>, u: Update)
    requires InstsFrom(c, us)
    ensures InstsFrom(RestoreRow(c, u), us + [u])
  {
    DescribedNext(c, us, u);
    InformedNext(c, us, u);
    GroupNext(c, us, u);
    forall x | x != ""
      ensures Restores(InstOf(RestoreRow(c, u).insts, x), Told(us + [u], x))
    {
      StatesNext(c, us, u, x);
    }
  }

  lemma ToldNext(us: seq<Update>, u: Update, x: string)
    ensures Told(us + [u], x) == if u.ticker == x then Told(us, x) + {u.state} else Told(us, x)
  {
    assert forall v :: v in us + [u] <==> v in us || v == u;
    if u.ticker == x { assert u in us + [u]; }
  }

  lemma StatesNext(c: Core, us: seq<Update>, u: Update, x: string)
    requires x != "" && Restores(InstOf(c.insts, x), Told(us, x))
    ensures Restores(InstOf(RestoreRow(c, u).insts, x), Told(us + [u], x))
  {
    ToldNext(us, u, x);
    if u.ticker == x { RestoresNext(c, Told(us, x), u); }
  }

  lemma RestoresNext(c: Core, told: set<State>, u: Update)
    requires u.ticker != "" && Restores(InstOf(c.insts, u.ticker), told)
    ensures Restores(InstOf(RestoreRow(c, u).insts, u.ticker), told + {u.state})
  {
    var i, j := InstOf(c.insts, u.ticker), InstOf(RestoreRow(c, u).insts, u.ticker);
    var s := u.state;
    assert j.trading == if Stated(s.tradingState) then s.tradingState else i.trading;
    assert j.shortSell == if Stated(s.shortSell) then s.shortSell else i.shortSell;
    assert j.reference == if s.refPrice != 0 then Some(s.refPrice) else i.reference;
    assert s in told + {s};
    FieldsNext(i, j, told, s);
  }

  lemma FieldsNext(i: Inst, j: Inst, told: set<State>, s: State)
    requires Restores(i, told)
    requires j.trading == if Stated(s.tradingState) then s.tradingState else i.trading
    requires j.shortSell == if Stated(s.shortSell) then s.shortSell else i.shortSell
    requires j.reference == if s.refPrice != 0 then Some(s.refPrice) else i.reference
    ensures Restores(j, told + {s})
  {
    assert s in told + {s};
    if !Stated(s.tradingState) {
      if x :| x in told && Stated(x.tradingState) && i.trading == x.tradingState { assert x in told + {s}; }
    }
    if !Stated(s.shortSell) {
      if x :| x in told && Stated(x.shortSell) && i.shortSell == x.shortSell { assert x in told + {s}; }
    }
    if s.refPrice == 0 {
      if x :| x in told && x.refPrice != 0 && i.reference == Some(x.refPrice) { assert x in told + {s}; }
    }
  }

  lemma DescribedNext(c: Core, us: seq<Update>, u: Update)
    requires InstsFrom(c, us)
    ensures var c' := RestoreRow(c, u);
            forall x :: Described(c', x) <==>
              exists v :: v in us + [u] && v.ticker == x != "" && v.static_.directorySeen
  {
    var c' := RestoreRow(c, u);
    forall x
      ensures Described(c', x) <==> exists v :: v in us + [u] && v.ticker == x != "" && v.static_.directorySeen
    {
      assert Described(c', x) <==> Described(c, x) || (u.ticker == x != "" && u.static_.directorySeen);
      if v :| v in us && v.ticker == x != "" && v.static_.directorySeen { assert v in us + [u]; }
      if u.ticker == x != "" && u.static_.directorySeen { assert u in us + [u]; }
      if v :| v in us + [u] && v.ticker == x != "" && v.static_.directorySeen { assert v in us || v == u; }
    }
  }

  lemma GroupNext(c: Core, us: seq<Update>, u: Update)
    requires InstsFrom(c, us)
    ensures var c' := RestoreRow(c, u);
            forall x :: x in c'.insts ==>
              exists v :: v in us + [u] && v.ticker == x != "" && v.group == c'.insts[x].group
  {
    var c' := RestoreRow(c, u);
    forall x | x in c'.insts
      ensures exists v :: v in us + [u] && v.ticker == x != "" && v.group == c'.insts[x].group
    {
      if x in c.insts && c.insts[x].group == c'.insts[x].group {
        var v :| v in us && v.ticker == x != "" && v.group == c.insts[x].group;
        assert v in us + [u];
      } else {
        assert u in us + [u];
      }
    }
  }

  lemma InformedNext(c: Core, us: seq<Update>, u: Update)
    requires InstsFrom(c, us)
    ensures var c' := RestoreRow(c, u);
            forall x :: x in c'.insts <==>
              exists v :: v in us + [u] && v.ticker == x != "" && Informs(v.static_, v.state)
  {
    var c' := RestoreRow(c, u);
    forall x
      ensures x in c'.insts <==> exists v :: v in us + [u] && v.ticker == x != "" && Informs(v.static_, v.state)
    {
      assert x in c'.insts <==> x in c.insts || (u.ticker == x != "" && Informs(u.static_, u.state));
      if v :| v in us && v.ticker == x != "" && Informs(v.static_, v.state) { assert v in us + [u]; }
      if u.ticker == x != "" && Informs(u.static_, u.state) { assert u in us + [u]; }
      if v :| v in us + [u] && v.ticker == x != "" && Informs(v.static_, v.state) { assert v in us || v == u; }
    }
  }

  lemma StatsNext(c: Core, us: seq<Update>, u: Update)
    requires StatsFrom(c, us)
    ensures StatsFrom(RestoreRow(c, u), us + [u])
  {
    forall x
      ensures x in RestoreRow(c, u).stats <==>
              exists v :: v in us + [u] && v.ticker == x != "" && v.trade.count > 0
    {
      TradedNext(c, us, u, x);
    }
    forall x | x in RestoreRow(c, u).stats
      ensures exists v :: v in us + [u] && v.ticker == x && v.trade.count > 0
                       && RestoreRow(c, u).stats[x] == Restored(v.trade)
    {
      StatNext(c, us, u, x);
    }
  }

  lemma TradedNext(c: Core, us: seq<Update>, u: Update, x: string)
    requires StatsFrom(c, us)
    ensures x in RestoreRow(c, u).stats <==>
            exists v :: v in us + [u] && v.ticker == x != "" && v.trade.count > 0
  {
    if v :| v in us && v.ticker == x != "" && v.trade.count > 0 { assert x in c.stats && v in us + [u]; }
    if u.ticker == x != "" && u.trade.count > 0 { assert u in us + [u]; }
    if v :| v in us + [u] && v.ticker == x != "" && v.trade.count > 0 { assert v in us || v == u; }
  }

  lemma StatNext(c: Core, us: seq<Update>, u: Update, x: string)
    requires StatsFrom(c, us) && x in RestoreRow(c, u).stats
    ensures exists v :: v in us + [u] && v.ticker == x && v.trade.count > 0
                     && RestoreRow(c, u).stats[x] == Restored(v.trade)
  {
    if x == u.ticker && u.trade.count > 0 {
      assert u in us + [u];
    } else {
      var v :| v in us && v.ticker == x && v.trade.count > 0 && c.stats[x] == Restored(v.trade);
      assert v in us + [u];
    }
  }

  lemma {:induction false} RestoreRows(c: Core, us: seq<Update>, i: nat)
    requires i <= |us| && InstsFrom(c, us[..i]) && StatsFrom(c, us[..i])
    ensures var e := RestoreAll(c, RowRecs(us[i..])); InstsFrom(e, us) && StatsFrom(e, us) && e.orders == c.orders
    decreases |us| - i
  {
    var q := RowRecs(us[i..]);
    if i == |us| {
      assert us[..i] == us;
    } else {
      InstsNext(c, us[..i], us[i]);
      StatsNext(c, us[..i], us[i]);
      assert us[..i + 1] == us[..i] + [us[i]];
      assert q[1..] == RowRecs(us[i + 1..]);
      RestoreRows(RestoreRow(c, us[i]), us, i + 1);
    }
  }

  /** Update `u` is the row under its key. */
  predicate RowIs(t: Tables, u: Update) {
    var k := Key(u.ticker, u.group);
    && k in t.books
    && t.books[k].static_ == u.static_ && t.books[k].state == u.state && t.books[k].trade == u.trade
  }

  /** `us` are the rows of the tables, as updates. */
  ghost predicate RowsAre(t: Tables, us: seq<Update>) {
    && (forall k :: k in t.books ==> DumpUpdate(t.meta, k, t.books[k]) in us)
    && (forall u :: u in us ==> RowIs(t, u))
  }

  lemma TableRows(t: Tables)
    ensures RowsAre(t, RowUpdates(t, Keys(t)))
  {
    var ks, us := Keys(t), RowUpdates(t, Keys(t));
    forall k | k in t.books
      ensures DumpUpdate(t.meta, k, t.books[k]) in us
    {
      var i :| 0 <= i < |ks| && ks[i] == k;
      assert us[i] == DumpUpdate(t.meta, k, t.books[k]);
    }
    forall u | u in us
      ensures RowIs(t, u)
    {
      var i :| 0 <= i < |us| && us[i] == u;
      assert ks[i] in ks;
    }
  }

  lemma RowsOfTables(c: Core, t: Tables, us: seq<Update>)
    requires InstsFrom(c, us) && StatsFrom(c, us) && RowsAre(t, us) && c.orders == t.orders
    ensures Recovers(c, t)
  {
    RecoversDescribed(c, t, us);
    RecoversInsts(c, t, us);
    RecoversStates(c, t, us);
    RecoversStats(c, t, us);
  }

  lemma RecoversDescribed(c: Core, t: Tables, us: seq<Update>)
    requires InstsFrom(c, us) && RowsAre(t, us)
    ensures forall x :: Described(c, x) <==>
              x != "" && exists k :: k in t.books && k.ticker == x && t.books[k].static_.directorySeen
  {
    forall x
      ensures Described(c, x) <==>
                x != "" && exists k :: k in t.books && k.ticker == x && t.books[k].static_.directorySeen
    {
      if u :| u in us && u.ticker == x != "" && u.static_.directorySeen {
        var k := Key(u.ticker, u.group);
        assert k in t.books && k.ticker == x && t.books[k].static_.directorySeen;
      }
      if k :| k in t.books && k.ticker == x != "" && t.books[k].static_.directorySeen {
        assert DumpUpdate(t.meta, k, t.books[k]) in us;
      }
    }
  }

  lemma RecoversInsts(c: Core, t: Tables, us: seq<Update>)
    requires InstsFrom(c, us) && RowsAre(t, us)
    ensures forall x :: x in c.insts <==> x != "" && exists k :: k in t.books && k.ticker == x && RowInforms(t.books[k])
    ensures forall x :: x in c.insts ==> exists k :: k in t.books && k.ticker == x && c.insts[x].group == k.group
  {
    forall x
      ensures x in c.insts <==> x != "" && exists k :: k in t.books && k.ticker == x && RowInforms(t.books[k])
    {
      RecoversInst(c, t, us, x);
    }
    forall x | x in c.insts
      ensures exists k :: k in t.books && k.ticker == x && c.insts[x].group == k.group
    {
      var u :| u in us && u.ticker == x != "" && u.group == c.insts[x].group;
      assert RowIs(t, u);
      var k := Key(u.ticker, u.group);
      assert k in t.books && k.ticker == x && c.insts[x].group == k.group;
    }
  }

  lemma RecoversInst(c: Core, t: Tables, us: seq<Update>, x: string)
    requires InstsFrom(c, us) && RowsAre(t, us)
    ensures x in c.insts <==> x != "" && exists k :: k in t.books && k.ticker == x && RowInforms(t.books[k])
  {
    if u :| u in us && u.ticker == x != "" && Informs(u.static_, u.state) {
      assert RowIs(t, u);
      var k := Key(u.ticker, u.group);
      assert k in t.books && k.ticker == x && RowInforms(t.books[k]);
    }
    if k :| k in t.books && k.ticker == x != "" && RowInforms(t.books[k]) {
      assert DumpUpdate(t.meta, k, t.books[k]) in us;
    }
  }

  lemma RecoversStates(c: Core, t: Tables, us: seq<Update>)
    requires InstsFrom(c, us) && RowsAre(t, us)
    ensures forall x :: x != "" ==> Restores(InstOf(c.insts, x), RowStates(t.books, x))
  {
    forall x | x != ""
      ensures Told(us, x) == RowStates(t.books, x)
    {
      SameStates(t, us, x);
    }
  }

  lemma SameStates(t: Tables, us: seq<Update>, x: string)
    requires RowsAre(t, us)
    ensures Told(us, x) == RowStates(t.books, x)
  {
    forall s | s in Told(us, x)
      ensures s in RowStates(t.books, x)
    {
      var u :| u in us && u.ticker == x && u.state == s;
      assert Key(u.ticker, u.group) in t.books && t.books[Key(u.ticker, u.group)].state == s;
    }
    forall s | s in RowStates(t.books, x)
      ensures s in Told(us, x)
    {
      var k :| k in t.books && k.ticker == x && t.books[k].state == s;
      assert DumpUpdate(t.meta, k, t.books[k]) in us;
    }
  }

  lemma RecoversStats(c: Core, t: Tables, us: seq<Update>)
    requires StatsFrom(c, us) && RowsAre(t, us)
    ensures forall x :: x in c.stats <==>
              x != "" && exists k :: k in t.books && k.ticker == x && t.books[k].trade.count > 0
    ensures forall x :: x in c.stats ==>
              exists k :: k in t.books && k.ticker == x && t.books[k].trade.count > 0
                && c.stats[x] == Restored(t.books[k].trade)
  {
    forall x
      ensures x in c.stats <==> x != "" && exists k :: k in t.books && k.ticker == x && t.books[k].trade.count > 0
      ensures x in c.stats ==>
              exists k :: k in t.books && k.ticker == x && t.books[k].trade.count > 0
                && c.stats[x] == Restored(t.books[k].trade)
    {
      if x in c.stats {
        var u :| u in us && u.ticker == x && u.trade.count > 0 && c.stats[x] == Restored(u.trade);
        var k := Key(u.ticker, u.group);
        assert k in t.books && k.ticker == x && t.books[k].trade.count > 0 && c.stats[x] == Restored(t.books[k].trade);
      }
      if k :| k in t.books && k.ticker == x != "" && t.books[k].trade.count > 0 {
        assert DumpUpdate(t.meta, k, t.books[k]) in us;
      }
    }
  }

  lemma {:induction false} TicksAreTicks(ticks: map<nat, map<nat, nat>>, tables: seq<nat>)
    requires forall i :: i in tables ==> i in ticks
    ensures forall r :: r in Ticks(ticks, tables) ==> r.TickRec?
  {
    if tables != [] { TicksAreTicks(ticks, tables[1..]); }
  }

  /** Nothing but order and row records matters. */
  lemma DumpParts(t: Tables)
    ensures RestoreAll(EmptyCore, Dumped(t))
            == RestoreAll(EmptyCore.(orders := t.orders), RowRecs(RowUpdates(t, Keys(t))))
  {
    var ticks := Ticks(t.ticks, Numbers(t.ticks.Keys));
    var orders := OrderRecs(t.orders, Numbers(t.orders.Keys));
    var rows := RowRecs(RowUpdates(t, Keys(t)));
    var end := [SyncEnd(t.meta.session, t.meta.seq_, t.meta.epoch)];
    TicksAreTicks(t.ticks, Numbers(t.ticks.Keys));
    RestoreOther(EmptyCore, [SyncBegin] + ticks);
    RestoreOrders(EmptyCore, t.orders, Numbers(t.orders.Keys));
    PickAll(t.orders, Numbers(t.orders.Keys));
    RestoreOther(RestoreAll(EmptyCore.(orders := t.orders), rows), end);
    RestoreAppend(EmptyCore, [SyncBegin] + ticks, orders);
    RestoreAppend(EmptyCore, [SyncBegin] + ticks + orders, rows);
    RestoreAppend(EmptyCore, [SyncBegin] + ticks + orders + rows, end);
  }

  lemma NoRows(orders: Table)
    ensures InstsFrom(EmptyCore.(orders := orders), []) && StatsFrom(EmptyCore.(orders := orders), [])
  {
  }

  /** Feeding a dump of any tables to the recovery path yields a market the step
      system's `Recovers` allows. */
  lemma RestoreDump(t: Tables)
    ensures Recovers(RestoreAll(EmptyCore, Dumped(t)), t)
  {
    var us := RowUpdates(t, Keys(t));
    DumpParts(t);
    NoRows(t.orders);
    assert us[0..] == us && us[..0] == [];
    RestoreRows(EmptyCore.(orders := t.orders), us, 0);
    TableRows(t);
    RowsOfTables(RestoreAll(EmptyCore.(orders := t.orders), RowRecs(us)), t, us);
  }

  /** In a dump every order row is a live order, and each is listed once. */
  lemma DumpedOrders(t: Tables)
    ensures var q := Dumped(t);
            && (forall i :: 0 <= i < |q| && q[i].OrderRec? ==>
                 q[i].number in t.orders && q[i].row == t.orders[q[i].number])
            && (forall i, j :: 0 <= i < j < |q| && q[i].OrderRec? && q[j].OrderRec? ==> q[i].number != q[j].number)
  {
    var q, numbers := Dumped(t), Numbers(t.orders.Keys);
    var k := 1 + |Ticks(t.ticks, Numbers(t.ticks.Keys))|;
    Sorting.NatOrder();
    AscendingDistinct(t.orders.Keys, Sorting.NatLess);
    forall i | 0 <= i < |q| && q[i].OrderRec?
      ensures 0 <= i - k < |numbers| && q[i] == OrderRec(numbers[i - k], t.orders[numbers[i - k]])
    {
      DumpedAt(t, i);
    }
  }

  /** The order records of a dump stand between its tick and its row records. */
  lemma DumpedAt(t: Tables, i: nat)
    requires i < |Dumped(t)|
    ensures var k, numbers := 1 + |Ticks(t.ticks, Numbers(t.ticks.Keys))|, Numbers(t.orders.Keys);
            Dumped(t)[i].OrderRec? ==>
              0 <= i - k < |numbers| && Dumped(t)[i] == OrderRec(numbers[i - k], t.orders[numbers[i - k]])
  {
    var ticks, orders := Ticks(t.ticks, Numbers(t.ticks.Keys)), OrderRecs(t.orders, Numbers(t.orders.Keys));
    TicksAreTicks(t.ticks, Numbers(t.ticks.Keys));
    var k := 1 + |ticks|;
    if 0 < i < k {
      assert Dumped(t)[i] == ticks[i - 1] && ticks[i - 1] in ticks;
    } else if k <= i < k + |orders| {
      assert Dumped(t)[i] == orders[i - k];
    }
  }
}
