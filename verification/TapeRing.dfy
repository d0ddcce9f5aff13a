/** What a database row holds after any records: the latest update of its key, and
    the ring of that key's last executions. */
module TapeRing {
  import opened Itch
  import opened Orders
  import opened Records
  import opened TableModel

  /** The updates a database takes from the records: those since the last reset that
      the duplicate guard lets through. */
  function Taken(d: Db, q: seq<Rec>): seq<Update> {
    if q == [] then []
    else
      var front, r := q[..|q| - 1], q[|q| - 1];
      TakenNext(Final(d, front), Taken(d, front), r)
  }

  function TakenNext(d: Db, us: seq<Update>, r: Rec): seq<Update> {
    if r.Reset? then []
    else if r.UpdateRec? && !Duplicate(d.tables.meta, r.u, d.inSync) then us + [r.u]
    else us
  }

  predicate Of(u: Update, k: Key) {
    u.ticker == k.ticker && u.group == k.group
  }

  /** The updates of one key, in order. */
  function OfKey(us: seq<Update>, k: Key): seq<Update> {
    if us == [] then []
    else OfKey(us[..|us| - 1], k) + if Of(us[|us| - 1], k) then [us[|us| - 1]] else []
  }

  /** Those an execution triggered. */
  function Executions(us: seq<Update>): seq<Update> {
    if us == [] then []
    else Executions(us[..|us| - 1]) + if us[|us| - 1].trigger == 'E' then [us[|us| - 1]] else []
  }

  /** The ring is the last 50 executions of the key, entry by entry. */
  ghost predicate Rings(tape: seq<TapeEntry>, es: seq<Update>) {
    && |tape| == (if |es| <= 50 then |es| else 50)
    && forall i :: 0 <= i < |tape| ==> Prints(tape[i], es[|es| - |tape| + i])
  }

  predicate Prints(e: TapeEntry, u: Update) {
    && e.ns == u.trade.lastNs && e.price == u.trade.lastPrice && e.qty == u.trade.lastQty
    && e.matchNumber == u.trade.lastMatch
  }

  /** A row is the latest update of its key, with the ring. */
  ghost predicate Latest(r: Row, us: seq<Update>) {
    us != [] && Carries(r, us[|us| - 1]) && Rings(r.tape, Executions(us))
  }

  predicate Carries(r: Row, u: Update) {
    && r.static_ == u.static_ && r.state == u.state && r.seq_ == u.seq_ && r.ns == u.ns
    && r.book == u.book && r.trade == u.trade
  }

  lemma RingNext(tape: seq<TapeEntry>, es: seq<Update>, e: TapeEntry, u: Update)
    requires Rings(tape, es) && Prints(e, u)
    ensures Rings(PushTape(tape, e), es + [u])
  {
    var more, all := PushTape(tape, e), es + [u];
    forall i | 0 <= i < |more|
      ensures Prints(more[i], all[|all| - |more| + i])
    {
      if i == |more| - 1 {
        assert more[i] == e && all[|all| - |more| + i] == u;
      } else {
        var j := |tape| + 1 - |more| + i;
        assert more[i] == tape[j] && all[|all| - |more| + i] == es[|es| - |tape| + j];
      }
    }
  }

  /** The row an update leaves under its own key. */
  lemma RowNext(was: Option<Row>, us: seq<Update>, u: Update)
    requires if us == [] then was.None? else was.Some? && Latest(was.value, us)
    ensures Latest(NewRow(was, u), us + [u])
  {
    var tape := if was.Some? then was.value.tape else [];
    assert (us + [u])[..|us|] == us;
    if u.trigger == 'E' {
      var e := TapeEntry(u.trade.lastNs, u.trade.lastPrice, u.trade.lastQty, u.trade.lastMatch);
      RingNext(tape, Executions(us), e, u);
    }
    assert Executions(us + [u]) == Executions(us) + if u.trigger == 'E' then [u] else [];
  }

  lemma KeyNext(us: seq<Update>, u: Update, k: Key)
    ensures OfKey(us + [u], k) == if Of(u, k) then OfKey(us, k) + [u] else OfKey(us, k)
  {
    assert (us + [u])[..|us|] == us;
  }

  ghost predicate Held(books: map<Key, Row>, us: seq<Update>, k: Key) {
    && (k in books <==> OfKey(us, k) != [])
    && (k in books ==> Latest(books[k], OfKey(us, k)))
  }

  lemma HeldNext(t: Tables, us: seq<Update>, u: Update, k: Key, inSync: bool)
    requires Held(t.books, us, k) && !Duplicate(t.meta, u, inSync)
    ensures Held(ApplyUpdate(t, u, inSync).books, us + [u], k)
  {
    KeyNext(us, u, k);
    if Of(u, k) {
      assert Key(u.ticker, u.group) == k;
      RowNext(if k in t.books then Some(t.books[k]) else None, OfKey(us, k), u);
    }
  }

  lemma ReceiveHolds(d: Db, us: seq<Update>, r: Rec, k: Key)
    requires Held(d.tables.books, us, k)
    ensures Held(Receive(d, r).tables.books, TakenNext(d, us, r), k)
  {
    if r.UpdateRec? && !Duplicate(d.tables.meta, r.u, d.inSync) {
      HeldNext(d.tables, us, r.u, k, d.inSync);
    }
  }

  lemma FinalLast(d: Db, q: seq<Rec>)
    requires q != []
    ensures Final(d, q) == Receive(Final(d, q[..|q| - 1]), q[|q| - 1])
  {
    var front, r := q[..|q| - 1], q[|q| - 1];
    assert q == front + [r];
    FinalAppend(d, front, [r]);
    assert [r][1..] == [];
    assert Final(Final(d, front), [r]) == Final(Receive(Final(d, front), r), []);
  }

  /** Whatever records a database without rows receives, and however often it is reset:
      a key has a row exactly when an update of it was taken, and the row is the last
      one taken, with the last 50 executions of the key as its tape. */
  lemma {:induction false} RowsHold(d: Db, q: seq<Rec>, k: Key)
    requires d.tables.books == map[]
    ensures Held(Final(d, q).tables.books, Taken(d, q), k)
  {
    if q != [] {
      var front, r := q[..|q| - 1], q[|q| - 1];
      RowsHold(d, front, k);
      FinalLast(d, q);
      ReceiveHolds(Final(d, front), Taken(d, front), r, k);
    }
  }

  /** The size last sent for a start price of a tick table, since the last reset. */
  function LastSize(q: seq<Rec>, table: nat, start: nat): Option<nat> {
    if q == [] then None else SizeNext(LastSize(q[..|q| - 1], table, start), q[|q| - 1], table, start)
  }

  function SizeNext(was: Option<nat>, r: Rec, table: nat, start: nat): Option<nat> {
    if r.Reset? then None
    else if r.TickRec? && r.table == table && r.start == start then Some(r.size)
    else was
  }

  function SizeIn(t: Tables, table: nat, start: nat): Option<nat> {
    if table in t.ticks && start in t.ticks[table] then Some(t.ticks[table][start]) else None
  }

  lemma TickStep(d: Db, r: Rec, table: nat, start: nat)
    ensures SizeIn(Receive(d, r).tables, table, start) == SizeNext(SizeIn(d.tables, table, start), r, table, start)
  {
  }

  /** Over any records, the tick rows are the last sent. */
  lemma {:induction false} TicksHold(d: Db, q: seq<Rec>, table: nat, start: nat)
    requires d.tables.ticks == map[]
    ensures SizeIn(Final(d, q).tables, table, start) == LastSize(q, table, start)
  {
    if q != [] {
      TicksHold(d, q[..|q| - 1], table, start);
      FinalLast(d, q);
      TickStep(Final(d, q[..|q| - 1]), q[|q| - 1], table, start);
    }
  }

  // --- position and counters -----------------------------------------------------------

  /** The records since the last reset. */
  function SinceReset(q: seq<Rec>): seq<Rec> {
    if q == [] then []
    else if q[|q| - 1].Reset? then []
    else SinceReset(q[..|q| - 1]) + [q[|q| - 1]]
  }

  /** Inside a bracket once a begin mark is not yet matched by an end mark. */
  function Bracketed(start: bool, q: seq<Rec>): bool {
    if q == [] then start
    else if q[|q| - 1].SyncBegin? then true
    else if q[|q| - 1].SyncEnd? then false
    else Bracketed(start, q[..|q| - 1])
  }

  /** The brackets closed. */
  function Closed(start: bool, q: seq<Rec>): nat {
    if q == [] then 0
    else
      var n, front := Closed(start, q[..|q| - 1]), q[..|q| - 1];
      if q[|q| - 1].SyncEnd? && Bracketed(start, front) then n + 1 else n
  }

  function CountOrders(q: seq<Rec>): nat {
    if q == [] then 0 else CountOrders(q[..|q| - 1]) + if q[|q| - 1].OrderRec? then 1 else 0
  }

  function CountTicks(q: seq<Rec>): nat {
    if q == [] then 0 else CountTicks(q[..|q| - 1]) + if q[|q| - 1].TickRec? then 1 else 0
  }

  function CountUpdates(q: seq<Rec>): nat {
    if q == [] then 0 else CountUpdates(q[..|q| - 1]) + if q[|q| - 1].UpdateRec? then 1 else 0
  }

  /** Session, epoch and sequence: those of the last update taken outside a bracket or
      of the last bracket closed, whichever came later. */
  datatype Place = Place(session: string, epoch: nat, seq_: nat)

  function PlaceOf(d: Db, q: seq<Rec>): Place {
    if q == [] then Place(d.tables.meta.session, d.tables.meta.epoch, d.tables.meta.seq_)
    else
      var front, r := q[..|q| - 1], q[|q| - 1];
      var was, inside := PlaceOf(d, front), Bracketed(d.inSync, front);
      match r
      case Reset => Place("", 0, 0)
      case SyncEnd(session, n, epoch) => if inside then Place(session, epoch, n) else was
      case UpdateRec(u) =>
        if !inside && |Taken(d, q)| > |Taken(d, front)| then Place(u.session, u.epoch, u.seq_) else was
      case _ => was
  }

  lemma CountNext(s: seq<Rec>, r: Rec)
    ensures CountOrders(s + [r]) == CountOrders(s) + if r.OrderRec? then 1 else 0
    ensures CountTicks(s + [r]) == CountTicks(s) + if r.TickRec? then 1 else 0
    ensures CountUpdates(s + [r]) == CountUpdates(s) + if r.UpdateRec? then 1 else 0
  {
    assert (s + [r])[..|s|] == s;
  }

  /** Since the last reset: updates taken and dropped, order and tick rows; and the
      brackets completed, which a reset does not forget. */
  ghost predicate Counted(m: Meta, taken: nat, s: seq<Rec>, completed: nat, discarded: nat) {
    && m.updates == taken && m.updates + m.dups == CountUpdates(s)
    && m.orderRows == CountOrders(s) && m.tickRows == CountTicks(s)
    && m.syncsCompleted == completed && m.syncsDiscarded == discarded
  }

  lemma {:induction false} PlaceHolds(d: Db, q: seq<Rec>)
    ensures var e := Final(d, q);
            && e.inSync == Bracketed(d.inSync, q)
            && Place(e.tables.meta.session, e.tables.meta.epoch, e.tables.meta.seq_) == PlaceOf(d, q)
  {
    if q != [] {
      PlaceHolds(d, q[..|q| - 1]);
      FinalLast(d, q);
    }
  }

  lemma CountsStep(e: Db, us: seq<Update>, s: seq<Rec>, completed: nat, discarded: nat, r: Rec)
    requires Counted(e.tables.meta, |us|, s, completed, discarded)
    ensures Counted(Receive(e, r).tables.meta, |TakenNext(e, us, r)|, if r.Reset? then [] else s + [r],
                    if r.SyncEnd? && e.inSync then completed + 1 else completed, discarded)
  {
    CountNext(s, r);
  }

  lemma {:induction false} CountsHold(d: Db, q: seq<Rec>)
    requires d.tables.meta.updates == d.tables.meta.dups == d.tables.meta.orderRows == d.tables.meta.tickRows == 0
    ensures Counted(Final(d, q).tables.meta, |Taken(d, q)|, SinceReset(q),
                    d.tables.meta.syncsCompleted + Closed(d.inSync, q), d.tables.meta.syncsDiscarded)
  {
    if q != [] {
      var front, r := q[..|q| - 1], q[|q| - 1];
      CountsHold(d, front);
      PlaceHolds(d, front);
      FinalLast(d, q);
      CountsStep(Final(d, front), Taken(d, front), SinceReset(front),
                 d.tables.meta.syncsCompleted + Closed(d.inSync, front), d.tables.meta.syncsDiscarded, r);
    }
  }

  lemma MetaHolds(d: Db, q: seq<Rec>)
    requires d.tables.meta.updates == d.tables.meta.dups == d.tables.meta.orderRows == d.tables.meta.tickRows == 0
    ensures var e, was := Final(d, q), d.tables.meta;
            && e.inSync == Bracketed(d.inSync, q)
            && Place(e.tables.meta.session, e.tables.meta.epoch, e.tables.meta.seq_) == PlaceOf(d, q)
            && Counted(e.tables.meta, |Taken(d, q)|, SinceReset(q), was.syncsCompleted + Closed(d.inSync, q),
                       was.syncsDiscarded)
  {
    PlaceHolds(d, q);
    CountsHold(d, q);
  }

  /** A connection lost inside a bracket leaves nothing of the bracket, or of what was
      there before it, but a count. */
  lemma LostBracket(d: Db, k: Key, n: nat)
    ensures var e, m := DropConnection(d), DropConnection(d).tables.meta;
            && !e.inSync && (!d.inSync ==> e == d)
            && (d.inSync ==>
                  && k !in e.tables.books && n !in e.tables.orders && n !in e.tables.ticks
                  && m.session == "" && m.seq_ == m.epoch == m.updates == m.dups == m.orderRows == m.tickRows == 0
                  && m.syncsCompleted == d.tables.meta.syncsCompleted
                  && m.syncsDiscarded == d.tables.meta.syncsDiscarded + 1)
  {
  }

  /** The duplicate guard: once an update was taken since the last reset, an update
      outside a bracket is dropped exactly when it is of the database's epoch and not
      beyond its sequence; and a dropped update changes a counter and nothing else. */
  lemma GuardExact(d: Db, q: seq<Rec>, u: Update)
    requires d.tables.meta.updates == d.tables.meta.dups == d.tables.meta.orderRows == d.tables.meta.tickRows == 0
    ensures var e, at := Final(d, q), PlaceOf(d, q);
            var t := Receive(e, UpdateRec(u)).tables;
            var dropped := !Bracketed(d.inSync, q) && Taken(d, q) != [] && u.epoch == at.epoch && u.seq_ <= at.seq_;
            && (dropped ==> t == e.tables.(meta := e.tables.meta.(dups := e.tables.meta.dups + 1)))
            && (!dropped ==>
                  && t.meta.dups == e.tables.meta.dups && Key(u.ticker, u.group) in t.books
                  && Carries(t.books[Key(u.ticker, u.group)], u))
  {
    MetaHolds(d, q);
  }
}
