/** What the reference data of both implementations hold after any messages, field by
    field: which message each value comes from. */
module RefData {
  import opened Itch
  import opened Feed
  import opened SnapshotBoot
  import Executions
  import MarketModel

  // --- where a value comes from ---------------------------------------------------------

  /** The last H message of a book; suspended before any. */
  function LastTrading(ms: seq<Msg>, t: string): char {
    if ms == [] then 'V'
    else if ms[|ms| - 1].TradingState? && ms[|ms| - 1].book == t then ms[|ms| - 1].state
    else LastTrading(ms[..|ms| - 1], t)
  }

  /** The last Y message of a book; unrestricted before any. */
  function LastShortSell(ms: seq<Msg>, t: string): char {
    if ms == [] then '0'
    else if ms[|ms| - 1].ShortSell? && ms[|ms| - 1].book == t then ms[|ms| - 1].state
    else LastShortSell(ms[..|ms| - 1], t)
  }

  /** The last R message of a book. */
  function LastDirectory(ms: seq<Msg>, t: string): (m: Option<Msg>)
    ensures m.Some? ==> m.value.Directory?
  {
    if ms == [] then None
    else if ms[|ms| - 1].Directory? && ms[|ms| - 1].book == t then Some(ms[|ms| - 1])
    else LastDirectory(ms[..|ms| - 1], t)
  }

  /** The group of the first message that mentions a book's reference data. */
  function FirstGroup(ms: seq<Msg>, t: string): Option<string> {
    if ms == [] then None
    else
      var first := FirstGroup(ms[..|ms| - 1], t);
      if first.None? && Creates(ms[|ms| - 1], t) then Some(ms[|ms| - 1].group) else first
  }

  /** The messages from the last R of a book on, or all if there is none. */
  function FromDirectory(ms: seq<Msg>, t: string): seq<Msg> {
    if ms == [] then []
    else if ms[|ms| - 1].Directory? && ms[|ms| - 1].book == t then [ms[|ms| - 1]]
    else FromDirectory(ms[..|ms| - 1], t) + [ms[|ms| - 1]]
  }

  /** The first group of a book that is not blank. */
  function FirstNonBlank(ms: seq<Msg>, t: string): string {
    if ms == [] then ""
    else
      var first := FirstNonBlank(ms[..|ms| - 1], t);
      if first == "" && Creates(ms[|ms| - 1], t) then ms[|ms| - 1].group else first
  }

  /** The last L message of a table's row. */
  function LastTick(ms: seq<Msg>, table: nat, start: nat): Option<nat> {
    if ms == [] then None
    else
      var m := ms[|ms| - 1];
      if m.TickSize? && m.table == table && m.start == start then Some(m.size)
      else LastTick(ms[..|ms| - 1], table, start)
  }

  /** The S messages, in order. */
  function Events(ms: seq<Msg>): (es: seq<Msg>)
    ensures forall e :: e in es ==> e.SystemEvent?
  {
    if ms == [] then []
    else if ms[|ms| - 1].SystemEvent? then Events(ms[..|ms| - 1]) + [ms[|ms| - 1]]
    else Events(ms[..|ms| - 1])
  }

  /** The last G message. */
  function LastSnapshot(ms: seq<Msg>): Option<nat> {
    if ms == [] then None
    else if ms[|ms| - 1].EndOfSnapshot? then Some(ms[|ms| - 1].sequence)
    else LastSnapshot(ms[..|ms| - 1])
  }

  // --- the prototype ----------------------------------------------------------------------

  ghost predicate PyFields(i: MarketModel.Instrument, ms: seq<Msg>, t: string) {
    var d := LastDirectory(ms, t);
    && i.info == (if d.Some? then Some(d.value.info) else None)
    && i.group == (if d.Some? then Some(d.value.group) else FirstGroup(ms, t))
    && i.trading == LastTrading(ms, t) && i.shortSell == LastShortSell(ms, t)
    && i.reference == Executions.BaseAt(ms, t)
  }

  lemma PyLeaves(r: MarketModel.Refs, m: Msg, t: string)
    requires !Creates(m, t)
    ensures MarketModel.Get(MarketModel.RefStep(r, m), t) == MarketModel.Get(r, t)
  {
  }

  lemma PyStep(r: MarketModel.Refs, ms: seq<Msg>, t: string)
    requires ms != [] && PyFields(MarketModel.Get(r, t), ms[..|ms| - 1], t) && Creates(ms[|ms| - 1], t)
    requires LastDirectory(ms[..|ms| - 1], t).Some? ==> FirstGroup(ms[..|ms| - 1], t).Some?
    ensures PyFields(MarketModel.Get(MarketModel.RefStep(r, ms[|ms| - 1]), t), ms, t)
  {
  }

  lemma {:induction false} DirectoryMentions(ms: seq<Msg>, t: string)
    ensures LastDirectory(ms, t).Some? ==> FirstGroup(ms, t).Some?
    ensures LastDirectory(ms, t).Some? <==> Directed(ms, t)
  {
    if ms != [] {
      DirectoryMentions(ms[..|ms| - 1], t);
      Longer(ms[..|ms| - 1], ms[|ms| - 1]);
      assert ms == ms[..|ms| - 1] + [ms[|ms| - 1]];
    }
  }

  /** Whatever messages the prototype's reference data see: a book is known exactly when
      one of them creates it; its directory is the last R; its group that of the last R,
      or else of the first mention; its states and reference price the last sent. */
  lemma {:induction false} PyInstrument(ms: seq<Msg>, t: string)
    ensures var r := MarketModel.Refold(MarketModel.Blank.refs, ms);
            && (t in r.insts <==> Created(ms, t)) && PyFields(MarketModel.Get(r, t), ms, t)
  {
    PyInsts(ms, t);
    if ms != [] {
      var front, m := ms[..|ms| - 1], ms[|ms| - 1];
      var r := MarketModel.Refold(MarketModel.Blank.refs, front);
      PyInstrument(front, t);
      DirectoryMentions(front, t);
      if Creates(m, t) { PyStep(r, ms, t); } else { PyLeaves(r, m, t); }
    }
  }

  /** Clock, snapshot position, tick rows and session events. */
  lemma {:induction false} PyRest(ms: seq<Msg>, k: MarketModel.TickKey)
    ensures var r := MarketModel.Refold(MarketModel.Blank.refs, ms);
            && r.seconds == Executions.SecondsAt(ms) && r.snapshotSeq == LastSnapshot(ms)
            && (k in r.ticks <==> LastTick(ms, k.table, k.start).Some?)
            && (k in r.ticks ==> r.ticks[k] == LastTick(ms, k.table, k.start).value)
            && |r.events| == |Events(ms)|
            && (forall i :: 0 <= i < |r.events| ==>
                  r.events[i] == (Events(ms)[i].ns, Events(ms)[i].group, Events(ms)[i].event))
  {
    if ms != [] { PyRest(ms[..|ms| - 1], k); }
  }

  // --- the C++ market ----------------------------------------------------------------------

  lemma {:induction false} CppGroup(ms: seq<Msg>, t: string)
    ensures InstOf(ApplyAll(EmptyCore, ms).insts, t).group == FirstNonBlank(FromDirectory(ms, t), t)
  {
    if ms != [] {
      var front, m := ms[..|ms| - 1], ms[|ms| - 1];
      CppGroup(front, t);
      var c, tail := ApplyAll(EmptyCore, front), FromDirectory(front, t);
      if m.Directory? && m.book == t {
        assert [m][..0] == [];
      } else {
        assert (tail + [m])[..|tail|] == tail;
        if !Creates(m, t) { LeavesAlone(MarketModel.Blank.refs, c, m, t); }
      }
    }
  }

  /** Whatever messages the C++ market sees: an instrument exists exactly when one of
      them creates it, is described exactly when an R did; its group is the first that
      is not blank from the last R on; its states and reference price the last sent. */
  lemma CppInstrument(ms: seq<Msg>, t: string)
    ensures var c := ApplyAll(EmptyCore, ms);
            && (t in c.insts <==> Created(ms, t))
            && (t in c.insts ==>
                  && (c.insts[t].described <==> Directed(ms, t))
                  && c.insts[t].group == FirstNonBlank(FromDirectory(ms, t), t)
                  && c.insts[t].trading == LastTrading(ms, t) && c.insts[t].shortSell == LastShortSell(ms, t)
                  && c.insts[t].reference == Executions.BaseAt(ms, t))
  {
    CppInsts(ms, t);
    CppGroup(ms, t);
    StatesAlike(ms, t);
    PyInstrument(ms, t);
  }
}
