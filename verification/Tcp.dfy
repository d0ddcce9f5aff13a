/** Reassembly of captured TCP directions, against the true positions of their
    segments. */
module Tcp {
  import opened Framing
  import opened Itch

  const WRAP: nat := 0x1_0000_0000
  const HALF: nat := 0x8000_0000

  datatype Key = Key(src: string, sport: nat, dst: string, dport: nat)

  datatype Segment = Segment(key: Key, number: nat, payload: seq<byte>, syn: bool, fin: bool)

  function Consumed(s: Segment): nat {
    |s.payload| + (if s.syn then 1 else 0) + (if s.fin then 1 else 0)
  }

  /** One direction: the sequence number expected next, and the bytes so far. */
  datatype Flow = Flow(expected: nat, data: seq<byte>)

  type Flows = map<Key, Flow>

  /** The expected segment is taken, an older one dropped, and one ahead raises. */
  function Take(f: Flow, s: Segment): Option<Flow> {
    var delta := (s.number - f.expected) % WRAP;
    if delta == 0 then Some(Flow((f.expected + Consumed(s)) % WRAP, f.data + s.payload))
    else if delta < HALF then None
    else Some(f)
  }

  /** One segment; the first of a direction synchronises it. */
  function Step(fs: Flows, s: Segment): Option<Flows> {
    var f := Take(if s.key in fs then fs[s.key] else Flow(s.number, []), s);
    if f.None? then None else Some(fs[s.key := f.value])
  }

  function Fold(ss: seq<Segment>): Option<Flows> {
    if ss == [] then Some(map[])
    else
      var fs := Fold(ss[..|ss| - 1]);
      if fs.None? then None else Step(fs.value, ss[|ss| - 1])
  }

  lemma {:induction false} FoldFails(ss: seq<Segment>, i: nat)
    requires i <= |ss| && Fold(ss[..i]).None?
    ensures Fold(ss).None?
    decreases |ss|
  {
    if i == |ss| {
      assert ss[..i] == ss;
    } else {
      assert ss[..|ss| - 1][..i] == ss[..i];
      FoldFails(ss[..|ss| - 1], i);
    }
  }

  /** Two dictionaries that together hold the flows. */
  ghost predicate Held(fs: Flows, expected: map<Key, nat>, streams: map<Key, seq<byte>>) {
    && fs.Keys == expected.Keys == streams.Keys
    && forall k :: k in fs ==> fs[k] == Flow(expected[k], streams[k])
  }

  lemma HeldPut(fs: Flows, expected: map<Key, nat>, streams: map<Key, seq<byte>>, k: Key, e: nat, data: seq<byte>)
    requires Held(fs, expected, streams)
    ensures Held(fs[k := Flow(e, data)], expected[k := e], streams[k := data])
  {
  }

  /** The comparison modulo 2^32 and its three outcomes. */
  method TakeSegment(expected: nat, data: seq<byte>, s: Segment) returns (r: Option<Flow>)
    ensures r == Take(Flow(expected, data), s)
  {
    var delta := (s.number - expected) % WRAP;
    if delta == 0 {
      return Some(Flow((expected + Consumed(s)) % WRAP, data + s.payload));
    } else if delta < HALF {
      return None;
    }
    r := Some(Flow(expected, data));
  }

  /** The segment loop. */
  method Reassemble(ss: seq<Segment>) returns (r: Option<map<Key, seq<byte>>>)
    ensures r.Some? <==> Fold(ss).Some?
    ensures r.Some? ==> exists expected :: Held(Fold(ss).value, expected, r.value)
  {
    var expected: map<Key, nat> := map[];
    var streams: map<Key, seq<byte>> := map[];
    ghost var fs: Flows := map[];
    for i := 0 to |ss|
      invariant Fold(ss[..i]) == Some(fs) && Held(fs, expected, streams)
    {
      var s := ss[i];
      assert ss[..i + 1][..i] == ss[..i];
      var e := if s.key in expected then expected[s.key] else s.number;
      var data := if s.key in streams then streams[s.key] else [];
      var t := TakeSegment(e, data, s);
      assert Fold(ss[..i + 1]) == if t.None? then None else Some(fs[s.key := t.value]);
      if t.None? {
        FoldFails(ss, i + 1);
        return None;
      }
      HeldPut(fs, expected, streams, s.key, t.value.expected, t.value.data);
      expected := expected[s.key := t.value.expected];
      streams := streams[s.key := t.value.data];
      fs := fs[s.key := t.value];
    }
    assert ss[..|ss|] == ss;
    r := Some(streams);
  }

  // --- the true stream ---------------------------------------------------------------

  /** A direction's sequence space: its initial number, and one slot per number,
      empty for a SYN or a FIN. */
  datatype Direction = Direction(isn: nat, slots: seq<Option<byte>>)

  function Bytes(slots: seq<Option<byte>>): seq<byte> {
    if slots == [] then []
    else
      var n := |slots| - 1;
      Bytes(slots[..n]) + if slots[n].Some? then [slots[n].value] else []
  }

  lemma {:induction false} BytesSplit(a: seq<Option<byte>>, b: seq<Option<byte>>)
    ensures Bytes(a + b) == Bytes(a) + Bytes(b)
  {
    if b == [] {
      assert a + b == a;
    } else {
      var n := |b| - 1;
      assert (a + b)[..|a| + n] == a + b[..n];
      BytesSplit(a, b[..n]);
    }
  }

  function Filled(payload: seq<byte>): seq<Option<byte>> {
    seq(|payload|, i requires 0 <= i < |payload| => Some(payload[i]))
  }

  lemma {:induction false} BytesFilled(payload: seq<byte>)
    ensures Bytes(Filled(payload)) == payload
  {
    if payload != [] {
      var n := |payload| - 1;
      assert Filled(payload)[..n] == Filled(payload[..n]);
      BytesFilled(payload[..n]);
    }
  }

  /** The slot of a SYN or FIN, if the flag is set. */
  function Control(set_: bool): seq<Option<byte>> {
    if set_ then [None] else []
  }

  /** The slots a segment occupies. */
  function Slots(s: Segment): seq<Option<byte>> {
    Control(s.syn) + Filled(s.payload) + Control(s.fin)
  }

  lemma NoBytes(set_: bool)
    ensures Bytes(Control(set_)) == []
  {
    if set_ { assert Control(set_)[..0] == []; }
  }

  lemma SlotBytes(s: Segment)
    ensures Bytes(Slots(s)) == s.payload && |Slots(s)| == Consumed(s)
  {
    var a, c := Control(s.syn), Control(s.fin);
    NoBytes(s.syn);
    NoBytes(s.fin);
    BytesFilled(s.payload);
    BytesSplit(a, Filled(s.payload));
    BytesSplit(a + Filled(s.payload), c);
  }

  /** Segment `s` carries the stream's own slots from position `p` on. */
  ghost predicate Truthful(d: Direction, s: Segment, p: nat) {
    && p + Consumed(s) <= |d.slots|
    && s.number == (d.isn + p) % WRAP
    && d.slots[p..p + Consumed(s)] == Slots(s)
  }

  /** The part of a direction taken so far, in true positions. */
  datatype Span = Span(from: nat, to: nat)

  type Spans = map<Key, Span>

  /** What reassembly should do, told the true position of each segment. */
  function Reach(a: Span, s: Segment, p: nat): Option<Span> {
    if p == a.to then Some(Span(a.from, a.to + Consumed(s)))
    else if p > a.to then None
    else Some(a)
  }

  function Ideal(spans: Spans, s: Segment, p: nat): Option<Spans> {
    var a := Reach(if s.key in spans then spans[s.key] else Span(p, p), s, p);
    if a.None? then None else Some(spans[s.key := a.value])
  }

  function IdealFold(ss: seq<Segment>, ps: seq<nat>): Option<Spans>
    requires |ss| == |ps|
  {
    if ss == [] then Some(map[])
    else
      var n := |ss| - 1;
      var spans := IdealFold(ss[..n], ps[..n]);
      if spans.None? then None else Ideal(spans.value, ss[n], ps[n])
  }

  /** Every segment is true, and lies within 2^31 of the position expected of its
      direction when it is met. */
  ghost predicate Faithful(dirs: map<Key, Direction>, ss: seq<Segment>, ps: seq<nat>)
    requires |ss| == |ps|
  {
    ss != [] ==>
      var n := |ss| - 1;
      && Faithful(dirs, ss[..n], ps[..n])
      && ss[n].key in dirs && Truthful(dirs[ss[n].key], ss[n], ps[n])
      && var spans := IdealFold(ss[..n], ps[..n]);
         spans.Some? && ss[n].key in spans.value ==> Near(ps[n], spans.value[ss[n].key].to)
  }

  predicate Near(p: nat, to: nat) {
    to - HALF <= p < to + HALF
  }

  /** A flow holds the true bytes of its span. */
  ghost predicate FlowOk(d: Direction, f: Flow, a: Span) {
    && a.from <= a.to <= |d.slots|
    && f.expected == (d.isn + a.to) % WRAP
    && f.data == Bytes(d.slots[a.from..a.to])
  }

  ghost predicate Matches(dirs: map<Key, Direction>, fs: Flows, spans: Spans) {
    && fs.Keys == spans.Keys
    && forall k :: k in fs ==> k in dirs && FlowOk(dirs[k], fs[k], spans[k])
  }

  /** Within the window, the 32-bit difference has the sign of the true one. */
  lemma Window(isn: nat, p: nat, to: nat)
    requires Near(p, to)
    ensures var delta := ((isn + p) % WRAP - (isn + to) % WRAP) % WRAP;
            && (delta == 0 <==> p == to)
            && (delta < HALF <==> p >= to)
  {
    var a, b := (isn + p) / WRAP, (isn + to) / WRAP;
    var x, y := (isn + p) % WRAP, (isn + to) % WRAP;
    assert x - y == (p - to) - WRAP * (a - b);
    assert -(WRAP as int) < x - y < WRAP;
    assert -1 <= a - b <= 1;
  }

  lemma Advance(isn: nat, to: nat, n: nat)
    ensures ((isn + to) % WRAP + n) % WRAP == (isn + (to + n)) % WRAP
  {
    var q, r := (isn + to) / WRAP, (isn + to) % WRAP;
    var q', r' := (r + n) / WRAP, (r + n) % WRAP;
    assert isn + (to + n) == WRAP * (q + q') + r';
  }

  /** Taking a true segment at the end of a span extends the bytes by its payload. */
  lemma ExtendBytes(d: Direction, a: Span, s: Segment)
    requires a.from <= a.to && Truthful(d, s, a.to)
    ensures Bytes(d.slots[a.from..a.to + Consumed(s)]) == Bytes(d.slots[a.from..a.to]) + s.payload
  {
    SlotBytes(s);
    BytesSplit(d.slots[a.from..a.to], Slots(s));
    assert d.slots[a.from..a.to] + Slots(s) == d.slots[a.from..a.to + Consumed(s)];
  }

  lemma TakeExpected(d: Direction, f: Flow, a: Span, s: Segment)
    requires FlowOk(d, f, a) && Truthful(d, s, a.to)
    ensures Take(f, s).Some? && FlowOk(d, Take(f, s).value, Span(a.from, a.to + Consumed(s)))
  {
    assert s.number == f.expected;
    Advance(d.isn, a.to, Consumed(s));
    ExtendBytes(d, a, s);
  }

  lemma TakeOther(d: Direction, f: Flow, a: Span, s: Segment, p: nat)
    requires f.expected == (d.isn + a.to) % WRAP && s.number == (d.isn + p) % WRAP && Near(p, a.to) && p != a.to
    ensures Take(f, s) == if p > a.to then None else Some(f)
  {
    Window(d.isn, p, a.to);
  }

  lemma TakeReaches(d: Direction, f: Flow, a: Span, s: Segment, p: nat)
    requires FlowOk(d, f, a) && Truthful(d, s, p) && Near(p, a.to)
    ensures Take(f, s).Some? == Reach(a, s, p).Some?
    ensures Take(f, s).Some? ==> FlowOk(d, Take(f, s).value, Reach(a, s, p).value)
  {
    if p == a.to {
      TakeExpected(d, f, a, s);
    } else {
      TakeOther(d, f, a, s, p);
    }
  }

  lemma StepMatches(dirs: map<Key, Direction>, fs: Flows, spans: Spans, s: Segment, p: nat)
    requires Matches(dirs, fs, spans) && s.key in dirs && Truthful(dirs[s.key], s, p)
    requires s.key in spans ==> Near(p, spans[s.key].to)
    ensures Step(fs, s).Some? == Ideal(spans, s, p).Some?
    ensures Step(fs, s).Some? ==> Matches(dirs, Step(fs, s).value, Ideal(spans, s, p).value)
  {
    var d := dirs[s.key];
    var f := if s.key in fs then fs[s.key] else Flow(s.number, []);
    var a := if s.key in spans then spans[s.key] else Span(p, p);
    TakeReaches(d, f, a, s, p);
  }

  /** Reassembly returns normally exactly when no segment skipped ahead, and then
      each direction holds exactly the bytes of a contiguous slice of its stream,
      over any number of wraps, SYN and FIN each taking one number. */
  lemma {:induction false} ReassemblyExact(dirs: map<Key, Direction>, ss: seq<Segment>, ps: seq<nat>)
    requires |ss| == |ps| && Faithful(dirs, ss, ps)
    ensures Fold(ss).Some? == IdealFold(ss, ps).Some?
    ensures Fold(ss).Some? ==> Matches(dirs, Fold(ss).value, IdealFold(ss, ps).value)
  {
    if ss != [] {
      var n := |ss| - 1;
      ReassemblyExact(dirs, ss[..n], ps[..n]);
      if Fold(ss[..n]).Some? {
        StepMatches(dirs, Fold(ss[..n]).value, IdealFold(ss[..n], ps[..n]).value, ss[n], ps[n]);
      }
    }
  }

  /** The window is tight on both sides: one position further, an old duplicate is
      taken for a gap, and a gap for an old duplicate. */
  lemma WindowTight(isn: nat, to: nat)
    ensures to > HALF ==>
              var delta := ((isn + (to - HALF - 1)) % WRAP - (isn + to) % WRAP) % WRAP; 0 < delta < HALF
    ensures var delta := ((isn + (to + HALF)) % WRAP - (isn + to) % WRAP) % WRAP; delta >= HALF
  {
    var y := (isn + to) % WRAP;
    Advance(isn, to, HALF);
    if to > HALF { Advance(isn, to - HALF - 1, HALF + 1); }
  }
}
