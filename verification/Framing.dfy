/** Incremental framing over a byte stream, for any framer whose decision on a
    buffer does not change when more bytes arrive. */
module Framing {

  type byte = x: int | 0 <= x < 256

  /** What a framer says about the front of its buffer: wait, take a record of
      `used` bytes, skip `used` malformed bytes, or give up on the stream. */
  datatype Verdict<+R> = More | Emit(rec: R, used: nat) | Skip(used: nat) | Corrupt

  /** Records taken, bytes kept, malformed frames counted, stream dead. */
  datatype Drained<+R> = Drained(out: seq<R>, rest: seq<byte>, bad: nat, corrupt: bool)

  /** Apply the framer until it waits or gives up. */
  function Drain<R>(next: seq<byte> -> Verdict<R>, b: seq<byte>): Drained<R>
    decreases |b|
  {
    match next(b)
    case More => Drained([], b, 0, false)
    case Corrupt => Drained([], [], 0, true)
    case Emit(r, used) =>
      if 0 < used <= |b| then
        var d := Drain(next, b[used..]);
        Drained([r] + d.out, d.rest, d.bad, d.corrupt)
      else Drained([], b, 0, false)
    case Skip(used) =>
      if 0 < used <= |b| then
        var d := Drain(next, b[used..]);
        Drained(d.out, d.rest, d.bad + 1, d.corrupt)
      else Drained([], b, 0, false)
  }

  /** A verdict other than `More` is final, and takes bytes that are there. */
  ghost predicate Stable<R(!new)>(next: seq<byte> -> Verdict<R>) {
    && (forall b, c :: !next(b).More? ==> next(b + c) == next(b))
    && (forall b :: (next(b).Emit? ==> 0 < next(b).used <= |b|) && (next(b).Skip? ==> 0 < next(b).used <= |b|))
  }

  function Then<R>(a: Drained<R>, b: Drained<R>): Drained<R> {
    Drained(a.out + b.out, b.rest, a.bad + b.bad, b.corrupt)
  }

  /** What the front of the buffer contributes by itself. */
  function First<R>(v: Verdict<R>): Drained<R>
    requires v.Emit? || v.Skip?
  {
    if v.Emit? then Drained([v.rec], [], 0, false) else Drained([], [], 1, false)
  }

  lemma DrainStep<R>(next: seq<byte> -> Verdict<R>, b: seq<byte>)
    requires next(b).Emit? || next(b).Skip?
    requires 0 < next(b).used <= |b|
    ensures Drain(next, b) == Then(First(next(b)), Drain(next, b[next(b).used..]))
  {
    assert [] + Drain(next, b[next(b).used..]).out == Drain(next, b[next(b).used..]).out;
  }

  lemma ThenAssociates<R>(a: Drained<R>, b: Drained<R>, c: Drained<R>)
    ensures Then(a, Then(b, c)) == Then(Then(a, b), c)
  {
    assert a.out + (b.out + c.out) == (a.out + b.out) + c.out;
  }

  /** Draining in two goes is draining at once. */
  lemma {:induction false} DrainSplit<R(!new)>(next: seq<byte> -> Verdict<R>, a: seq<byte>, b: seq<byte>)
    requires Stable(next)
    ensures Drain(next, a + b) == if Drain(next, a).corrupt then Drain(next, a)
                                  else Then(Drain(next, a), Drain(next, Drain(next, a).rest + b))
    decreases |a|
  {
    if next(a).Emit? || next(a).Skip? {
      var rest := a[next(a).used..];
      assert next(a + b) == next(a);
      assert (a + b)[next(a).used..] == rest + b;
      DrainStep(next, a);
      DrainStep(next, a + b);
      DrainSplit(next, rest, b);
      if !Drain(next, rest).corrupt {
        ThenAssociates(First(next(a)), Drain(next, rest), Drain(next, Drain(next, rest).rest + b));
      }
    }
  }

  /** A framer fed chunk by chunk; a dead stream swallows what follows. */
  function FeedAll<R>(next: seq<byte> -> Verdict<R>, chunks: seq<seq<byte>>): Drained<R> {
    if chunks == [] then Drained([], [], 0, false)
    else
      var d := FeedAll(next, chunks[..|chunks| - 1]);
      if d.corrupt then d else Then(d, Drain(next, d.rest + chunks[|chunks| - 1]))
  }

  function Concat(chunks: seq<seq<byte>>): seq<byte> {
    if chunks == [] then [] else Concat(chunks[..|chunks| - 1]) + chunks[|chunks| - 1]
  }

  /** The records, the bytes left over, the malformed count and the corrupt flag
      depend only on the bytes, never on how they were split. */
  lemma {:induction false} ChunkIndependent<R(!new)>(next: seq<byte> -> Verdict<R>, chunks: seq<seq<byte>>)
    requires Stable(next) && next([]).More?
    ensures FeedAll(next, chunks) == Drain(next, Concat(chunks))
  {
    if chunks != [] {
      var front := chunks[..|chunks| - 1];
      ChunkIndependent(next, front);
      DrainSplit(next, Concat(front), chunks[|chunks| - 1]);
    }
  }

  // --- streams made of whole records ------------------------------------------------

  /** `bytes` is how `r` goes on the wire: recognised whole whatever follows, and
      waited for while any of it is missing. */
  ghost predicate Framed<R(!new)>(next: seq<byte> -> Verdict<R>, r: R, bytes: seq<byte>) {
    && (forall t :: next(bytes + t) == Emit(r, |bytes|))
    && (forall k :: 0 <= k < |bytes| ==> next(bytes[..k]).More?)
  }

  function Joined(encs: seq<seq<byte>>): seq<byte> {
    if encs == [] then [] else encs[0] + Joined(encs[1..])
  }

  /** Any prefix `x` of a stream of whole records yields a prefix of the records,
      nothing malformed, and keeps exactly the start of the next one. */
  lemma {:induction false} DrainPrefix<R(!new)>(next: seq<byte> -> Verdict<R>, recs: seq<R>, encs: seq<seq<byte>>,
    x: seq<byte>, y: seq<byte>)
    returns (j: nat)
    requires |recs| == |encs| && next([]).More?
    requires forall i :: 0 <= i < |recs| ==> encs[i] != [] && Framed(next, recs[i], encs[i])
    requires x + y == Joined(encs)
    ensures j <= |recs|
    ensures Drain(next, x) == Drained(recs[..j], Drain(next, x).rest, 0, false)
    ensures Drain(next, x).rest + y == Joined(encs[j..])
    ensures j < |recs| ==> |Drain(next, x).rest| < |encs[j]|
    ensures y == [] ==> j == |recs|
    decreases |recs|
  {
    if recs == [] {
      j := 0;
      assert x == [];
    } else if |x| < |encs[0]| {
      j := 0;
      assert encs[0][..|x|] == (x + y)[..|x|] == x;
    } else {
      var n := |encs[0]|;
      assert x[..n] == (x + y)[..n] == encs[0];
      assert x == encs[0] + x[n..];
      assert x[n..] + y == (x + y)[n..] == Joined(encs[1..]);
      var k := DrainPrefix(next, recs[1..], encs[1..], x[n..], y);
      j := k + 1;
      assert [recs[0]] + recs[1..][..k] == recs[..j];
      assert encs[1..][k..] == encs[j..];
    }
  }
}

/** The three framers of the repository. */
module Framers {
  import opened Framing

  function U16(hi: byte, lo: byte): nat {
    hi * 256 + lo
  }

  // --- feed-handler / database records -------------------------------------------

  const HEADER: nat := 8

  datatype Raw = Raw(kind: byte, body: seq<byte>)

  /** Fixed body size of a record kind; none for an unknown kind. */
  function BodyLen(kind: byte): int {
    if kind == 'U' as int then 429
    else if kind == 'O' as int || kind == 'E' as int then 26
    else if kind == 'K' as int then 12
    else if kind == 'H' as int then 16
    else if kind == 'B' as int || kind == 'G' as int || kind == 'R' as int then 0
    else -1
  }

  /** Each body is as long as its fields: the six sections of an update (envelope,
      static, state, book of ten levels a side, trades, delta), an order row, a tick
      row, a resume point, and the end mark's session and position. */
  lemma BodyLengths()
    ensures BodyLen('U' as int) ==
            (8 + 8 + 10 + 8 + 8 + 1 + 4 + 4) + (12 + 4 + 4 + 1 + 4 + 4 + 1) + (1 + 1 + 4 + 1 + 4)
            + (1 + 1 + 2 * 10 * (4 + 4 + 4) + 8 + 8 + 4 + 4) + (4 + 4 + 8 + 8 + 8 + 8 + 4)
            + (1 + 8 + 8 + 1 + 4 + 4 + 1)
    ensures BodyLen('O' as int) == 8 + 4 + 4 + 1 + 4 + 4 + 1 && BodyLen('K' as int) == 4 + 4 + 4
    ensures BodyLen('H' as int) == 8 + 8 && BodyLen('E' as int) == 10 + 8 + 8
    ensures BodyLen('B' as int) == BodyLen('G' as int) == BodyLen('R' as int) == 0
  {
  }

  /** Magic "JX", version 2, a known kind, and that kind's own length. */
  predicate GoodHeader(b: seq<byte>)
    requires |b| >= HEADER
  {
    U16(b[0], b[1]) == 0x4A58 && b[2] == 2 && BodyLen(b[3]) >= 0 && U16(b[4], b[5]) == BodyLen(b[3])
  }

  function RecordNext(b: seq<byte>): Verdict<Raw> {
    if |b| < HEADER then More
    else if !GoodHeader(b) then Corrupt
    else
      var total := HEADER + U16(b[4], b[5]);
      if |b| < total then More else Emit(Raw(b[3], b[HEADER..total]), total)
  }

  lemma RecordStable()
    ensures Stable(RecordNext)
  {
    forall b, c | !RecordNext(b).More?
      ensures RecordNext(b + c) == RecordNext(b)
    {
      if GoodHeader(b) {
        var total := HEADER + U16(b[4], b[5]);
        assert (b + c)[HEADER..total] == b[HEADER..total];
      }
    }
  }

  /** A record on the wire: header with a zero reserved field, then the body. */
  function RecordBytes(r: Raw): seq<byte>
    requires BodyLen(r.kind) == |r.body|
  {
    [0x4A, 0x58, 2, r.kind, |r.body| / 256, |r.body| % 256, 0, 0] + r.body
  }

  lemma RecordFramed(r: Raw)
    requires BodyLen(r.kind) == |r.body|
    ensures Framed(RecordNext, r, RecordBytes(r))
  {
    var b := RecordBytes(r);
    forall t
      ensures RecordNext(b + t) == Emit(r, |b|)
    {
      assert (b + t)[HEADER..|b|] == r.body;
    }
    forall k | 0 <= k < |b|
      ensures RecordNext(b[..k]).More?
    {
      if k >= HEADER { assert U16(b[..k][4], b[..k][5]) == |r.body|; }
    }
  }

  /** The bytes start with the header of a record; the reserved field is not read. */
  predicate Headed(b: seq<byte>) {
    && |b| >= 8 && BodyLen(b[3]) >= 0
    && b[..6] == [0x4A, 0x58, 2, b[3], BodyLen(b[3]) / 256, BodyLen(b[3]) % 256]
  }

  /** The bytes are those records, header and body, one after the other, and then a
      record still incomplete or, in a dead stream, a bad header. */
  ghost predicate RecordsOf(b: seq<byte>, out: seq<Raw>, rest: seq<byte>, corrupt: bool)
    decreases |out|
  {
    if out == [] then
      if corrupt then |b| >= 8 && !Headed(b) && rest == []
      else rest == b && (|b| < 8 || (Headed(b) && |b| < 8 + BodyLen(b[3])))
    else
      var n := |out[0].body|;
      && Headed(b) && |b| >= 8 + n && n == BodyLen(b[3]) && out[0] == Raw(b[3], b[8..8 + n])
      && RecordsOf(b[8 + n..], out[1..], rest, corrupt)
  }

  lemma GoodHeaded(b: seq<byte>)
    requires |b| >= 8
    ensures GoodHeader(b) <==> Headed(b)
  {
    var n := BodyLen(b[3]);
    assert n >= 0 ==> U16(n / 256, n % 256) == n;
    assert b[..6] == [b[0], b[1], b[2], b[3], b[4], b[5]];
  }

  /** Whatever the bytes, good or bad. */
  lemma {:induction false} RecordsExact(b: seq<byte>)
    ensures var d := Drain(RecordNext, b); RecordsOf(b, d.out, d.rest, d.corrupt) && d.bad == 0
    decreases |b|
  {
    if |b| >= 8 {
      GoodHeaded(b);
      if RecordNext(b).Emit? {
        RecordsExact(b[RecordNext(b).used..]);
        var d := Drain(RecordNext, b);
        assert d.out[1..] == Drain(RecordNext, b[RecordNext(b).used..]).out;
      }
    }
  }

  /** Malformed or not, the records and the corrupt flag depend only on the bytes. */
  lemma RecordChunks(chunks: seq<seq<byte>>)
    ensures FeedAll(RecordNext, chunks) == Drain(RecordNext, Concat(chunks))
  {
    RecordStable();
    ChunkIndependent(RecordNext, chunks);
  }

  /** A connection cut anywhere, mid-record included, has delivered a prefix of the
      records written to it and never looks corrupt. */
  lemma TornRecords(recs: seq<Raw>, es: seq<seq<byte>>, chunks: seq<seq<byte>>, lost: seq<byte>) returns (j: nat)
    requires |recs| == |es|
    requires forall i :: 0 <= i < |recs| ==> BodyLen(recs[i].kind) == |recs[i].body| && es[i] == RecordBytes(recs[i])
    requires Concat(chunks) + lost == Joined(es)
    ensures j <= |recs| && (lost == [] ==> j == |recs|)
    ensures var d := FeedAll(RecordNext, chunks); d.out == recs[..j] && !d.corrupt && d.rest + lost == Joined(es[j..])
  {
    RecordChunks(chunks);
    forall i | 0 <= i < |recs|
      ensures es[i] != [] && Framed(RecordNext, recs[i], es[i])
    {
      RecordFramed(recs[i]);
    }
    j := DrainPrefix(RecordNext, recs, es, Concat(chunks), lost);
  }

  /** The record stream, updated in place. */
  class RecordFramer {
    var buf: seq<byte>
    var corrupt: bool

    constructor ()
      ensures buf == [] && !corrupt
    {
      buf, corrupt := [], false;
    }

    method Feed(data: seq<byte>)
      modifies this
      ensures corrupt == old(corrupt) && buf == if corrupt then old(buf) else old(buf) + data
    {
      if !corrupt { buf := buf + data; }
    }

    /** One record, or none: the buffer is exhausted, or the stream is dead. */
    method Next() returns (r: Verdict<Raw>)
      requires corrupt ==> buf == []
      modifies this
      ensures corrupt ==> buf == []
      ensures !old(corrupt) ==> r == RecordNext(old(buf)) && corrupt == r.Corrupt?
      ensures !old(corrupt) && r.Emit? ==> r.used <= |old(buf)| && buf == old(buf)[r.used..]
      ensures !old(corrupt) && r.More? ==> buf == old(buf)
      ensures old(corrupt) ==> r.More? && corrupt
    {
      if corrupt || |buf| < HEADER { return More; }
      if !GoodHeader(buf) {
        corrupt, buf := true, [];
        return Corrupt;
      }
      var total := HEADER + U16(buf[4], buf[5]);
      if |buf| < total { return More; }
      r := Emit(Raw(buf[3], buf[HEADER..total]), total);
      buf := buf[total..];
    }

    /** The read loop of the ingest connection: feed a chunk, take every record. */
    method FeedAndDrain(data: seq<byte>) returns (out: seq<Raw>)
      requires corrupt ==> buf == []
      modifies this
      ensures corrupt ==> buf == []
      ensures !old(corrupt) ==>
                var d := Drain(RecordNext, old(buf) + data);
                out == d.out && buf == d.rest && corrupt == d.corrupt && d.bad == 0
      ensures old(corrupt) ==> out == [] && corrupt
    {
      Feed(data);
      out := [];
      ghost var start := buf;
      if corrupt { return; }
      while true
        invariant !corrupt
        invariant Drain(RecordNext, start) == Then(Drained(out, [], 0, false), Drain(RecordNext, buf))
        decreases |buf|
      {
        ghost var before := buf;
        var r := Next();
        if !r.Emit? {
          assert Drain(RecordNext, before) == Drained([], buf, 0, corrupt);
          assert out + [] == out;
          return;
        }
        assert RecordNext(before) == r;
        DrainStep(RecordNext, before);
        ThenAssociates(Drained(out, [], 0, false), First(r), Drain(RecordNext, buf));
        out := out + [r.rec];
      }
    }
  }

  // --- SoupBinTCP ------------------------------------------------------------------

  datatype Packet = Packet(kind: byte, payload: seq<byte>)

  /** A zero length is malformed: its prefix is skipped and counted. */
  function SoupNext(b: seq<byte>): Verdict<Packet> {
    if |b| < 2 then More
    else
      var n := U16(b[0], b[1]);
      if n == 0 then Skip(2)
      else if |b| < 2 + n then More
      else Emit(Packet(b[2], b[3..2 + n]), 2 + n)
  }

  lemma SoupStable()
    ensures Stable(SoupNext)
  {
    forall b, c | !SoupNext(b).More?
      ensures SoupNext(b + c) == SoupNext(b)
    {
      var n := U16(b[0], b[1]);
      if n > 0 { assert (b + c)[3..2 + n] == b[3..2 + n]; }
    }
  }

  function SoupBytes(p: Packet): seq<byte>
    requires |p.payload| < 65535
  {
    var n := 1 + |p.payload|;
    [n / 256, n % 256, p.kind] + p.payload
  }

  lemma SoupFramed(p: Packet)
    requires |p.payload| < 65535
    ensures Framed(SoupNext, p, SoupBytes(p))
  {
    var b := SoupBytes(p);
    var n := 1 + |p.payload|;
    assert U16(n / 256, n % 256) == n;
    forall t
      ensures SoupNext(b + t) == Emit(p, |b|)
    {
      assert U16((b + t)[0], (b + t)[1]) == n;
      assert (b + t)[3..2 + n] == p.payload;
    }
    forall k | 0 <= k < |b|
      ensures SoupNext(b[..k]).More?
    {
      if k >= 2 { assert U16(b[..k][0], b[..k][1]) == n; }
    }
  }

  /** The bytes are those packets in order, with `bad` zero lengths between them, and
      then a packet still incomplete. */
  ghost predicate PacketsOf(b: seq<byte>, out: seq<Packet>, rest: seq<byte>, bad: nat)
    decreases |b|
  {
    if |b| >= 2 && b[0] == b[1] == 0 then bad > 0 && PacketsOf(b[2..], out, rest, bad - 1)
    else if out == [] then bad == 0 && rest == b && (|b| < 2 || |b| < 2 + b[0] as int * 256 + b[1] as int)
    else
      && |out[0].payload| < 65535 && SoupBytes(out[0]) <= b
      && PacketsOf(b[|SoupBytes(out[0])|..], out[1..], rest, bad)
  }

  /** Whatever the bytes. */
  lemma {:induction false} PacketsExact(b: seq<byte>)
    ensures var d := Drain(SoupNext, b); PacketsOf(b, d.out, d.rest, d.bad) && !d.corrupt
    decreases |b|
  {
    var v := SoupNext(b);
    if v.Skip? {
      PacketsExact(b[2..]);
    } else if v.Emit? {
      var d := Drain(SoupNext, b);
      PacketsExact(b[v.used..]);
      assert d.out[1..] == Drain(SoupNext, b[v.used..]).out;
      EmitBytes(b);
    }
  }

  lemma EmitBytes(b: seq<byte>)
    requires SoupNext(b).Emit?
    ensures var v := SoupNext(b); |v.rec.payload| < 65535 && |b| >= v.used && SoupBytes(v.rec) == b[..v.used]
  {
    var n := U16(b[0], b[1]);
    assert n / 256 == b[0] && n % 256 == b[1];
    assert b[..2 + n] == [b[0], b[1], b[2]] + b[3..2 + n];
  }

  /** Malformed or not, the packets and the bad-frame count depend only on the bytes. */
  lemma SoupChunks(chunks: seq<seq<byte>>)
    ensures FeedAll(SoupNext, chunks) == Drain(SoupNext, Concat(chunks))
  {
    SoupStable();
    ChunkIndependent(SoupNext, chunks);
  }

  class SoupFramer {
    var buf: seq<byte>
    var badFrames: nat

    constructor ()
      ensures buf == [] && badFrames == 0
    {
      buf, badFrames := [], 0;
    }

    /** The scan loop: malformed prefixes are skipped until a packet is whole. */
    method Next() returns (p: Verdict<Packet>)
      modifies this
      ensures badFrames >= old(badFrames) && (p.Emit? ==> |buf| < |old(buf)|)
      ensures p.More? || p.Emit?
      ensures p.More? ==> Drain(SoupNext, old(buf)) == Drained([], buf, badFrames - old(badFrames), false)
      ensures p.Emit? ==>
                Drain(SoupNext, old(buf)) ==
                Then(Drained([p.rec], [], badFrames - old(badFrames), false), Drain(SoupNext, buf))
    {
      while true
        invariant badFrames >= old(badFrames) && |buf| <= |old(buf)|
        invariant Drain(SoupNext, old(buf))
                    == Then(Drained([], [], badFrames - old(badFrames), false), Drain(SoupNext, buf))
        decreases |buf|
      {
        if |buf| < 2 { return More; }
        var n := U16(buf[0], buf[1]);
        if n > 0 && |buf| < 2 + n { return More; }
        DrainStep(SoupNext, buf);
        ThenAssociates(Drained([], [], badFrames - old(badFrames), false), First(SoupNext(buf)),
          Drain(SoupNext, buf[SoupNext(buf).used..]));
        if n == 0 {
          badFrames := badFrames + 1;
          buf := buf[2..];
        } else {
          p := Emit(Packet(buf[2], buf[3..2 + n]), 2 + n);
          buf := buf[2 + n..];
          return;
        }
      }
    }
  }
}
