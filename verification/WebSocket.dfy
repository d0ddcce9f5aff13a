/** WebSocket frames as sections 5.2 and 5.3 of RFC 6455 lay them out. */
module WebSocket {
  import opened Framing
  import BigEndian

  /** `fin` marks an unfragmented frame. */
  datatype Frame = Frame(fin: bool, opcode: nat, payload: seq<byte>)

  // --- masking ----------------------------------------------------------------------

  function Pow2(n: nat): nat {
    if n == 0 then 1 else 2 * Pow2(n - 1)
  }

  /** Exclusive or of the low `n` bits. */
  function XorBits(a: nat, k: nat, n: nat): (x: nat)
    ensures x < Pow2(n)
  {
    if n == 0 then 0 else 2 * XorBits(a / 2, k / 2, n - 1) + (a % 2 + k % 2) % 2
  }

  lemma Halves(high: nat, low: nat)
    requires low < 2
    ensures (2 * high + low) / 2 == high && (2 * high + low) % 2 == low
  {
  }

  lemma {:induction false} XorTwice(a: nat, k: nat, n: nat)
    requires a < Pow2(n)
    ensures XorBits(XorBits(a, k, n), k, n) == a
  {
    if n > 0 {
      var high, low := XorBits(a / 2, k / 2, n - 1), (a % 2 + k % 2) % 2;
      HalfBelow(a, n);
      XorTwice(a / 2, k / 2, n - 1);
      XorNext(high, low, k, n);
      BitTwice(a % 2, k % 2);
    }
  }

  lemma HalfBelow(a: nat, n: nat)
    requires n > 0 && a < Pow2(n)
    ensures a / 2 < Pow2(n - 1)
  {
  }

  lemma XorNext(high: nat, low: nat, k: nat, n: nat)
    requires low < 2 && n > 0
    ensures XorBits(2 * high + low, k, n) == 2 * XorBits(high, k / 2, n - 1) + (low + k % 2) % 2
  {
    Halves(high, low);
  }

  lemma BitTwice(a: nat, k: nat)
    requires a < 2 && k < 2
    ensures ((a + k) % 2 + k) % 2 == a
  {
  }

  lemma ByteBits()
    ensures Pow2(8) == 256
  {
    assert Pow2(4) == 16;
  }

  function Xor(a: byte, k: byte): byte {
    ByteBits();
    XorBits(a, k, 8)
  }

  function Mask(s: seq<byte>, key: seq<byte>): seq<byte>
    requires |key| == 4
  {
    seq(|s|, i requires 0 <= i < |s| => Xor(s[i], key[i % 4]))
  }

  lemma MaskTwice(s: seq<byte>, key: seq<byte>)
    requires |key| == 4
    ensures Mask(Mask(s, key), key) == s
  {
    ByteBits();
    forall i | 0 <= i < |s|
      ensures Mask(Mask(s, key), key)[i] == s[i]
    {
      XorTwice(s[i], key[i % 4], 8);
    }
  }

  // --- masking, bit by bit ----------------------------------------------------------------

  /** Bit `j` of a number: its binary digit of weight `2^j`. */
  function Bit(x: nat, j: nat): nat {
    PowPositive(j);
    x / Pow2(j) % 2
  }

  lemma {:induction false} PowPositive(j: nat)
    ensures Pow2(j) > 0
  {
    if j > 0 { PowPositive(j - 1); }
  }

  /** The same digit, by halving. */
  function Halved(x: nat, j: nat): (b: nat)
    ensures b < 2
  {
    if j == 0 then x % 2 else Halved(x / 2, j - 1)
  }

  lemma {:induction false} BitHalved(x: nat, j: nat)
    ensures Bit(x, j) == Halved(x, j)
  {
    PowPositive(j);
    if j > 0 {
      BitHalved(x / 2, j - 1);
      BigEndian.DivideTwice(x, 2, Pow2(j - 1));
    }
  }

  lemma {:induction false} XorHalved(a: nat, k: nat, n: nat, j: nat)
    requires j < n
    ensures Halved(XorBits(a, k, n), j) == (Halved(a, j) + Halved(k, j)) % 2
  {
    var high, low := XorBits(a / 2, k / 2, n - 1), (a % 2 + k % 2) % 2;
    Halves(high, low);
    if j > 0 {
      XorHalved(a / 2, k / 2, n - 1, j - 1);
    }
  }

  lemma XorBit(a: nat, k: nat, n: nat, j: nat)
    requires j < n
    ensures Bit(XorBits(a, k, n), j) != Bit(a, j) <==> Bit(k, j) == 1
  {
    XorHalved(a, k, n, j);
    BitHalved(a, j);
    BitHalved(k, j);
    BitHalved(XorBits(a, k, n), j);
  }

  /** Octet `i` of a masked text differs from the text's in exactly the bits that octet
      `i` modulo 4 of the key has set. */
  lemma MaskBits(s: seq<byte>, key: seq<byte>, i: nat, j: nat)
    requires |key| == 4 && i < |s| && j < 8
    ensures |Mask(s, key)| == |s|
    ensures Bit(Mask(s, key)[i], j) != Bit(s[i], j) <==> Bit(key[i % 4], j) == 1
  {
    XorBit(s[i], key[i % 4], 8, j);
  }

  /** A payload against the raw octets and the key, bit by bit. */
  ghost predicate Unmasked(payload: seq<byte>, raw: seq<byte>, key: seq<byte>) {
    && |payload| == |raw| && |key| == 4
    && forall i, j :: 0 <= i < |raw| && 0 <= j < 8 ==>
         (Bit(payload[i], j) != Bit(raw[i], j) <==> Bit(key[i % 4], j) == 1)
  }

  lemma MaskUnmasks(raw: seq<byte>, key: seq<byte>)
    requires |key| == 4
    ensures Unmasked(Mask(raw, key), raw, key)
  {
    forall i, j | 0 <= i < |raw| && 0 <= j < 8
      ensures Bit(Mask(raw, key)[i], j) != Bit(raw[i], j) <==> Bit(key[i % 4], j) == 1
    {
      MaskBits(raw, key, i, j);
    }
  }

  // --- frames -------------------------------------------------------------------------

  /** Second header byte of a masked frame, and the extended length if any. */
  function LengthBytes(n: nat): seq<byte>
    requires n < BigEndian.Pow256(8)
  {
    if n < 126 then [128 + n]
    else if n < 65536 then [254] + BigEndian.Put(n, 2)
    else [255] + BigEndian.Put(n, 8)
  }

  /** A masked, final client frame. */
  function ClientFrame(opcode: nat, payload: seq<byte>, key: seq<byte>): seq<byte>
    requires |key| == 4 && |payload| < BigEndian.Pow256(8)
  {
    [128 + opcode % 16] + LengthBytes(|payload|) + key + Mask(payload, key)
  }

  /** Width of the extended length field. */
  function Extended(second: byte): nat {
    if second % 128 == 126 then 2 else if second % 128 == 127 then 8 else 0
  }

  function PayloadLength(b: seq<byte>): nat
    requires |b| >= 2 && |b| >= 2 + Extended(b[1])
  {
    if Extended(b[1]) == 0 then b[1] % 128 else BigEndian.Get(b[2..2 + Extended(b[1])])
  }

  /** One frame off the front: reserved bits or a missing mask end the stream. */
  function WsNext(b: seq<byte>): Verdict<Frame> {
    if |b| < 2 then More
    else if b[0] / 16 % 8 != 0 then Corrupt
    else if |b| < 2 + Extended(b[1]) then More
    else if b[1] < 128 then Corrupt
    else
      var at := 2 + Extended(b[1]);
      if |b| < at + 4 then More
      else
        var end := at + 4 + PayloadLength(b);
        if |b| < end then More
        else Emit(Frame(b[0] >= 128, b[0] % 16, Mask(b[at + 4..end], b[at..at + 4])), end)
  }

  /** What the parser reads of a buffer it does not wait on is the same in any
      buffer that starts alike up to there. */
  lemma SameFront(b: seq<byte>, c: seq<byte>)
    requires |b| >= 2 && |b| >= 2 + Extended(b[1]) && b <= c
    ensures PayloadLength(c) == PayloadLength(b)
  {
    assert c[2..2 + Extended(b[1])] == b[2..2 + Extended(b[1])];
  }

  lemma WsExtends(b: seq<byte>, c: seq<byte>)
    requires !WsNext(b).More? && b <= c
    ensures WsNext(c) == WsNext(b)
  {
    assert c[0] == b[0] && c[1] == b[1];
    if WsNext(b).Emit? {
      SameFront(b, c);
      var at := 2 + Extended(b[1]);
      var end := at + 4 + PayloadLength(b);
      assert c[at..at + 4] == b[at..at + 4] && c[at + 4..end] == b[at + 4..end];
    }
  }

  lemma WsStable()
    ensures Stable(WsNext)
  {
    forall b, c | !WsNext(b).More?
      ensures WsNext(b + c) == WsNext(b)
    {
      WsExtends(b, b + c);
    }
  }

  /** The bytes of a frame are enough to see it. */
  lemma WsTight(b: seq<byte>)
    requires WsNext(b).Emit?
    ensures 0 < WsNext(b).used <= |b| && WsNext(b[..WsNext(b).used]) == WsNext(b)
  {
    var used := WsNext(b).used;
    var f := b[..used];
    assert f[0] == b[0] && f[1] == b[1];
    SameFront(f, b);
    var at := 2 + Extended(b[1]);
    assert f[at..at + 4] == b[at..at + 4] && f[at + 4..used] == b[at + 4..used];
  }

  /** The header of a client frame says where its payload lies. */
  lemma HeaderReads(opcode: nat, payload: seq<byte>, key: seq<byte>)
    requires |key| == 4 && |payload| < BigEndian.Pow256(8)
    ensures var f, n := ClientFrame(opcode, payload, key), |payload|;
            && |f| >= 2 && f[1] >= 128 && |f| == 2 + Extended(f[1]) + 4 + n && PayloadLength(f) == n
            && f[2 + Extended(f[1])..6 + Extended(f[1])] == key && f[6 + Extended(f[1])..] == Mask(payload, key)
  {
    var f, n := ClientFrame(opcode, payload, key), |payload|;
    var l := LengthBytes(n);
    assert f[1] == l[0];
    var at := 1 + |l|;
    assert f[at..at + 4] == key && f[at + 4..] == Mask(payload, key);
    if n >= 126 {
      assert f[2..at] == l[1..];
      assert BigEndian.Pow256(2) == 65536;
      BigEndian.GetPut(n, |l| - 1);
    }
  }

  /** In all three length encodings: the frame is read back whole whatever
      follows, and waited for while any of it is missing. */
  lemma FrameRoundTrip(opcode: nat, payload: seq<byte>, key: seq<byte>)
    requires |key| == 4 && |payload| < BigEndian.Pow256(8)
    ensures Framed(WsNext, Frame(true, opcode % 16, payload), ClientFrame(opcode, payload, key))
  {
    var f := ClientFrame(opcode, payload, key);
    var r := Frame(true, opcode % 16, payload);
    HeaderReads(opcode, payload, key);
    MaskTwice(payload, key);
    assert f[6 + Extended(f[1])..|f|] == Mask(payload, key);
    assert WsNext(f) == Emit(r, |f|);
    forall t
      ensures WsNext(f + t) == Emit(r, |f|)
    {
      WsExtends(f, f + t);
    }
    forall k | 0 <= k < |f|
      ensures WsNext(f[..k]).More?
    {
      PrefixWaits(f, k);
    }
  }

  lemma PrefixWaits(f: seq<byte>, k: nat)
    requires WsNext(f).Emit? && WsNext(f).used == |f| && k < |f|
    ensures WsNext(f[..k]).More?
  {
    var g := f[..k];
    if k >= 2 {
      assert g[0] == f[0] && g[1] == f[1];
      if k >= 2 + Extended(f[1]) { SameFront(g, f); }
    }
  }

  /** Where the mask key of a frame starts, by its second octet. */
  function KeyAt(second: byte): nat {
    if second == 254 then 4 else if second == 255 then 10 else 2
  }

  /** The payload length a frame announces, octet by octet in network order. */
  ghost predicate Announces(b: seq<byte>, n: nat)
    requires |b| >= 2 && |b| >= KeyAt(b[1])
  {
    if b[1] == 254 then n < 0x1_0000 && b[2] == n / 0x100 && b[3] == n % 0x100
    else if b[1] == 255 then
      n < BigEndian.Pow256(8) && forall i :: 2 <= i < 10 ==> b[i] == BigEndian.Octet(n, 9 - i)
    else b[1] == 128 + n
  }

  lemma ShortField(b: seq<byte>)
    requires |b| >= 4
    ensures var n := BigEndian.Get(b[2..4]); n < 0x1_0000 && b[2] == n / 0x100 && b[3] == n % 0x100
  {
    var field := b[2..4];
    assert BigEndian.Get(field[..1]) == b[2] by { assert field[..1][..0] == []; }
  }

  lemma LongField(b: seq<byte>)
    requires |b| >= 10
    ensures var n := BigEndian.Get(b[2..10]);
            n < BigEndian.Pow256(8) && forall i :: 2 <= i < 10 ==> b[i] == BigEndian.Octet(n, 9 - i)
  {
    var field := b[2..10];
    BigEndian.PutGet(field);
    forall i | 2 <= i < 10
      ensures b[i] == BigEndian.Octet(BigEndian.Get(field), 9 - i)
    {
      BigEndian.GetOctet(field, i - 2);
    }
  }

  lemma AnnouncedLength(b: seq<byte>)
    requires |b| >= 2 && b[1] >= 128 && |b| >= 2 + Extended(b[1])
    ensures |b| >= KeyAt(b[1]) == 2 + Extended(b[1]) && Announces(b, PayloadLength(b))
  {
    if b[1] == 254 { ShortField(b); } else if b[1] == 255 { LongField(b); }
  }

  /** What a frame taken off the front says of the raw bytes: final and opcode bits, the
      announced length, and the payload unmasked bit by bit with the key in the frame. */
  lemma FrameOctets(b: seq<byte>)
    requires WsNext(b).Emit?
    ensures var f, used := WsNext(b).rec, WsNext(b).used;
            && |b| >= 2 && b[1] >= 128 && KeyAt(b[1]) + 4 + |f.payload| == used <= |b|
            && (f.fin <==> Bit(b[0], 7) == 1) && f.opcode == b[0] % 16
            && Bit(b[0], 6) == Bit(b[0], 5) == Bit(b[0], 4) == 0
            && Announces(b, |f.payload|)
            && Unmasked(f.payload, b[KeyAt(b[1]) + 4..used], b[KeyAt(b[1])..KeyAt(b[1]) + 4])
  {
    AnnouncedLength(b);
    HighBits(b[0]);
    MaskUnmasks(b[KeyAt(b[1]) + 4..WsNext(b).used], b[KeyAt(b[1])..KeyAt(b[1]) + 4]);
  }

  /** When no frame is taken: the bytes are refused exactly for a reserved bit, or, once
      the length is there, for a clear mask bit; and they are waited on only while the
      header, the key or the announced payload is incomplete. */
  lemma NoFrame(b: seq<byte>)
    ensures WsNext(b).Corrupt? <==>
            && |b| >= 2
            && (!(Bit(b[0], 6) == Bit(b[0], 5) == Bit(b[0], 4) == 0)
                || (|b| >= KeyAt(128 + b[1] % 128) && Bit(b[1], 7) == 0))
    ensures WsNext(b).More? && |b| >= 2 && |b| >= KeyAt(128 + b[1] % 128) + 4 ==>
              b[1] >= 128 && exists n: nat :: Announces(b, n) && |b| < KeyAt(b[1]) + 4 + n
  {
    if |b| >= 2 {
      HighBits(b[0]);
      HighBits(b[1]);
      if b[1] >= 128 && |b| >= 2 + Extended(b[1]) {
        assert 128 + b[1] % 128 == b[1];
        AnnouncedLength(b);
      }
    }
  }

  lemma HighBits(x: byte)
    ensures Bit(x, 7) == 1 <==> x >= 128
    ensures x / 16 % 8 == 0 <==> Bit(x, 6) == Bit(x, 5) == Bit(x, 4) == 0
  {
    assert Pow2(4) == 16 && Pow2(5) == 32 && Pow2(6) == 64 && Pow2(7) == 128;
  }

  // --- the receive loop -----------------------------------------------------------------

  const TEXT: nat := 1
  const CLOSE: nat := 8
  const PING: nat := 9
  const PONG: nat := 10

  /** A frame after which the server closes: a fragment, CLOSE, or an opcode it does
      not serve. */
  predicate Closes(f: Frame) {
    !f.fin || (f.opcode != TEXT && f.opcode != PING && f.opcode != PONG)
  }

  predicate SomeCloses(fs: seq<Frame>) {
    exists i :: 0 <= i < |fs| && Closes(fs[i])
  }

  /** One read: frames are taken until the parser waits or gives up, or a
      fragmented frame makes the loop return. */
  function Serve(b: seq<byte>): Drained<Frame>
    decreases |b|
  {
    match WsNext(b)
    case Emit(f, used) =>
      if 0 < used <= |b| then
        if !f.fin then Drained([f], b[used..], 0, false) else Then(Drained([f], [], 0, false), Serve(b[used..]))
      else Drained([], b, 0, false)
    case Corrupt => Drained([], [], 0, true)
    case _ => Drained([], b, 0, false)
  }

  /** One turn of the loop: the frame it takes moves from what is served to what was taken. */
  lemma {:induction false} ServeNext(frames: seq<Frame>, b: seq<byte>)
    ensures var v, d := WsNext(b), Then(Drained(frames, [], 0, false), Serve(b));
            && (v.Emit? ==> 0 < v.used <= |b|)
            && d == if v.Corrupt? then Drained(frames, [], 0, true)
                    else if !v.Emit? then Drained(frames, b, 0, false)
                    else if !v.rec.fin then Drained(frames + [v.rec], b[v.used..], 0, false)
                    else Then(Drained(frames + [v.rec], [], 0, false), Serve(b[v.used..]))
  {
    assert frames + [] == frames;
    if WsNext(b).Emit? {
      WsTight(b);
      var f, rest := WsNext(b).rec, Serve(b[WsNext(b).used..]);
      assert frames + ([f] + rest.out) == (frames + [f]) + rest.out;
    }
  }

  /** One read of the socket, and whether everything queued for sending went out
      before the next one. */
  datatype Read = Read(data: seq<byte>, flushed: bool)

  function Bytes(rs: seq<Read>): seq<byte> {
    if rs == [] then [] else rs[0].data + Bytes(rs[1..])
  }

  /** The frames taken over a connection, and whether it ended in a protocol error. */
  datatype Outcome = Outcome(frames: seq<Frame>, failed: bool)

  /** Reads one after the other.  A client that is closing is torn down by the
      flush of its close frame. */
  function Session(buf: seq<byte>, closing: bool, rs: seq<Read>): Outcome
    decreases |rs|
  {
    if rs == [] then Outcome([], false)
    else
      var d := Serve(buf + rs[0].data);
      var c := closing || SomeCloses(d.out);
      if d.corrupt then Outcome(d.out, true)
      else if c && rs[0].flushed then Outcome(d.out, false)
      else
        var rest := Session(d.rest, c, rs[1..]);
        Outcome(d.out + rest.frames, rest.failed)
  }

  function Whole(d: Drained<Frame>): Outcome {
    Outcome(d.out, d.corrupt)
  }

  /** No frame that starts closing is followed by anything. */
  predicate EndsCleanly(d: Drained<Frame>) {
    forall i :: 0 <= i < |d.out| && Closes(d.out[i]) ==> i == |d.out| - 1 && !d.corrupt
  }

  lemma {:induction false} ServeWhole(b: seq<byte>)
    requires EndsCleanly(Drain(WsNext, b))
    ensures Serve(b) == Drain(WsNext, b)
    decreases |b|
  {
    if WsNext(b).Emit? {
      WsTight(b);
      DrainStep(WsNext, b);
      var f, rest := WsNext(b).rec, b[WsNext(b).used..];
      var d, e := Drain(WsNext, b), Drain(WsNext, rest);
      assert d == Then(Drained([f], [], 0, false), e);
      AfterFirst(f, e);
      if f.fin {
        ServeWhole(rest);
      } else {
        assert d.out[0] == f;
        NothingLeft(rest);
      }
    }
  }

  lemma AfterFirst(f: Frame, e: Drained<Frame>)
    requires EndsCleanly(Then(Drained([f], [], 0, false), e))
    ensures EndsCleanly(e) && (Closes(f) ==> e.out == [] && !e.corrupt)
  {
    var d := Then(Drained([f], [], 0, false), e);
    assert d.out[0] == f;
    forall i | 0 <= i < |e.out| && Closes(e.out[i])
      ensures i == |e.out| - 1 && !e.corrupt
    {
      assert d.out[i + 1] == e.out[i];
    }
  }

  /** A buffer that yields nothing is kept as it is. */
  lemma NothingLeft(b: seq<byte>)
    requires Drain(WsNext, b).out == [] && !Drain(WsNext, b).corrupt
    ensures Drain(WsNext, b) == Drained([], b, 0, false) && WsNext(b).More?
  {
    if WsNext(b).Emit? { WsTight(b); }
  }

  /** What is kept yields nothing. */
  lemma {:induction false} RestWaits(b: seq<byte>)
    requires !Drain(WsNext, b).corrupt
    ensures WsNext(Drain(WsNext, b).rest).More?
    decreases |b|
  {
    if WsNext(b).Emit? {
      WsTight(b);
      RestWaits(b[WsNext(b).used..]);
    }
  }

  /** The part of a clean stream read first is clean, and if it starts closing then
      the rest yields nothing. */
  lemma FrontClean(d: Drained<Frame>, e: Drained<Frame>, all: Drained<Frame>)
    requires all == (if d.corrupt then d else Then(d, e)) && EndsCleanly(all)
    ensures EndsCleanly(d)
    ensures !d.corrupt ==> EndsCleanly(e) && (SomeCloses(d.out) ==> e.out == [] && !e.corrupt)
  {
    if !d.corrupt {
      forall i | 0 <= i < |d.out| && Closes(d.out[i])
        ensures i == |d.out| - 1 && e.out == [] && !e.corrupt
      {
        assert all.out[i] == d.out[i];
      }
      forall i | 0 <= i < |e.out| && Closes(e.out[i])
        ensures i == |e.out| - 1 && !e.corrupt
      {
        assert all.out[|d.out| + i] == e.out[i];
      }
    }
  }

  /** A clean stream gives the same frames however it is read and flushed. */
  lemma {:induction false} SessionWhole(buf: seq<byte>, closing: bool, rs: seq<Read>)
    requires WsNext(buf).More? && EndsCleanly(Drain(WsNext, buf + Bytes(rs)))
    requires closing ==> Drain(WsNext, buf + Bytes(rs)).out == [] && !Drain(WsNext, buf + Bytes(rs)).corrupt
    ensures Session(buf, closing, rs) == Whole(Drain(WsNext, buf + Bytes(rs)))
    decreases |rs|
  {
    if rs == [] {
      assert buf + Bytes(rs) == buf;
    } else {
      var x, y := buf + rs[0].data, Bytes(rs[1..]);
      assert buf + Bytes(rs) == x + y;
      SplitOnce(x, y);
      var d := Drain(WsNext, x);
      var e := Drain(WsNext, d.rest + y);
      FrontClean(d, e, Drain(WsNext, x + y));
      ServeWhole(x);
      if !d.corrupt {
        RestWaits(x);
        SessionWhole(d.rest, closing || SomeCloses(d.out), rs[1..]);
        assert d.out + e.out == Drain(WsNext, x + y).out;
        assert d.out + [] == d.out;
      }
    }
  }

  lemma SplitOnce(x: seq<byte>, y: seq<byte>)
    ensures var d := Drain(WsNext, x);
            Drain(WsNext, x + y) == if d.corrupt then d else Then(d, Drain(WsNext, d.rest + y))
  {
    WsStable();
    DrainSplit(WsNext, x, y);
  }

  // --- two ways to read an unclean stream ----------------------------------------------------

  /** One read a frame, all flushed or none. */
  function Aligned(b: seq<byte>, flushed: bool): seq<Read>
    decreases |b|
  {
    if b == [] then []
    else
      match WsNext(b)
      case Emit(_, used) =>
        if 0 < used <= |b| then [Read(b[..used], flushed)] + Aligned(b[used..], flushed) else [Read(b, flushed)]
      case _ => [Read(b, flushed)]
  }

  /** A server never sees an empty read. */
  ghost predicate Reads(rs: seq<Read>, b: seq<byte>) {
    Bytes(rs) == b && forall i :: 0 <= i < |rs| ==> rs[i].data != []
  }

  lemma {:induction false} AlignedReads(b: seq<byte>, flushed: bool)
    ensures Reads(Aligned(b, flushed), b)
    decreases |b|
  {
    if b != [] {
      if WsNext(b).Emit? {
        WsTight(b);
        var used := WsNext(b).used;
        AlignedReads(b[used..], flushed);
        assert b == b[..used] + b[used..];
        assert ([Read(b[..used], flushed)] + Aligned(b[used..], flushed))[1..] == Aligned(b[used..], flushed);
      } else {
        assert [Read(b, flushed)][1..] == [];
        assert b + [] == b;
      }
    }
  }

  /** Serving one whole frame takes it and leaves nothing. */
  lemma ServeOne(b: seq<byte>)
    requires WsNext(b).Emit?
    ensures 0 < WsNext(b).used <= |b|
    ensures Serve(b[..WsNext(b).used]) == Drained([WsNext(b).rec], [], 0, false)
  {
    WsTight(b);
    var f := b[..WsNext(b).used];
    assert f[|f|..] == [];
    assert Serve([]) == Drained([], [], 0, false);
  }

  /** The first read of an aligned session. */
  lemma AlignedFirst(b: seq<byte>, closing: bool, flushed: bool)
    requires WsNext(b).Emit?
    ensures 0 < WsNext(b).used <= |b|
    ensures var f, c := WsNext(b).rec, closing || Closes(WsNext(b).rec);
            var rest := Session([], c, Aligned(b[WsNext(b).used..], flushed));
            Session([], closing, Aligned(b, flushed))
            == if c && flushed then Outcome([f], false) else Outcome([f] + rest.frames, rest.failed)
  {
    ServeOne(b);
    var used := WsNext(b).used;
    var rs := Aligned(b, flushed);
    assert rs == [Read(b[..used], flushed)] + Aligned(b[used..], flushed);
    assert rs[0] == Read(b[..used], flushed) && rs[1..] == Aligned(b[used..], flushed);
    assert [] + b[..used] == b[..used];
    assert SomeCloses([WsNext(b).rec]) <==> Closes(WsNext(b).rec) by {
      if Closes(WsNext(b).rec) { assert Closes([WsNext(b).rec][0]); }
    }
  }

  lemma AlignedLast(b: seq<byte>, closing: bool, flushed: bool)
    requires !WsNext(b).Emit?
    ensures Session([], closing, Aligned(b, flushed)) == Whole(Drain(WsNext, b))
  {
    if b != [] {
      var rs := Aligned(b, flushed);
      assert rs == [Read(b, flushed)] && rs[1..] == [];
      assert [] + b == b;
    }
  }

  /** Read a frame at a time and never flushed, everything is taken. */
  lemma {:induction false} NeverFlushed(b: seq<byte>, closing: bool)
    ensures Session([], closing, Aligned(b, false)) == Whole(Drain(WsNext, b))
    decreases |b|
  {
    if WsNext(b).Emit? {
      AlignedFirst(b, closing, false);
      DrainStep(WsNext, b);
      NeverFlushed(b[WsNext(b).used..], closing || Closes(WsNext(b).rec));
    } else {
      AlignedLast(b, closing, false);
    }
  }

  /** Read a frame at a time and always flushed, nothing is taken after the first
      frame that starts closing. */
  lemma {:induction false} AlwaysFlushed(b: seq<byte>)
    requires !EndsCleanly(Drain(WsNext, b))
    ensures Session([], false, Aligned(b, true)) != Whole(Drain(WsNext, b))
    decreases |b|
  {
    var d := Drain(WsNext, b);
    var i :| 0 <= i < |d.out| && Closes(d.out[i]) && !(i == |d.out| - 1 && !d.corrupt);
    assert WsNext(b).Emit?;
    AlignedFirst(b, false, true);
    DrainStep(WsNext, b);
    var f, e := WsNext(b).rec, Drain(WsNext, b[WsNext(b).used..]);
    assert d.out == [f] + e.out && d.corrupt == e.corrupt;
    if Closes(f) {
      assert |d.out| > 1 || d.corrupt by { assert d.out[0] == f; }
    } else {
      StillUnclean(f, d, e);
      AlwaysFlushed(b[WsNext(b).used..]);
      var rest := Session([], false, Aligned(b[WsNext(b).used..], true));
      assert ([f] + rest.frames)[1..] == rest.frames && d.out[1..] == e.out;
    }
  }

  lemma StillUnclean(f: Frame, d: Drained<Frame>, e: Drained<Frame>)
    requires d.out == [f] + e.out && d.corrupt == e.corrupt && !Closes(f) && !EndsCleanly(d)
    ensures !EndsCleanly(e)
  {
    var i :| 0 <= i < |d.out| && Closes(d.out[i]) && !(i == |d.out| - 1 && !d.corrupt);
    assert e.out[i - 1] == d.out[i];
  }

  ghost predicate AnyReads(b: seq<byte>) {
    forall x, y :: Reads(x, b) && Reads(y, b) ==> Session([], false, x) == Session([], false, y)
  }

  /** The frames taken do not depend on how the bytes were split into reads, nor on
      when replies were flushed, if and only if no frame that starts closing is
      followed by anything. */
  lemma ChunkingExact(b: seq<byte>)
    ensures AnyReads(b) <==> EndsCleanly(Drain(WsNext, b))
  {
    if EndsCleanly(Drain(WsNext, b)) {
      forall x, y | Reads(x, b) && Reads(y, b)
        ensures Session([], false, x) == Session([], false, y)
      {
        assert [] + Bytes(x) == b && [] + Bytes(y) == b;
        SessionWhole([], false, x);
        SessionWhole([], false, y);
      }
    } else {
      AlignedReads(b, false);
      AlignedReads(b, true);
      NeverFlushed(b, false);
      AlwaysFlushed(b);
    }
  }

  /** CLOSE followed by anything that parses: the later frame is taken or not,
      depending on the reads. */
  lemma CloseThenText(key: seq<byte>, text: seq<byte>)
    requires |key| == 4 && |text| < 126
    ensures !AnyReads(ClientFrame(CLOSE, [], key) + ClientFrame(TEXT, text, key))
  {
    BigWidth();
    ClosingFirst(CLOSE, [], TEXT, text, key);
  }

  lemma ClosingFirst(a: nat, p: seq<byte>, b: nat, q: seq<byte>, key: seq<byte>)
    requires |key| == 4 && |p| < BigEndian.Pow256(8) && |q| < BigEndian.Pow256(8) && Closes(Frame(true, a % 16, p))
    ensures !AnyReads(ClientFrame(a, p, key) + ClientFrame(b, q, key))
  {
    var close, more := ClientFrame(a, p, key), ClientFrame(b, q, key);
    FrameRoundTrip(a, p, key);
    FrameRoundTrip(b, q, key);
    TwoFramed(Frame(true, a % 16, p), close, Frame(true, b % 16, q), more);
    ChunkingExact(close + more);
  }

  /** A frame that starts closing, and another. */
  lemma TwoFramed(f: Frame, a: seq<byte>, g: Frame, b: seq<byte>)
    requires Framed(WsNext, f, a) && Framed(WsNext, g, b) && a != [] && b != [] && Closes(f)
    ensures !EndsCleanly(Drain(WsNext, a + b))
  {
    assert WsNext(a + b) == Emit(f, |a|);
    assert (a + b)[|a|..] == b;
    assert WsNext(b) == Emit(g, |b|) by { assert b + [] == b; }
    TwoFrames(a + b, f, |a|, g, |b|);
  }

  lemma TwoFrames(b: seq<byte>, f: Frame, used: nat, g: Frame, more: nat)
    requires WsNext(b) == Emit(f, used) && 0 < used <= |b| && Closes(f)
    requires WsNext(b[used..]) == Emit(g, more) && 0 < more <= |b| - used
    ensures !EndsCleanly(Drain(WsNext, b))
  {
    DrainStep(WsNext, b);
    DrainStep(WsNext, b[used..]);
    assert Drain(WsNext, b).out[0] == f && |Drain(WsNext, b).out| >= 2;
  }

  lemma BigWidth()
    ensures 126 < BigEndian.Pow256(8)
  {
    assert BigEndian.Pow256(2) == 65536;
  }

  /** The connection's read handler. */
  class Client {
    var buf: seq<byte>
    var closing: bool
    var tornDown: bool

    constructor ()
      ensures buf == [] && !closing && !tornDown
    {
      buf, closing, tornDown := [], false, false;
    }

    /** The loop of one read. */
    method OnReadable(data: seq<byte>) returns (frames: seq<Frame>)
      requires !tornDown
      modifies this
      ensures var d := Serve(old(buf) + data);
              && frames == d.out && tornDown == d.corrupt && (!tornDown ==> buf == d.rest)
              && closing == (old(closing) || SomeCloses(d.out))
    {
      buf := buf + data;
      ghost var start := buf;
      frames := [];
      while true
        invariant !tornDown
        invariant Serve(start) == Then(Drained(frames, [], 0, false), Serve(buf))
        invariant closing == (old(closing) || SomeCloses(frames))
        decreases |buf|
      {
        ServeNext(frames, buf);
        var v := WsNext(buf);
        if v.Corrupt? {
          tornDown := true;
          return;
        }
        if !v.Emit? { return; }
        CloseNext(frames, v.rec);
        if Closes(v.rec) { closing := true; }
        buf := buf[v.used..];
        frames := frames + [v.rec];
        if !v.rec.fin { return; }
      }
    }

    /** Everything queued has been sent: a closing client is torn down. */
    method OnFlushed()
      modifies this`tornDown
      ensures tornDown == (old(tornDown) || closing)
    {
      if closing { tornDown := true; }
    }

    /** Reads and flushes as the event loop delivers them, until one of them tears the
        connection down: the calls take exactly the frames of the session. */
    method Converse(rs: seq<Read>) returns (o: Outcome)
      requires !tornDown
      modifies this
      ensures o == Session(old(buf), old(closing), rs)
    {
      var frames, rest: seq<Read> := [], rs;
      while rest != []
        invariant !tornDown
        invariant Session(old(buf), old(closing), rs) == After(frames, Session(buf, closing, rest))
        decreases |rest|
      {
        AfterRead(frames, buf, closing, rest);
        var got := OnReadable(rest[0].data);
        frames := frames + got;
        if tornDown { return Outcome(frames, true); }
        if rest[0].flushed { OnFlushed(); }
        if tornDown { return Outcome(frames, false); }
        rest := rest[1..];
      }
      return Outcome(frames, false);
    }
  }

  /** What was taken before, and then an outcome. */
  function After(frames: seq<Frame>, o: Outcome): Outcome {
    Outcome(frames + o.frames, o.failed)
  }

  lemma AfterRead(frames: seq<Frame>, buf: seq<byte>, closing: bool, rs: seq<Read>)
    requires rs != []
    ensures var d := Serve(buf + rs[0].data);
            var c := closing || SomeCloses(d.out);
            After(frames, Session(buf, closing, rs)) ==
            if d.corrupt then Outcome(frames + d.out, true)
            else if c && rs[0].flushed then Outcome(frames + d.out, false)
            else After(frames + d.out, Session(d.rest, c, rs[1..]))
  {
    var d := Serve(buf + rs[0].data);
    var rest := Session(d.rest, closing || SomeCloses(d.out), rs[1..]);
    assert frames + (d.out + rest.frames) == (frames + d.out) + rest.frames;
  }

  lemma CloseNext(fs: seq<Frame>, f: Frame)
    ensures SomeCloses(fs + [f]) <==> SomeCloses(fs) || Closes(f)
  {
    var gs := fs + [f];
    if i :| 0 <= i < |fs| && Closes(fs[i]) { assert Closes(gs[i]); }
    if Closes(f) { assert Closes(gs[|fs|]); }
    if i :| 0 <= i < |gs| && Closes(gs[i]) { assert i == |fs| || Closes(fs[i]); }
  }
}
