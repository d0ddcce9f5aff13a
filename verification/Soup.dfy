/** SoupBinTCP packets as bytes: padding, encoders, decoders, reassembly. */
module SoupWire {
  import opened Framing
  import opened Decimal
  import opened Framers
  import opened Itch

  const SESSION_WIDTH: nat := 10
  const USER_WIDTH: nat := 6
  const PASS_WIDTH: nat := 10

  datatype SoupPacket =
    | Accepted(session: seq<byte>, number: nat)
    | Rejected(code: byte)
    | Data(message: seq<byte>)
    | Heartbeat
    | End
    | Debug(text: seq<byte>)
    | Login(user: seq<byte>, pass: seq<byte>, session: seq<byte>, number: nat)
    | Unsequenced(message: seq<byte>)
    | ClientHeartbeat
    | Logout

  // --- text fields ---------------------------------------------------------------

  predicate Ascii(s: seq<byte>) {
    forall i :: 0 <= i < |s| ==> s[i] < 128
  }

  /** The characters Python's `strip` removes, within ASCII. */
  predicate White(c: byte) {
    9 <= c <= 13 || 28 <= c <= 32
  }

  function StripLeft(s: seq<byte>): seq<byte> {
    if s != [] && White(s[0]) then StripLeft(s[1..]) else s
  }

  function StripRight(s: seq<byte>): seq<byte> {
    if s != [] && White(s[|s| - 1]) then StripRight(s[..|s| - 1]) else s
  }

  function Strip(s: seq<byte>): seq<byte> {
    StripRight(StripLeft(s))
  }

  function TrimSpaces(s: seq<byte>): seq<byte> {
    if s != [] && s[|s| - 1] == SPACE then TrimSpaces(s[..|s| - 1]) else s
  }

  function PadLeft(s: seq<byte>, width: nat): seq<byte>
    requires |s| <= width
  {
    Spaces(width - |s|) + s
  }

  function PadRight(s: seq<byte>, width: nat): seq<byte>
    requires |s| <= width
  {
    s + Spaces(width - |s|)
  }

  lemma {:induction false} StripPadding(n: nat, s: seq<byte>)
    ensures StripLeft(Spaces(n) + s) == StripLeft(s)
  {
    if n == 0 {
      assert Spaces(0) + s == s;
    } else {
      assert (Spaces(n) + s)[1..] == Spaces(n - 1) + s;
      StripPadding(n - 1, s);
    }
  }

  lemma {:induction false} TrimPadding(s: seq<byte>, n: nat)
    ensures TrimSpaces(s + Spaces(n)) == TrimSpaces(s)
  {
    if n == 0 {
      assert s + Spaces(0) == s;
    } else {
      var t := s + Spaces(n);
      assert t[..|t| - 1] == s + Spaces(n - 1);
      TrimPadding(s, n - 1);
    }
  }

  /** A left-padded decimal number reads back as itself. */
  lemma NumberField(v: nat)
    requires |Digits(v)| <= SEQ_WIDTH
    ensures var t := Strip(PadLeft(Digits(v), SEQ_WIDTH)); t != [] && AllDigits(t) && Value(t) == v
    ensures Ascii(PadLeft(Digits(v), SEQ_WIDTH))
  {
    ValueDigits(v);
    var d := Digits(v);
    StripPadding(SEQ_WIDTH - |d|, d);
    assert IsDigit(d[0]) && IsDigit(d[|d| - 1]);
    assert StripLeft(d) == d && StripRight(d) == d;
  }

  // --- encoders and decoders -----------------------------------------------------

  /** The encoder does not raise. */
  predicate Fits(p: SoupPacket) {
    match p
    case Accepted(s, n) => Ascii(s) && |s| <= SESSION_WIDTH && |Digits(n)| <= SEQ_WIDTH
    case Rejected(c) => c < 128
    case Data(m) => |m| < 65535
    case Debug(t) => |t| < 65535
    case Unsequenced(m) => |m| < 65535
    case Login(u, w, s, n) =>
      && Ascii(u) && Ascii(w) && Ascii(s)
      && |u| <= USER_WIDTH && |w| <= PASS_WIDTH && |s| <= SESSION_WIDTH && |Digits(n)| <= SEQ_WIDTH
    case _ => true
  }

  /** Type byte and payload. */
  function Body(p: SoupPacket): seq<byte>
    requires Fits(p)
  {
    match p
    case Accepted(s, n) => ['A' as int] + (PadLeft(s, SESSION_WIDTH) + PadLeft(Digits(n), SEQ_WIDTH))
    case Rejected(c) => ['J' as int, c]
    case Data(m) => ['S' as int] + m
    case Heartbeat => ['H' as int]
    case End => ['Z' as int]
    case Debug(t) => ['+' as int] + t
    case Login(u, w, s, n) =>
      ['L' as int] + (PadRight(u, USER_WIDTH) + PadRight(w, PASS_WIDTH) +
                       PadLeft(s, SESSION_WIDTH) + PadLeft(Digits(n), SEQ_WIDTH))
    case Unsequenced(m) => ['U' as int] + m
    case ClientHeartbeat => ['R' as int]
    case Logout => ['O' as int]
  }

  function Encode(p: SoupPacket): seq<byte>
    requires Fits(p)
  {
    BodyLength(p);
    WithLength(Body(p))
  }

  function WithLength(body: seq<byte>): seq<byte>
    requires |body| < 65536
  {
    [|body| / 256, |body| % 256] + body
  }

  function Number(field: seq<byte>): Option<nat> {
    var t := Strip(field);
    if Ascii(field) && t != [] && AllDigits(t) then Some(Value(t)) else None
  }

  function DecodeAccepted(b: seq<byte>): Option<SoupPacket> {
    if |b| != 30 || !Ascii(b) then None
    else match Number(b[10..30])
      case Some(n) => Some(Accepted(Strip(b[..10]), n))
      case None => None
  }

  function DecodeLogin(b: seq<byte>): Option<SoupPacket> {
    if |b| != 46 || !Ascii(b) then None
    else match Number(b[26..46])
      case Some(n) => Some(Login(TrimSpaces(b[..6]), TrimSpaces(b[6..16]), Strip(b[16..26]), n))
      case None => None
  }

  /** The dispatch on the type byte; none where the decoder raises. */
  function Decode(frame: seq<byte>): Option<SoupPacket> {
    if frame == [] then None
    else
      var b := frame[1..];
      if frame[0] == 'A' as int then DecodeAccepted(b)
      else if frame[0] == 'J' as int then if |b| == 1 && Ascii(b) then Some(Rejected(b[0])) else None
      else if frame[0] == 'S' as int then Some(Data(b))
      else if frame[0] == 'H' as int then if b == [] then Some(Heartbeat) else None
      else if frame[0] == 'Z' as int then if b == [] then Some(End) else None
      else if frame[0] == '+' as int then Some(Debug(b))
      else if frame[0] == 'L' as int then DecodeLogin(b)
      else if frame[0] == 'U' as int then Some(Unsequenced(b))
      else if frame[0] == 'R' as int then if b == [] then Some(ClientHeartbeat) else None
      else if frame[0] == 'O' as int then if b == [] then Some(Logout) else None
      else None
  }

  /** What padding lets through: text fields lose the blanks at their edges. */
  function Canonical(p: SoupPacket): SoupPacket {
    match p
    case Accepted(s, n) => Accepted(Strip(s), n)
    case Login(u, w, s, n) => Login(TrimSpaces(u), TrimSpaces(w), Strip(s), n)
    case _ => p
  }

  lemma AcceptedFields(s: seq<byte>, n: seq<byte>)
    requires |s| == 10 && |n| == 20 && Ascii(s) && Ascii(n)
    ensures var b := s + n; b[..10] == s && b[10..30] == n && Ascii(b)
  {
  }

  lemma AcceptedRoundTrip(p: SoupPacket)
    requires p.Accepted? && Fits(p)
    ensures Decode(Body(p)) == Some(Canonical(p))
  {
    var s, n := PadLeft(p.session, SESSION_WIDTH), PadLeft(Digits(p.number), SEQ_WIDTH);
    NumberField(p.number);
    StripPadding(SESSION_WIDTH - |p.session|, p.session);
    assert Body(p)[1..] == s + n;
    AcceptedFields(s, n);
  }

  lemma LoginFields(u: seq<byte>, w: seq<byte>, s: seq<byte>, n: seq<byte>)
    requires |u| == 6 && |w| == 10 && |s| == 10 && |n| == 20
    requires Ascii(u) && Ascii(w) && Ascii(s) && Ascii(n)
    ensures var b := u + w + s + n;
            b[..6] == u && b[6..16] == w && b[16..26] == s && b[26..46] == n && Ascii(b)
  {
  }

  lemma LoginRoundTrip(p: SoupPacket)
    requires p.Login? && Fits(p)
    ensures Decode(Body(p)) == Some(Canonical(p))
  {
    var u, w := PadRight(p.user, USER_WIDTH), PadRight(p.pass, PASS_WIDTH);
    var s, n := PadLeft(p.session, SESSION_WIDTH), PadLeft(Digits(p.number), SEQ_WIDTH);
    NumberField(p.number);
    StripPadding(SESSION_WIDTH - |p.session|, p.session);
    TrimPadding(p.user, USER_WIDTH - |p.user|);
    TrimPadding(p.pass, PASS_WIDTH - |p.pass|);
    assert Body(p)[1..] == u + w + s + n;
    LoginFields(u, w, s, n);
  }

  /** Every packet the encoder accepts is decoded to its canonical form, so it
      round-trips exactly when its text has no blank edge. */
  lemma PacketRoundTrip(p: SoupPacket)
    requires Fits(p)
    ensures Decode(Body(p)) == Some(Canonical(p))
    ensures Decode(Body(p)) == Some(p) <==> Canonical(p) == p
  {
    match p
    case Accepted(_, _) => AcceptedRoundTrip(p);
    case Login(_, _, _, _) => LoginRoundTrip(p);
    case _ =>
      assert Body(p)[1..] == match p {
        case Data(m) => m
        case Debug(t) => t
        case Unsequenced(m) => m
        case Rejected(c) => [c]
        case _ => []
      };
  }

  // --- reassembly ------------------------------------------------------------------

  /** One turn of the frame buffer; a frame that does not decode raises. */
  function FrameNext(b: seq<byte>): Verdict<SoupPacket> {
    if |b| < 2 then More
    else
      var total := 2 + U16(b[0], b[1]);
      if |b| < total then More
      else match Decode(b[2..total])
        case Some(p) => Emit(p, total)
        case None => Corrupt
  }

  /** Stripping leaves a field no longer than it was. */
  lemma StripFits(s: seq<byte>)
    ensures |Strip(s)| <= |s| && (Ascii(s) ==> Ascii(Strip(s)))
  {
    StripLeftFits(s);
    StripRightFits(StripLeft(s));
  }

  lemma {:induction false} StripLeftFits(s: seq<byte>)
    ensures |StripLeft(s)| <= |s| && (Ascii(s) ==> Ascii(StripLeft(s)))
  {
    if s != [] && White(s[0]) { StripLeftFits(s[1..]); }
  }

  lemma {:induction false} StripRightFits(s: seq<byte>)
    ensures |StripRight(s)| <= |s| && (Ascii(s) ==> Ascii(StripRight(s)))
  {
    if s != [] && White(s[|s| - 1]) { StripRightFits(s[..|s| - 1]); }
  }

  lemma BodyLength(p: SoupPacket)
    requires Fits(p)
    ensures 0 < |Body(p)| < 65536
  {
  }

  /** Every packet the encoder accepts is read as its canonical form, whole
      whatever follows it, and is waited for while any of it is missing. */
  lemma PacketFramed(p: SoupPacket)
    requires Fits(p)
    ensures Framed(FrameNext, Canonical(p), Encode(p))
  {
    BodyLength(p);
    PacketRoundTrip(p);
    BodyFramed(Body(p), Canonical(p));
  }

  /** Any body that decodes is framed by its length. */
  lemma BodyFramed(body: seq<byte>, p: SoupPacket)
    requires |body| < 65536 && Decode(body) == Some(p)
    ensures Framed(FrameNext, p, WithLength(body))
  {
    var n := |body|;
    var b := WithLength(body);
    forall t
      ensures FrameNext(b + t) == Emit(p, |b|)
    {
      assert U16((b + t)[0], (b + t)[1]) == n;
      assert (b + t)[2..2 + n] == body;
    }
    forall k | 0 <= k < |b|
      ensures FrameNext(b[..k]).More?
    {
      if k >= 2 { assert U16(b[..k][0], b[..k][1]) == n; }
    }
  }

  // --- what the decoder accepts ----------------------------------------------------------

  lemma {:induction false} StripLeftBounds(s: seq<byte>)
    ensures |StripLeft(s)| <= |s| && (Ascii(s) ==> Ascii(StripLeft(s)))
    ensures StripLeft(StripLeft(s)) == StripLeft(s)
    ensures StripLeft(s) != [] ==> !White(StripLeft(s)[0])
  {
    if s != [] && White(s[0]) { StripLeftBounds(s[1..]); }
  }

  lemma {:induction false} StripRightBounds(s: seq<byte>)
    ensures StripRight(s) <= s && (Ascii(s) ==> Ascii(StripRight(s)))
    ensures StripRight(StripRight(s)) == StripRight(s)
  {
    if s != [] && White(s[|s| - 1]) { StripRightBounds(s[..|s| - 1]); }
  }

  lemma StripBounds(s: seq<byte>)
    ensures |Strip(s)| <= |s| && (Ascii(s) ==> Ascii(Strip(s))) && Strip(Strip(s)) == Strip(s)
  {
    var l := StripLeft(s);
    StripLeftBounds(s);
    StripRightBounds(l);
    var r := StripRight(l);
    assert r != [] ==> r[0] == l[0];
    assert StripLeft(r) == r;
  }

  lemma {:induction false} TrimBounds(s: seq<byte>)
    ensures TrimSpaces(s) <= s && (Ascii(s) ==> Ascii(TrimSpaces(s)))
    ensures TrimSpaces(TrimSpaces(s)) == TrimSpaces(s)
  {
    if s != [] && s[|s| - 1] == SPACE { TrimBounds(s[..|s| - 1]); }
  }

  lemma {:induction false} ValueBelow(s: seq<byte>)
    requires AllDigits(s)
    ensures Value(s) < Pow10(|s|)
  {
    if s != [] { ValueBelow(s[..|s| - 1]); }
  }

  lemma {:induction false} PowGrows(a: nat, b: nat)
    requires a <= b
    ensures Pow10(a) <= Pow10(b)
    decreases b
  {
    if a < b { PowGrows(a, b - 1); }
  }

  lemma NumberFits(field: seq<byte>)
    requires |field| == SEQ_WIDTH && Number(field).Some?
    ensures |Digits(Number(field).value)| <= SEQ_WIDTH
  {
    var t := Strip(field);
    StripBounds(field);
    ValueBelow(t);
    PowGrows(|t|, SEQ_WIDTH);
    DigitsWidth(Value(t), SEQ_WIDTH);
  }

  lemma DecodedAccepted(b: seq<byte>)
    requires DecodeAccepted(b).Some?
    ensures var p := DecodeAccepted(b).value; Fits(p) && Canonical(p) == p
  {
    NumberFits(b[10..30]);
    StripBounds(b[..10]);
  }

  lemma DecodedLogin(b: seq<byte>)
    requires DecodeLogin(b).Some?
    ensures var p := DecodeLogin(b).value; Fits(p) && Canonical(p) == p
  {
    NumberFits(b[26..46]);
    StripBounds(b[16..26]);
    TrimBounds(b[..6]);
    TrimBounds(b[6..16]);
  }

  /** Whatever frame the decoder accepts, the packet is one the encoder accepts, and it
      encodes to a frame that decodes to it again. */
  lemma DecodedFits(frame: seq<byte>)
    requires |frame| < 65536 && Decode(frame).Some?
    ensures var p := Decode(frame).value; Fits(p) && Canonical(p) == p && Decode(Body(p)) == Some(p)
  {
    var p := Decode(frame).value;
    if frame[0] == 'A' as int { DecodedAccepted(frame[1..]); }
    if frame[0] == 'L' as int { DecodedLogin(frame[1..]); }
    PacketRoundTrip(p);
  }

  // --- field positions ---------------------------------------------------------------------

  /** Text at the left of a field, blanks after it. */
  ghost predicate AtLeft(field: seq<byte>, text: seq<byte>) {
    text <= field && forall i :: |text| <= i < |field| ==> field[i] == 32
  }

  /** Text at the right of a field, blanks before it. */
  ghost predicate AtRight(field: seq<byte>, text: seq<byte>) {
    && |text| <= |field| && field[|field| - |text|..] == text
    && forall i :: 0 <= i < |field| - |text| ==> field[i] == 32
  }

  lemma PaddedAt(text: seq<byte>, width: nat)
    requires |text| <= width
    ensures |PadLeft(text, width)| == width && AtRight(PadLeft(text, width), text)
    ensures |PadRight(text, width)| == width && AtLeft(PadRight(text, width), text)
  {
  }

  lemma LoginSlices(h: seq<byte>, a: seq<byte>, b: seq<byte>, c: seq<byte>, d: seq<byte>)
    requires |h| == 3 && |a| == 6 && |b| == 10 && |c| == 10 && |d| == 20
    ensures var e := h + (a + b + c + d);
            |e| == 49 && e[..3] == h && e[3..9] == a && e[9..19] == b && e[19..29] == c && e[29..49] == d
  {
  }

  lemma AcceptedSlices(h: seq<byte>, c: seq<byte>, d: seq<byte>)
    requires |h| == 3 && |c| == 10 && |d| == 20
    ensures var e := h + (c + d); |e| == 33 && e[..3] == h && e[3..13] == c && e[13..33] == d
  {
  }

  lemma TypedFrame(kind: byte, payload: seq<byte>)
    requires |payload| < 65535
    ensures WithLength([kind] + payload) == [(1 + |payload|) / 256, (1 + |payload|) % 256, kind] + payload
  {
  }

  /** Where a login request has its fields: names and passwords at the left of theirs,
      session and number at the right. */
  lemma LoginWire(u: seq<byte>, w: seq<byte>, s: seq<byte>, n: nat)
    requires Fits(Login(u, w, s, n))
    ensures var e := Encode(Login(u, w, s, n));
            && |e| == 49 && e[..3] == [0, 47, 'L' as int]
            && AtLeft(e[3..9], u) && AtLeft(e[9..19], w) && AtRight(e[19..29], s) && AtRight(e[29..49], Digits(n))
  {
    var a, b, c, d := PadRight(u, 6), PadRight(w, 10), PadLeft(s, 10), PadLeft(Digits(n), 20);
    PaddedAt(u, 6);
    PaddedAt(w, 10);
    PaddedAt(s, 10);
    PaddedAt(Digits(n), 20);
    TypedFrame('L' as int, a + b + c + d);
    LoginSlices([0, 47, 'L' as int], a, b, c, d);
  }

  lemma AcceptedWire(s: seq<byte>, n: nat)
    requires Fits(Accepted(s, n))
    ensures var e := Encode(Accepted(s, n));
            && |e| == 33 && e[..3] == [0, 31, 'A' as int]
            && AtRight(e[3..13], s) && AtRight(e[13..33], Digits(n))
  {
    var c, d := PadLeft(s, 10), PadLeft(Digits(n), 20);
    PaddedAt(s, 10);
    PaddedAt(Digits(n), 20);
    TypedFrame('A' as int, c + d);
    AcceptedSlices([0, 31, 'A' as int], c, d);
  }

  /** The reassembler, which loops over the buffered frames. */
  class FrameBuffer {
    var buf: seq<byte>

    constructor ()
      ensures buf == []
    {
      buf := [];
    }

    /** Every complete packet, in order; none if one of them does not decode. */
    method Feed(data: seq<byte>) returns (r: Option<seq<SoupPacket>>)
      modifies this
      ensures var d := Drain(FrameNext, old(buf) + data);
              && d.corrupt == r.None? && (r.Some? ==> r.value == d.out && buf == d.rest && d.bad == 0)
    {
      buf := buf + data;
      ghost var start := buf;
      var out: seq<SoupPacket> := [];
      while true
        invariant Drain(FrameNext, start) == Then(Drained(out, [], 0, false), Drain(FrameNext, buf))
        decreases |buf|
      {
        if |buf| < 2 || |buf| < 2 + U16(buf[0], buf[1]) {
          assert Drain(FrameNext, buf) == Drained([], buf, 0, false);
          assert out + [] == out;
          return Some(out);
        }
        var total := 2 + U16(buf[0], buf[1]);
        var frame := buf[2..total];
        match Decode(frame) {
          case None =>
            buf := buf[total..];
            return None;
          case Some(p) =>
            DrainStep(FrameNext, buf);
            ThenAssociates(Drained(out, [], 0, false), First(FrameNext(buf)), Drain(FrameNext, buf[total..]));
            buf := buf[total..];
            out := out + [p];
        }
      }
    }
  }
}
