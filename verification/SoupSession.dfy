/** The client side of one SoupBinTCP session, independent of any socket. */
module SoupClient {
  import opened Framing
  import opened Decimal
  import opened Itch
  import opened SoupWire

  datatype Phase = Connected | LoginSent | Live | Ended | Failed

  /** One call of the message callback. */
  datatype Delivery = Delivery(number: nat, message: seq<byte>)

  /** `delivered` logs the calls of the message callback. */
  datatype Session = Session(
    phase: Phase,
    id: seq<byte>,
    nextSeq: nat,
    buf: seq<byte>,
    out: seq<byte>,
    delivered: seq<Delivery>)

  function Fresh(id: seq<byte>, from: nat): Session {
    Session(Connected, id, from, [], [], [])
  }

  /** Keep the resume point, forget framing and output. */
  function Reset(s: Session): Session {
    s.(phase := Connected, buf := [], out := [])
  }

  /** A caller of a connected session may give its own resume point, or half of one. */
  function Resume(s: Session, id: Option<seq<byte>>, from: Option<nat>): Session {
    if s.phase != Connected then s
    else s.(id := if id.Some? then id.value else s.id, nextSeq := if from.Some? then from.value else s.nextSeq)
  }

  /** Queue a login with the resume point; none where the call raises. */
  function Start(s: Session, user: seq<byte>, pass: seq<byte>): Option<Session> {
    var login := Login(user, pass, s.id, s.nextSeq);
    if s.phase != Connected || !Fits(login) then None
    else Some(s.(phase := LoginSent, out := s.out + Encode(login)))
  }

  function Handle(s: Session, p: SoupPacket): Session {
    match p
    case Accepted(id, n) => s.(phase := Live, id := id, nextSeq := n)
    case Rejected(_) => s.(phase := Failed)
    case Data(m) => s.(nextSeq := s.nextSeq + 1, delivered := s.delivered + [Delivery(s.nextSeq, m)])
    case End => s.(phase := Ended)
    case _ => s
  }

  function HandleAll(s: Session, ps: seq<SoupPacket>): Session
    decreases |ps|
  {
    if ps == [] then s else HandleAll(Handle(s, ps[0]), ps[1..])
  }

  /** Bytes off the wire; none where a frame fails to decode. */
  function OnBytes(s: Session, data: seq<byte>): Option<Session> {
    var d := Drain(FrameNext, s.buf + data);
    if d.corrupt then None else Some(HandleAll(s.(buf := d.rest), d.out))
  }

  /** Handling packets neither reads nor writes the frame buffer. */
  lemma {:induction false} HandleBuf(s: Session, ps: seq<SoupPacket>, buf: seq<byte>)
    ensures HandleAll(s.(buf := buf), ps) == HandleAll(s, ps).(buf := buf)
    decreases |ps|
  {
    if ps != [] {
      HandleBuf(Handle(s, ps[0]), ps[1..], buf);
    }
  }

  // --- what a list of packets leaves -------------------------------------------------------

  /** The last packet that opens, refuses or ends a session. */
  function LastTurn(ps: seq<SoupPacket>): Option<SoupPacket> {
    if ps == [] then None
    else
      var p := ps[|ps| - 1];
      if p.Accepted? || p.Rejected? || p.End? then Some(p) else LastTurn(ps[..|ps| - 1])
  }

  function LastAccepted(ps: seq<SoupPacket>): (p: Option<SoupPacket>)
    ensures p.Some? ==> p.value.Accepted?
  {
    if ps == [] then None
    else if ps[|ps| - 1].Accepted? then Some(ps[|ps| - 1])
    else LastAccepted(ps[..|ps| - 1])
  }

  /** The data packets after the last acceptance. */
  function DataSince(ps: seq<SoupPacket>): nat {
    if ps == [] || ps[|ps| - 1].Accepted? then 0
    else DataSince(ps[..|ps| - 1]) + if ps[|ps| - 1].Data? then 1 else 0
  }

  lemma {:induction false} HandleNext(s: Session, ps: seq<SoupPacket>)
    requires ps != []
    ensures HandleAll(s, ps) == Handle(HandleAll(s, ps[..|ps| - 1]), ps[|ps| - 1])
    decreases |ps|
  {
    if |ps| > 1 {
      HandleNext(Handle(s, ps[0]), ps[1..]);
      assert ps[1..][..|ps| - 2] == ps[..|ps| - 1][1..];
    }
  }

  /** Whatever packets a session handles: its phase is that of the last turn, its
      session the last accepted, its next number that acceptance's and one more for
      each data packet since. */
  lemma {:induction false} HandleClosed(s: Session, ps: seq<SoupPacket>)
    ensures var c, turn, a := HandleAll(s, ps), LastTurn(ps), LastAccepted(ps);
            && c.phase == (if turn.None? then s.phase else if turn.value.Accepted? then Live
                           else if turn.value.Rejected? then Failed else Ended)
            && c.id == (if a.Some? then a.value.session else s.id)
            && c.nextSeq == (if a.Some? then a.value.number else s.nextSeq) + DataSince(ps)
            && c.buf == s.buf && c.out == s.out && s.delivered <= c.delivered
  {
    if ps != [] {
      HandleClosed(s, ps[..|ps| - 1]);
      HandleNext(s, ps);
    }
  }

  class SoupSession {
    const user: seq<byte>
    const pass: seq<byte>
    var phase: Phase
    var id: seq<byte>
    var nextSeq: nat
    var frames: FrameBuffer
    var out: seq<byte>
    var delivered: seq<Delivery>

    ghost function View(): Session
      reads this, frames
    {
      Session(phase, id, nextSeq, frames.buf, out, delivered)
    }

    constructor (user: seq<byte>, pass: seq<byte>, id: seq<byte>, from: nat)
      ensures View() == Fresh(id, from) && this.user == user && this.pass == pass && fresh(frames)
    {
      this.user, this.pass, this.phase := user, pass, Connected;
      this.id, this.nextSeq, this.out, this.delivered := id, from, [], [];
      frames := new FrameBuffer();
    }

    method Restart()
      modifies this
      ensures View() == Reset(old(View())) && fresh(frames)
    {
      frames := new FrameBuffer();
      out, phase := [], Connected;
    }

    /** A login that does not fit leaves the resume point the caller gave. */
    method Begin(session: Option<seq<byte>>, from: Option<nat>) returns (ok: bool)
      modifies this
      ensures frames == old(frames)
      ensures
        var s := Resume(old(View()), session, from);
        var r := Start(s, user, pass);
        ok == r.Some? && View() == if ok then r.value else s
    {
      if phase != Connected { return false; }
      if session.Some? { id := session.value; }
      if from.Some? { nextSeq := from.value; }
      var login := Login(user, pass, id, nextSeq);
      if !Fits(login) { return false; }
      out := out + Encode(login);
      phase := LoginSent;
      return true;
    }

    method HandlePacket(p: SoupPacket)
      modifies this
      ensures frames == old(frames) && frames.buf == old(frames.buf) && View() == Handle(old(View()), p)
    {
      match p {
        case Accepted(session, n) => id, nextSeq, phase := session, n, Live;
        case Rejected(_) => phase := Failed;
        case Data(m) =>
          var n := nextSeq;
          nextSeq := nextSeq + 1;
          delivered := delivered + [Delivery(n, m)];
        case End => phase := Ended;
        case _ =>
      }
    }

    /** The receive loop. */
    method Receive(data: seq<byte>) returns (ok: bool)
      modifies this, frames
      ensures frames == old(frames)
      ensures var r := OnBytes(old(View()), data); ok == r.Some? && (ok ==> View() == r.value)
    {
      var r := frames.Feed(data);
      if r.None? { return false; }
      ghost var start := View();
      var i := 0;
      while i < |r.value|
        invariant 0 <= i <= |r.value| && frames == old(frames) && frames.buf == start.buf
        invariant HandleAll(View(), r.value[i..]) == HandleAll(start, r.value)
      {
        assert r.value[i..][1..] == r.value[i + 1..];
        HandlePacket(r.value[i]);
        i := i + 1;
      }
      return true;
    }
  }
}

/** A client against a server that replays its numbered stream, over connections
    that split the bytes anywhere and may be lost at any time. */
module SoupRun {
  import opened Framing
  import opened Decimal
  import opened Itch
  import opened SoupWire
  import opened SoupClient

  /** What the two ends are started with. */
  datatype Config = Config(
    messages: seq<seq<byte>>,
    sid: seq<byte>,
    user: seq<byte>,
    pass: seq<byte>,
    clientUser: seq<byte>,
    clientPass: seq<byte>,
    want: seq<byte>,
    from: nat)

  /** No field of the exchange overflows its width. */
  predicate WellSized(cfg: Config) {
    && Ascii(cfg.sid) && |cfg.sid| <= SESSION_WIDTH
    && Ascii(cfg.want) && |cfg.want| <= SESSION_WIDTH
    && Ascii(cfg.clientUser) && |cfg.clientUser| <= USER_WIDTH
    && Ascii(cfg.clientPass) && |cfg.clientPass| <= PASS_WIDTH
    && cfg.from + |cfg.messages| + 1 < Pow10(SEQ_WIDTH)
    && forall i :: 0 <= i < |cfg.messages| ==> |cfg.messages[i]| < 65535
  }

  /** `pos` is the number of the next message the server would send. */
  datatype Server = Closed | Reading | Serving(pos: nat) | Over(pos: nat)

  datatype Net = Net(client: Session, up: seq<byte>, down: seq<byte>, server: Server)

  ghost predicate Init(cfg: Config, n: Net) {
    n == Net(Fresh(cfg.want, cfg.from), [], [], Closed)
  }

  /** A requested number of zero asks for the next message the session would generate. */
  function Position(cfg: Config, number: nat): nat {
    if number == 0 then |cfg.messages| + 1 else number
  }

  ghost predicate Connect(cfg: Config, n: Net, n': Net) {
    && n.server.Closed?
    && var c := Start(Reset(n.client), cfg.clientUser, cfg.clientPass);
       c.Some? && n' == Net(c.value.(out := []), c.value.out, [], Reading)
  }

  /** The server's answer to a login: reject it, or replay from the number asked for. */
  function Answer(cfg: Config, login: SoupPacket): (SoupPacket, Server)
    requires login.Login?
  {
    var pos := Position(cfg, login.number);
    if login.user != cfg.user || login.pass != cfg.pass then (Rejected('A' as int), Over(pos))
    else if login.session != [] && login.session != cfg.sid then (Rejected('S' as int), Over(pos))
    else (Accepted(cfg.sid, pos), Serving(pos))
  }

  ghost predicate ServerLogin(cfg: Config, n: Net, n': Net) {
    && n.server.Reading?
    && var d := Drain(FrameNext, n.up);
       && !d.corrupt && d.out != [] && d.out[0].Login?
       && var a := Answer(cfg, d.out[0]);
          && Fits(a.0)
          && n' == n.(up := [], down := n.down + Encode(a.0), server := a.1)
  }

  ghost predicate ServerBeat(n: Net, n': Net) {
    n.server.Serving? && n' == n.(down := n.down + Encode(Heartbeat))
  }

  ghost predicate ServerSend(cfg: Config, n: Net, n': Net) {
    && n.server.Serving? && 1 <= n.server.pos <= |cfg.messages|
    && var p := Data(cfg.messages[n.server.pos - 1]);
       Fits(p) && n' == n.(down := n.down + Encode(p), server := Serving(n.server.pos + 1))
  }

  ghost predicate ServerEnd(cfg: Config, n: Net, n': Net) {
    && n.server.Serving? && n.server.pos > |cfg.messages|
    && n' == n.(down := n.down + Encode(End), server := Over(n.server.pos))
  }

  /** The server closes early; what it has sent may still arrive. */
  ghost predicate ServerQuit(n: Net, n': Net) {
    n.server.Serving? && n' == n.(server := Over(n.server.pos))
  }

  /** One read of any size, mid-packet included. */
  ghost predicate Receive(n: Net, n': Net, k: nat) {
    && k <= |n.down| && !n.server.Closed?
    && var c := OnBytes(n.client, n.down[..k]);
       c.Some? && n' == n.(client := c.value, down := n.down[k..])
  }

  /** The connection is lost with everything in flight. */
  ghost predicate Drop(n: Net, n': Net) {
    n' == n.(up := [], down := [], server := Closed)
  }

  ghost predicate Next(cfg: Config, n: Net, n': Net) {
    || Connect(cfg, n, n')
    || ServerLogin(cfg, n, n')
    || ServerBeat(n, n')
    || ServerSend(cfg, n, n')
    || ServerEnd(cfg, n, n')
    || ServerQuit(n, n')
    || (exists k: nat :: Receive(n, n', k))
    || Drop(n, n')
  }

  ghost predicate IsRun(cfg: Config, run: seq<Net>) {
    && run != [] && Init(cfg, run[0])
    && forall i :: 0 <= i < |run| - 1 ==> Next(cfg, run[i], run[i + 1])
  }

  // --- the invariant ---------------------------------------------------------------

  /** `ps` leads a client expecting message `at` to expecting message `end`. */
  ghost predicate Follows(cfg: Config, ps: seq<SoupPacket>, at: nat, end: nat) {
    if ps == [] then at == end
    else
      match ps[0]
      case Accepted(s, q) => s == Strip(cfg.sid) && q == at && q > 0 && Follows(cfg, ps[1..], at, end)
      case Data(m) => 1 <= at <= |cfg.messages| && m == cfg.messages[at - 1] && Follows(cfg, ps[1..], at + 1, end)
      case End => at > |cfg.messages| && Follows(cfg, ps[1..], at, end)
      case Rejected(_) => Follows(cfg, ps[1..], at, end)
      case Heartbeat => Follows(cfg, ps[1..], at, end)
      case _ => false
  }

  /** Consecutive numbers from the one asked for, each with the stream's own message. */
  ghost predicate Consecutive(messages: seq<seq<byte>>, from: nat, log: seq<Delivery>)
    requires from > 0
  {
    forall i {:trigger log[i]} :: 0 <= i < |log| ==>
      && from + i <= |messages|
      && log[i].number == from + i
      && log[i].message == messages[from + i - 1]
  }

  /** The callback log is right, and the session expects the number after it. */
  ghost predicate Delivered(cfg: Config, c: Session) {
    && Position(cfg, c.nextSeq) == Position(cfg, cfg.from) + |c.delivered|
    && (c.nextSeq == 0 ==> cfg.from == 0)
    && Consecutive(cfg.messages, Position(cfg, cfg.from), c.delivered)
  }

  ghost predicate ClientOk(cfg: Config, c: Session) {
    && Delivered(cfg, c)
    && (c.id == Strip(cfg.sid) || c.id == cfg.want)
    && (c.phase == Live ==> c.id == Strip(cfg.sid))
    && (c.phase == Ended ==> Position(cfg, c.nextSeq) > |cfg.messages|)
  }

  /** `e` is packet `p` on the wire. */
  ghost predicate Coded(p: SoupPacket, e: seq<byte>) {
    e != [] && Framed(FrameNext, p, e)
  }

  /** The bytes are those of whole packets `ps`, coded as `es`. */
  ghost predicate Carries(bytes: seq<byte>, ps: seq<SoupPacket>, es: seq<seq<byte>>) {
    bytes == Joined(es) && AllCoded(ps, es)
  }

  ghost predicate AllCoded(ps: seq<SoupPacket>, es: seq<seq<byte>>) {
    |ps| == |es| && forall i :: 0 <= i < |ps| ==> Coded(ps[i], es[i])
  }

  ghost predicate Pending(cfg: Config, n: Net, ps: seq<SoupPacket>, es: seq<seq<byte>>) {
    && Carries(n.client.buf + n.down, ps, es)
    && match n.server
       case Closed => true
       case Reading =>
         var login := Login(cfg.clientUser, cfg.clientPass, n.client.id, n.client.nextSeq);
         ps == [] && Fits(login) && n.up == Encode(login)
       case Serving(pos) => pos > 0 && Follows(cfg, ps, Position(cfg, n.client.nextSeq), pos)
       case Over(pos) => Follows(cfg, ps, Position(cfg, n.client.nextSeq), pos)
  }

  ghost predicate Inv(cfg: Config, n: Net) {
    && ClientOk(cfg, n.client)
    && (n.server.Closed? || exists ps, es :: Pending(cfg, n, ps, es))
  }

  lemma {:induction false} JoinedAppend(encs: seq<seq<byte>>, e: seq<byte>)
    ensures Joined(encs + [e]) == Joined(encs) + e
  {
    if encs == [] {
      assert [e][1..] == [];
    } else {
      assert (encs + [e])[1..] == encs[1..] + [e];
      JoinedAppend(encs[1..], e);
    }
  }

  lemma CarriesAppend(buf: seq<byte>, down: seq<byte>, ps: seq<SoupPacket>, es: seq<seq<byte>>, p: SoupPacket,
    e: seq<byte>)
    requires Carries(buf + down, ps, es) && Coded(p, e)
    ensures Carries(buf + (down + e), ps + [p], es + [e])
  {
    JoinedAppend(es, e);
    CodedAppend(ps, es, p, e);
    assert buf + (down + e) == (buf + down) + e;
  }

  lemma CodedAppend(ps: seq<SoupPacket>, es: seq<seq<byte>>, p: SoupPacket, e: seq<byte>)
    requires AllCoded(ps, es) && Coded(p, e)
    ensures AllCoded(ps + [p], es + [e])
  {
    forall i | 0 <= i < |ps| + 1
      ensures Coded((ps + [p])[i], (es + [e])[i])
    {
      assert (ps + [p])[i] == if i < |ps| then ps[i] else p;
      assert (es + [e])[i] == if i < |ps| then es[i] else e;
    }
  }

  /** Sending one more packet that a client at `end` would take. */
  lemma {:induction false} FollowsAppend(cfg: Config, ps: seq<SoupPacket>, p: SoupPacket, at: nat, end: nat, end': nat)
    requires Follows(cfg, ps, at, end) && Follows(cfg, [p], end, end')
    ensures Follows(cfg, ps + [p], at, end')
    decreases ps
  {
    if ps == [] {
      assert ps + [p] == [p];
    } else {
      assert (ps + [p])[1..] == ps[1..] + [p];
      FollowsAppend(cfg, ps[1..], p, if ps[0].Data? then at + 1 else at, end, end');
    }
  }

  /** Handling the first `j` packets of such a list. */
  lemma {:induction false} HandleFollows(cfg: Config, c: Session, ps: seq<SoupPacket>, end: nat, j: nat)
    requires ClientOk(cfg, c) && Follows(cfg, ps, Position(cfg, c.nextSeq), end) && j <= |ps|
    ensures var c' := HandleAll(c, ps[..j]);
            ClientOk(cfg, c') && Follows(cfg, ps[j..], Position(cfg, c'.nextSeq), end)
    decreases j
  {
    if j == 0 {
      assert ps[..0] == [] && ps[0..] == ps;
    } else {
      assert ps[..j][0] == ps[0] && ps[..j][1..] == ps[1..][..j - 1] && ps[1..][j - 1..] == ps[j..];
      HandleFollows(cfg, Handle(c, ps[0]), ps[1..], end, j - 1);
    }
  }

  /** Reading `x` of the wire bytes of `ps` yields its first `j` packets. */
  lemma ReadWire(ps: seq<SoupPacket>, es: seq<seq<byte>>, x: seq<byte>, y: seq<byte>) returns (j: nat)
    requires Carries(x + y, ps, es)
    ensures j <= |ps| && (y == [] ==> j == |ps|)
    ensures Drain(FrameNext, x) == Drained(ps[..j], Drain(FrameNext, x).rest, 0, false)
    ensures Carries(Drain(FrameNext, x).rest + y, ps[j..], es[j..])
  {
    assert forall i :: 0 <= i < |ps| ==> Coded(ps[i], es[i]);
    j := DrainPrefix(FrameNext, ps, es, x, y);
  }

  /** A read of any size keeps the invariant, and never raises. */
  lemma ReceiveKeeps(cfg: Config, n: Net, ps: seq<SoupPacket>, es: seq<seq<byte>>, k: nat) returns (j: nat)
    requires ClientOk(cfg, n.client) && !n.server.Closed? && Pending(cfg, n, ps, es) && k <= |n.down|
    ensures OnBytes(n.client, n.down[..k]).Some?
    ensures var n' := n.(client := OnBytes(n.client, n.down[..k]).value, down := n.down[k..]);
            && ClientOk(cfg, n'.client) && j <= |ps| && Pending(cfg, n', ps[j..], es[j..])
                 && (k == |n.down| ==> j == |ps|)
            && n'.client.phase == HandleAll(n.client, ps[..j]).phase
  {
    var x, y := n.client.buf + n.down[..k], n.down[k..];
    assert x + y == n.client.buf + n.down;
    j := ReadWire(ps, es, x, y);
    var d := Drain(FrameNext, x);
    HandleBuf(n.client, ps[..j], d.rest);
    if n.server.Reading? {
      assert ps[..j] == [];
    } else {
      HandleFollows(cfg, n.client, ps, n.server.pos, j);
    }
  }

  lemma SendKeeps(cfg: Config, n: Net, ps: seq<SoupPacket>, es: seq<seq<byte>>, p: SoupPacket, e: seq<byte>,
    server: Server)
    requires ClientOk(cfg, n.client) && Pending(cfg, n, ps, es) && Coded(p, e)
    requires (n.server.Serving? || n.server.Over?) && (server.Serving? || server.Over?)
               && (server.Serving? ==> server.pos > 0)
    requires Follows(cfg, [p], n.server.pos, server.pos)
    ensures Pending(cfg, n.(down := n.down + e, server := server), ps + [p], es + [e])
  {
    CarriesAppend(n.client.buf, n.down, ps, es, p, e);
    FollowsAppend(cfg, ps, p, Position(cfg, n.client.nextSeq), n.server.pos, server.pos);
  }

  /** The server reads the login the client wrote, less the blanks at its edges. */
  lemma LoginArrives(login: SoupPacket)
    requires login.Login? && Fits(login)
    ensures Drain(FrameNext, Encode(login)) == Drained([Canonical(login)], [], 0, false)
  {
    PacketFramed(login);
    var encs := [Encode(login)];
    assert encs[1..] == [];
    assert Encode(login) + [] == Joined(encs);
    var j := DrainPrefix(FrameNext, [Canonical(login)], encs, Encode(login), []);
  }

  /** The client's next login always fits its fields. */
  lemma LoginFits(cfg: Config, c: Session)
    requires WellSized(cfg) && ClientOk(cfg, c)
    ensures Fits(Login(cfg.clientUser, cfg.clientPass, c.id, c.nextSeq))
    ensures Fits(Accepted(cfg.sid, Position(cfg, c.nextSeq)))
  {
    StripFits(cfg.sid);
    if |c.delivered| > 0 { assert c.delivered[|c.delivered| - 1].number <= |cfg.messages|; }
    DigitsWidth(c.nextSeq, SEQ_WIDTH);
    DigitsWidth(Position(cfg, c.nextSeq), SEQ_WIDTH);
  }

  lemma LoginKeeps(cfg: Config, n: Net, n': Net)
    requires WellSized(cfg) && Inv(cfg, n) && ServerLogin(cfg, n, n')
    ensures Inv(cfg, n')
  {
    var ps, es :| Pending(cfg, n, ps, es);
    var login := Login(cfg.clientUser, cfg.clientPass, n.client.id, n.client.nextSeq);
    LoginFits(cfg, n.client);
    LoginArrives(login);
    var a := Answer(cfg, Canonical(login));
    AnswerFollows(cfg, Canonical(login));
    AnswerSent(n.client.buf, n.down, a.0);
    assert Pending(cfg, n', [Canonical(a.0)], [Encode(a.0)]);
  }

  /** Nothing was on the wire before the answer. */
  lemma AnswerSent(buf: seq<byte>, down: seq<byte>, p: SoupPacket)
    requires Carries(buf + down, [], []) && Fits(p)
    ensures Carries(buf + (down + Encode(p)), [Canonical(p)], [Encode(p)])
  {
    PacketFramed(p);
    CarriesAppend(buf, down, [], [], Canonical(p), Encode(p));
    assert [] + [Canonical(p)] == [Canonical(p)] && [] + [Encode(p)] == [Encode(p)];
  }

  lemma AnswerFollows(cfg: Config, login: SoupPacket)
    requires login.Login?
    ensures var a := Answer(cfg, login); Follows(cfg, [Canonical(a.0)], Position(cfg, login.number), a.1.pos)
  {
    var p := Canonical(Answer(cfg, login).0);
    assert [p][1..] == [];
  }

  lemma OneSent(cfg: Config, n: Net, n': Net, p: SoupPacket)
    requires Inv(cfg, n) && n.server.Serving? && Fits(p)
    requires n'.server.Over? || (n'.server.Serving? && n'.server.pos > 0)
    requires n' == n.(down := n.down + Encode(p), server := n'.server)
    requires match p
             case Heartbeat => n'.server.pos == n.server.pos
             case End => n'.server.pos == n.server.pos > |cfg.messages|
             case Data(m) => 1 <= n.server.pos <= |cfg.messages| && m == cfg.messages[n.server.pos - 1]
               && n'.server.pos == n.server.pos + 1
             case _ => false
    ensures Inv(cfg, n')
  {
    var ps, es :| Pending(cfg, n, ps, es);
    assert [p][1..] == [];
    PacketFramed(p);
    SendKeeps(cfg, n, ps, es, p, Encode(p), n'.server);
    assert Pending(cfg, n', ps + [p], es + [Encode(p)]);
  }

  lemma ServerKeeps(cfg: Config, n: Net, n': Net)
    requires WellSized(cfg) && Inv(cfg, n)
    requires ServerBeat(n, n') || ServerSend(cfg, n, n') || ServerEnd(cfg, n, n') || ServerQuit(n, n')
    ensures Inv(cfg, n')
  {
    if ServerQuit(n, n') {
      var ps, es :| Pending(cfg, n, ps, es);
      assert Pending(cfg, n', ps, es);
    } else if ServerBeat(n, n') {
      OneSent(cfg, n, n', Heartbeat);
    } else if ServerEnd(cfg, n, n') {
      OneSent(cfg, n, n', End);
    } else {
      OneSent(cfg, n, n', Data(cfg.messages[n.server.pos - 1]));
    }
  }

  lemma StepKeeps(cfg: Config, n: Net, n': Net)
    requires WellSized(cfg) && Inv(cfg, n) && Next(cfg, n, n')
    ensures Inv(cfg, n')
  {
    if Connect(cfg, n, n') {
      LoginFits(cfg, n.client);
      assert Pending(cfg, n', [], []);
    } else if ServerLogin(cfg, n, n') {
      LoginKeeps(cfg, n, n');
    } else if ServerBeat(n, n') || ServerSend(cfg, n, n') || ServerEnd(cfg, n, n') || ServerQuit(n, n') {
      ServerKeeps(cfg, n, n');
    } else if k: nat :| Receive(n, n', k) {
      var ps, es :| Pending(cfg, n, ps, es);
      var j := ReceiveKeeps(cfg, n, ps, es, k);
      assert Pending(cfg, n', ps[j..], es[j..]);
    }
  }

  lemma {:induction false} RunKeeps(cfg: Config, run: seq<Net>, i: nat)
    requires WellSized(cfg) && IsRun(cfg, run) && i < |run|
    ensures Inv(cfg, run[i])
  {
    if i > 0 {
      RunKeeps(cfg, run, i - 1);
      StepKeeps(cfg, run[i - 1], run[i]);
    }
  }

  // --- the results -----------------------------------------------------------------

  /** Exactly once: in every run, over any splitting, loss and re-login, the
      messages handed on are the stream's own, numbered consecutively from the
      requested one, with none missing or repeated. */
  lemma ExactlyOnce(cfg: Config, run: seq<Net>, i: nat)
    requires WellSized(cfg) && IsRun(cfg, run) && i < |run| && cfg.from > 0
    ensures run[i].client.nextSeq == cfg.from + |run[i].client.delivered|
    ensures Consecutive(cfg.messages, cfg.from, run[i].client.delivered)
  {
    RunKeeps(cfg, run, i);
  }

  /** A session that is live is the server's, whatever the client asked for, and it is
      the one a later login asks for. */
  lemma SessionAdopted(cfg: Config, run: seq<Net>, i: nat)
    requires WellSized(cfg) && IsRun(cfg, run) && i < |run| && run[i].client.phase == Live
    ensures run[i].client.id == Strip(cfg.sid)
    ensures var again := Start(Reset(run[i].client), cfg.clientUser, cfg.clientPass);
            again.Some? && again.value.id == Strip(cfg.sid) && again.value.nextSeq == run[i].client.nextSeq
  {
    RunKeeps(cfg, run, i);
    LoginFits(cfg, run[i].client);
  }

  /** End of session is believed only once everything has been delivered. */
  lemma EndMeansComplete(cfg: Config, run: seq<Net>, i: nat)
    requires WellSized(cfg) && IsRun(cfg, run) && i < |run| && cfg.from > 0
    requires run[i].client.phase == Ended
    ensures |run[i].client.delivered| == if cfg.from <= |cfg.messages| then |cfg.messages| + 1 - cfg.from else 0
  {
    RunKeeps(cfg, run, i);
    EndedComplete(cfg, run[i].client);
  }

  lemma EndedComplete(cfg: Config, c: Session)
    requires ClientOk(cfg, c) && c.phase == Ended && cfg.from > 0
    ensures |c.delivered| == if cfg.from <= |cfg.messages| then |cfg.messages| + 1 - cfg.from else 0
  {
    var log := c.delivered;
    if |log| > 0 { assert log[|log| - 1].number <= |cfg.messages|; }
  }

  /** No read raises and no login overflows its fields, in any run. */
  lemma NeverRaises(cfg: Config, run: seq<Net>, i: nat, k: nat)
    requires WellSized(cfg) && IsRun(cfg, run) && i < |run|
    ensures !run[i].server.Closed? && k <= |run[i].down| ==> OnBytes(run[i].client, run[i].down[..k]).Some?
    ensures Start(Reset(run[i].client), cfg.clientUser, cfg.clientPass).Some?
  {
    var n := run[i];
    RunKeeps(cfg, run, i);
    LoginFits(cfg, n.client);
    if !n.server.Closed? && k <= |n.down| {
      var ps, es :| Pending(cfg, n, ps, es);
      var j := ReceiveKeeps(cfg, n, ps, es, k);
    }
  }

  // --- nothing is lost for good ------------------------------------------------------

  ghost predicate IsPath(cfg: Config, path: seq<Net>, n: Net, n': Net) {
    && path != [] && path[0] == n && path[|path| - 1] == n'
    && forall i :: 0 <= i < |path| - 1 ==> Next(cfg, path[i], path[i + 1])
  }

  ghost predicate Leads(cfg: Config, n: Net, n': Net) {
    exists path :: IsPath(cfg, path, n, n')
  }

  lemma LeadsStep(cfg: Config, n: Net, n1: Net, n2: Net)
    requires Leads(cfg, n, n1) && Next(cfg, n1, n2)
    ensures Leads(cfg, n, n2)
  {
    var path :| IsPath(cfg, path, n, n1);
    assert IsPath(cfg, path + [n2], n, n2);
  }

  /** Drop the connection, connect again and have the login accepted. */
  lemma Relogin(cfg: Config, n: Net) returns (n': Net)
    requires WellSized(cfg) && Inv(cfg, n) && Welcome(cfg)
    ensures Leads(cfg, n, n') && Inv(cfg, n') && n'.server.Serving?
  {
    assert IsPath(cfg, [n], n, n);
    var n1 := n.(up := [], down := [], server := Closed);
    LeadsStep(cfg, n, n, n1);
    LoginFits(cfg, n1.client);
    var login := Login(cfg.clientUser, cfg.clientPass, n1.client.id, n1.client.nextSeq);
    var c := Start(Reset(n1.client), cfg.clientUser, cfg.clientPass).value;
    var n2 := Net(c.(out := []), c.out, [], Reading);
    assert c.out == Encode(login);
    assert Connect(cfg, n1, n2);
    LeadsStep(cfg, n, n1, n2);
    StepKeeps(cfg, n1, n2);
    LoginArrives(login);
    var a := Answer(cfg, Canonical(login));
    assert Fits(a.0);
    n' := n2.(up := [], down := n2.down + Encode(a.0), server := a.1);
    assert ServerLogin(cfg, n2, n');
    LeadsStep(cfg, n, n2, n');
    StepKeeps(cfg, n2, n');
  }

  /** The server would accept this client, now and when it resumes. */
  ghost predicate Welcome(cfg: Config) {
    && TrimSpaces(cfg.clientUser) == cfg.user && TrimSpaces(cfg.clientPass) == cfg.pass
    && Strip(cfg.sid) == cfg.sid && (Strip(cfg.want) == [] || Strip(cfg.want) == cfg.sid)
  }

  /** Send the rest of the stream. */
  lemma {:induction false} SendRest(cfg: Config, n: Net, n1: Net) returns (n': Net)
    requires WellSized(cfg) && Leads(cfg, n, n1) && Inv(cfg, n1) && n1.server.Serving?
    ensures Leads(cfg, n, n') && Inv(cfg, n') && n'.server.Serving? && n'.server.pos > |cfg.messages|
    decreases |cfg.messages| + 1 - n1.server.pos
  {
    var ps, es :| Pending(cfg, n1, ps, es);
    if n1.server.pos > |cfg.messages| {
      n' := n1;
    } else {
      var p := Data(cfg.messages[n1.server.pos - 1]);
      var n2 := n1.(down := n1.down + Encode(p), server := Serving(n1.server.pos + 1));
      assert ServerSend(cfg, n1, n2);
      LeadsStep(cfg, n, n1, n2);
      StepKeeps(cfg, n1, n2);
      n' := SendRest(cfg, n, n2);
    }
  }

  lemma {:induction false} HandleLast(c: Session, ps: seq<SoupPacket>)
    requires ps != [] && ps[|ps| - 1] == End
    ensures HandleAll(c, ps).phase == Ended
    decreases |ps|
  {
    if |ps| > 1 { HandleLast(Handle(c, ps[0]), ps[1..]); }
  }

  /** The server ends a session it has sent whole. */
  lemma SendEnd(cfg: Config, n: Net) returns (n': Net, ps: seq<SoupPacket>, es: seq<seq<byte>>)
    requires Inv(cfg, n) && n.server.Serving? && n.server.pos > |cfg.messages|
    ensures Next(cfg, n, n') && ClientOk(cfg, n'.client) && n'.server.Over?
    ensures Pending(cfg, n', ps + [End], es + [Encode(End)])
  {
    ps, es :| Pending(cfg, n, ps, es);
    n' := n.(down := n.down + Encode(End), server := Over(n.server.pos));
    assert ServerEnd(cfg, n, n');
    assert [End][1..] == [];
    PacketFramed(End);
    SendKeeps(cfg, n, ps, es, End, Encode(End), n'.server);
  }

  /** The client reads everything up to the end. */
  lemma ReadEnd(cfg: Config, n: Net, ps: seq<SoupPacket>, es: seq<seq<byte>>) returns (n': Net)
    requires ClientOk(cfg, n.client) && n.server.Over? && Pending(cfg, n, ps + [End], es + [Encode(End)])
    ensures Next(cfg, n, n') && ClientOk(cfg, n'.client) && n'.client.phase == Ended
  {
    var k := |n.down|;
    var j := ReceiveKeeps(cfg, n, ps + [End], es + [Encode(End)], k);
    n' := n.(client := OnBytes(n.client, n.down[..k]).value, down := n.down[k..]);
    assert Receive(n, n', k);
    assert (ps + [End])[..j] == ps + [End];
    HandleLast(n.client, ps + [End]);
  }

  /** From every reachable state the session can still be completed. */
  lemma CanComplete(cfg: Config, run: seq<Net>, i: nat) returns (n': Net)
    requires WellSized(cfg) && Welcome(cfg) && IsRun(cfg, run) && i < |run| && cfg.from > 0
    ensures Leads(cfg, run[i], n') && n'.client.phase == Ended
    ensures |n'.client.delivered| == if cfg.from <= |cfg.messages| then |cfg.messages| + 1 - cfg.from else 0
  {
    var n := run[i];
    RunKeeps(cfg, run, i);
    var n1 := Relogin(cfg, n);
    var n2 := SendRest(cfg, n, n1);
    var n3, ps, es := SendEnd(cfg, n2);
    LeadsStep(cfg, n, n2, n3);
    n' := ReadEnd(cfg, n3, ps, es);
    LeadsStep(cfg, n, n3, n');
    EndedComplete(cfg, n'.client);
  }
}
