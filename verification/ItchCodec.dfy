/** Unsigned big-endian numbers of a fixed width. */
module BigEndian {
  import opened Framing

  function Pow256(k: nat): nat {
    if k == 0 then 1 else 256 * Pow256(k - 1)
  }

  function Put(n: nat, size: nat): (b: seq<byte>)
    ensures |b| == size
  {
    if size == 0 then [] else Put(n / 256, size - 1) + [n % 256]
  }

  function Get(b: seq<byte>): nat {
    if b == [] then 0 else Get(b[..|b| - 1]) * 256 + b[|b| - 1]
  }

  lemma {:induction false} GetPut(n: nat, size: nat)
    requires n < Pow256(size)
    ensures Get(Put(n, size)) == n
    decreases size
  {
    if size > 0 {
      GetPut(n / 256, size - 1);
      assert Put(n, size)[..size - 1] == Put(n / 256, size - 1);
    }
  }

  lemma {:induction false} PutGet(b: seq<byte>)
    ensures Get(b) < Pow256(|b|) && Put(Get(b), |b|) == b
  {
    if b != [] { PutGet(b[..|b| - 1]); }
  }

  // --- octet by octet -------------------------------------------------------------------

  lemma QuotientIs(x: nat, d: nat, q: nat, r: nat)
    requires x == d * q + r && r < d
    ensures x / d == q
  {
    var p := x / d;
    assert x == d * p + x % d;
    if q < p { Grows(d, q + 1, p); } else if p < q { Grows(d, p + 1, q); }
  }

  lemma Grows(d: nat, a: nat, b: nat)
    requires a <= b
    ensures d * a <= d * b
  {
  }

  /** Octet `k` of a number, counted from the least significant. */
  function Octet(n: nat, k: nat): nat {
    PowPositive(k);
    n / Pow256(k) % 256
  }

  lemma {:induction false} PowPositive(k: nat)
    ensures Pow256(k) > 0
  {
    if k > 0 { PowPositive(k - 1); }
  }

  /** Dividing twice is dividing by the product. */
  lemma DivideTwice(x: nat, a: nat, p: nat)
    requires a > 0 && p > 0
    ensures a * p > 0 && x / a / p == x / (a * p)
  {
    var y, z := x / a, x / a / p;
    var r, s := x % a, y % p;
    Regroup(x, a, p, y, z, r, s);
    QuotientIs(x, a * p, z, a * s + r);
  }

  lemma Regroup(x: nat, a: nat, p: nat, y: nat, z: nat, r: nat, s: nat)
    requires x == a * y + r && y == p * z + s && r < a && s < p
    ensures x == (a * p) * z + (a * s + r) && a * s + r < a * p
  {
    Spreads(a, p * z, s);
    Associates(a, p, z);
    Spreads(a, s, 1);
    Grows(a, s + 1, p);
  }

  lemma Spreads(a: nat, x: nat, y: nat)
    ensures a * (x + y) == a * x + a * y
  {
  }

  lemma Associates(a: nat, x: nat, y: nat)
    ensures a * (x * y) == (a * x) * y
  {
  }

  /** The most significant octet comes first. */
  lemma {:induction false} PutOctet(n: nat, size: nat, i: nat)
    requires i < size
    ensures Put(n, size)[i] == Octet(n, size - 1 - i)
    decreases size
  {
    PowPositive(size - 1 - i);
    if i < size - 1 {
      PutOctet(n / 256, size - 1, i);
      PowPositive(size - 2 - i);
      DivideTwice(n, 256, Pow256(size - 2 - i));
    }
  }

  lemma GetOctet(b: seq<byte>, i: nat)
    requires i < |b|
    ensures b[i] == Octet(Get(b), |b| - 1 - i)
  {
    PutGet(b);
    PutOctet(Get(b), |b|, i);
  }
}

/** The schema-driven codec, for any table of message layouts. */
module ItchCodec {
  import opened Framing
  import opened Decimal
  import opened SoupWire
  import opened Itch
  import BigEndian

  datatype Field = Num(size: nat) | Alpha(size: nat)

  type Layout = seq<Field>

  type Schemas = map<byte, Layout>

  datatype Value = Number(n: nat) | Text(text: seq<byte>)

  datatype Message = Message(kind: byte, values: seq<Value>)

  function Length(l: Layout): nat {
    if l == [] then 0 else l[0].size + Length(l[1..])
  }

  // --- fields -----------------------------------------------------------------------

  /** The value fits: a number in range, or ASCII text no wider than the field. */
  predicate FieldFits(f: Field, v: Value) {
    match f
    case Num(size) => v.Number? && v.n < BigEndian.Pow256(size)
    case Alpha(size) => v.Text? && Ascii(v.text) && |v.text| <= size
  }

  function EncodeField(f: Field, v: Value): seq<byte>
    requires FieldFits(f, v)
  {
    match f
    case Num(size) => BigEndian.Put(v.n, size)
    case Alpha(size) => PadRight(v.text, size)
  }

  function DecodeField(f: Field, b: seq<byte>): Option<Value>
    requires |b| == f.size
  {
    match f
    case Num(_) => Some(Number(BigEndian.Get(b)))
    case Alpha(_) => if Ascii(b) then Some(Text(TrimSpaces(b))) else None
  }

  /** Decoding drops the trailing spaces of text. */
  function Trimmed(v: Value): Value {
    match v
    case Number(_) => v
    case Text(t) => Text(TrimSpaces(t))
  }

  lemma FieldRoundTrip(f: Field, v: Value)
    requires FieldFits(f, v)
    ensures |EncodeField(f, v)| == f.size && DecodeField(f, EncodeField(f, v)) == Some(Trimmed(v))
  {
    match f
    case Num(size) => BigEndian.GetPut(v.n, size);
    case Alpha(size) => TrimPadding(v.text, size - |v.text|);
  }

  lemma {:induction false} TrimRestores(b: seq<byte>)
    ensures |TrimSpaces(b)| <= |b| && TrimSpaces(b) + Spaces(|b| - |TrimSpaces(b)|) == b
    ensures Ascii(b) ==> Ascii(TrimSpaces(b))
  {
    if b != [] && b[|b| - 1] == SPACE {
      var front := b[..|b| - 1];
      TrimRestores(front);
      var k := |b| - |TrimSpaces(b)|;
      assert Spaces(k) == Spaces(k - 1) + [SPACE];
      assert b == front + [SPACE];
    }
  }

  lemma BytesRoundTrip(f: Field, b: seq<byte>)
    requires |b| == f.size && DecodeField(f, b).Some?
    ensures var v := DecodeField(f, b).value; FieldFits(f, v) && EncodeField(f, v) == b && Trimmed(v) == v
  {
    match f
    case Num(_) => BigEndian.PutGet(b);
    case Alpha(_) =>
      TrimRestores(b);
      TrimTwice(b);
  }

  lemma {:induction false} TrimTwice(b: seq<byte>)
    ensures TrimSpaces(TrimSpaces(b)) == TrimSpaces(b)
  {
    if b != [] && b[|b| - 1] == SPACE { TrimTwice(b[..|b| - 1]); }
  }

  // --- layouts ----------------------------------------------------------------------

  predicate Fits(l: Layout, vs: seq<Value>) {
    |l| == |vs| && (l != [] ==> FieldFits(l[0], vs[0]) && Fits(l[1..], vs[1..]))
  }

  function EncodeFields(l: Layout, vs: seq<Value>): seq<byte>
    requires Fits(l, vs)
  {
    if l == [] then [] else EncodeField(l[0], vs[0]) + EncodeFields(l[1..], vs[1..])
  }

  function DecodeFields(l: Layout, b: seq<byte>): Option<seq<Value>>
    requires |b| == Length(l)
  {
    if l == [] then Some([])
    else
      var v := DecodeField(l[0], b[..l[0].size]);
      var vs := DecodeFields(l[1..], b[l[0].size..]);
      if v.None? || vs.None? then None else Some([v.value] + vs.value)
  }

  function AllTrimmed(vs: seq<Value>): seq<Value> {
    if vs == [] then [] else [Trimmed(vs[0])] + AllTrimmed(vs[1..])
  }

  lemma {:induction false} FieldsRoundTrip(l: Layout, vs: seq<Value>)
    requires Fits(l, vs)
    ensures |EncodeFields(l, vs)| == Length(l) && DecodeFields(l, EncodeFields(l, vs)) == Some(AllTrimmed(vs))
  {
    if l != [] {
      FieldRoundTrip(l[0], vs[0]);
      FieldsRoundTrip(l[1..], vs[1..]);
      var b := EncodeFields(l, vs);
      assert b[..l[0].size] == EncodeField(l[0], vs[0]) && b[l[0].size..] == EncodeFields(l[1..], vs[1..]);
    }
  }

  lemma ConsFields(l: Layout, v: Value, vs: seq<Value>)
    requires l != [] && FieldFits(l[0], v) && Fits(l[1..], vs)
    ensures Fits(l, [v] + vs)
    ensures EncodeFields(l, [v] + vs) == EncodeField(l[0], v) + EncodeFields(l[1..], vs)
    ensures AllTrimmed([v] + vs) == [Trimmed(v)] + AllTrimmed(vs)
  {
    assert ([v] + vs)[1..] == vs;
  }

  lemma {:induction false} BufferFields(l: Layout, b: seq<byte>)
    requires |b| == Length(l) && DecodeFields(l, b).Some?
    ensures var vs := DecodeFields(l, b).value; Fits(l, vs) && EncodeFields(l, vs) == b && AllTrimmed(vs) == vs
  {
    if l != [] {
      var n := l[0].size;
      var v, vs := DecodeField(l[0], b[..n]).value, DecodeFields(l[1..], b[n..]).value;
      BytesRoundTrip(l[0], b[..n]);
      BufferFields(l[1..], b[n..]);
      ConsFields(l, v, vs);
      assert b == b[..n] + b[n..];
    }
  }

  /** Every text field of the buffer is ASCII. */
  predicate TextAscii(l: Layout, b: seq<byte>)
    requires |b| == Length(l)
  {
    l != [] ==> (l[0].Alpha? ==> Ascii(b[..l[0].size])) && TextAscii(l[1..], b[l[0].size..])
  }

  lemma {:induction false} DecodesAscii(l: Layout, b: seq<byte>)
    requires |b| == Length(l)
    ensures DecodeFields(l, b).Some? <==> TextAscii(l, b)
  {
    if l != [] { DecodesAscii(l[1..], b[l[0].size..]); }
  }

  // --- messages ----------------------------------------------------------------------

  /** The type byte and its fields; none where the encoder raises. */
  function Encode(t: Schemas, m: Message): Option<seq<byte>> {
    if m.kind in t && Fits(t[m.kind], m.values) then Some([m.kind] + EncodeFields(t[m.kind], m.values)) else None
  }

  /** Exactly one whole message; none where the decoder raises. */
  function Decode(t: Schemas, b: seq<byte>): Option<Message> {
    if b == [] || b[0] !in t || |b| != 1 + Length(t[b[0]]) then None
    else
      var vs := DecodeFields(t[b[0]], b[1..]);
      if vs.None? then None else Some(Message(b[0], vs.value))
  }

  /** Encoding then decoding returns the message with trailing spaces dropped, so
      it returns the message itself exactly when no text has any. */
  lemma MessageRoundTrip(t: Schemas, m: Message)
    requires m.kind in t && Fits(t[m.kind], m.values)
    ensures Decode(t, Encode(t, m).value) == Some(m.(values := AllTrimmed(m.values)))
    ensures Decode(t, Encode(t, m).value) == Some(m) <==> AllTrimmed(m.values) == m.values
  {
    FieldsRoundTrip(t[m.kind], m.values);
    assert Encode(t, m).value[1..] == EncodeFields(t[m.kind], m.values);
  }

  /** Decoding then encoding returns the very bytes. */
  lemma BufferRoundTrip(t: Schemas, b: seq<byte>)
    requires Decode(t, b).Some?
    ensures Encode(t, Decode(t, b).value) == Some(b)
  {
    var kind, body := b[0], b[1..];
    BufferFields(t[kind], body);
    assert Decode(t, b).value == Message(kind, DecodeFields(t[kind], body).value);
    assert b == [kind] + body;
  }

  /** A buffer is accepted exactly when its type is known, its length is that
      type's, and its text is ASCII. */
  lemma DecodeExact(t: Schemas, b: seq<byte>)
    ensures Decode(t, b).Some? <==> b != [] && b[0] in t && |b| == 1 + Length(t[b[0]]) && TextAscii(t[b[0]], b[1..])
  {
    if b != [] && b[0] in t && |b| == 1 + Length(t[b[0]]) { DecodesAscii(t[b[0]], b[1..]); }
  }

  // --- the feed's own layouts ----------------------------------------------------------

  const STATE_LAYOUT: Layout := [Num(4), Alpha(4), Alpha(4), Alpha(1)]
  const ADD_LAYOUT: Layout := [Num(4), Num(8), Alpha(1), Num(4), Alpha(4), Alpha(4), Num(4)]

  /** Layout of each ITCH message type; prices are numbers. */
  function ItchLayout(kind: char): Option<Layout> {
    match kind
    case 'T' => Some([Num(4)])
    case 'S' => Some([Num(4), Alpha(4), Alpha(1)])
    case 'L' => Some([Num(4), Num(4), Num(4), Num(4)])
    case 'R' => Some([Num(4), Alpha(4), Alpha(12), Alpha(4), Num(4), Num(4), Num(4), Num(4), Num(4)])
    case 'H' => Some(STATE_LAYOUT)
    case 'Y' => Some(STATE_LAYOUT)
    case 'A' => Some(ADD_LAYOUT)
    case 'F' => Some(ADD_LAYOUT + [Alpha(4), Alpha(1)])
    case 'E' => Some([Num(4), Num(8), Num(4), Num(8)])
    case 'D' => Some([Num(4), Num(8)])
    case 'U' => Some([Num(4), Num(8), Num(8), Num(4), Num(4)])
    case 'G' => Some([Num(8)])
    case _ => None
  }

  /** Whole-message lengths as the feed's specification lists them. */
  function ItchLength(kind: char): nat {
    match kind
    case 'T' => 5
    case 'S' => 10
    case 'L' => 17
    case 'R' => 45
    case 'H' => 14
    case 'Y' => 14
    case 'A' => 30
    case 'F' => 35
    case 'E' => 25
    case 'D' => 13
    case 'U' => 29
    case 'G' => 9
    case _ => 0
  }

  /** The sizes of the first `k` fields. */
  function SumTo(l: Layout, k: nat): nat
    requires k <= |l|
  {
    if k == 0 then 0 else SumTo(l, k - 1) + l[k - 1].size
  }

  lemma {:induction false} SumFrom(l: Layout, k: nat)
    requires k <= |l|
    ensures SumTo(l, k) + Length(l[k..]) == Length(l)
  {
    if k == 0 {
      assert l[0..] == l;
    } else {
      SumFrom(l, k - 1);
      assert l[k - 1..][1..] == l[k..];
    }
  }

  lemma LengthSum(l: Layout)
    ensures Length(l) == SumTo(l, |l|)
  {
    SumFrom(l, |l|);
    assert l[|l|..] == [];
  }

  /** Two fields more. */
  lemma SumTwo(l: Layout, k: nat)
    requires k + 2 <= |l|
    ensures SumTo(l, k + 2) == SumTo(l, k) + l[k].size + l[k + 1].size
  {
  }

  lemma {:induction false} ShortSum(l: Layout)
    requires 1 <= |l| <= 4
    ensures |l| == 1 ==> Length(l) == l[0].size
    ensures |l| == 2 ==> Length(l) == l[0].size + l[1].size
    ensures |l| == 3 ==> Length(l) == l[0].size + l[1].size + l[2].size
    ensures |l| == 4 ==> Length(l) == l[0].size + l[1].size + l[2].size + l[3].size
  {
    LengthSum(l);
    if |l| >= 2 { SumTwo(l, |l| - 2); }
    if |l| == 4 { SumTwo(l, 0); }
    if |l| == 3 { assert SumTo(l, 1) == SumTo(l, 0) + l[0].size; }
  }

  lemma LongSum(l: Layout)
    requires 5 <= |l| <= 9 && |l| % 2 == 1
    ensures var four := l[0].size + l[1].size + l[2].size + l[3].size;
            && (|l| == 5 ==> Length(l) == four + l[4].size)
            && (|l| == 7 ==> Length(l) == four + l[4].size + l[5].size + l[6].size)
            && (|l| == 9 ==> Length(l) == four + l[4].size + l[5].size + l[6].size + l[7].size + l[8].size)
  {
    LengthSum(l);
    SumTwo(l, 0);
    SumTwo(l, 2);
    if |l| >= 7 { SumTwo(l, 4); }
    if |l| == 9 { SumTwo(l, 6); }
  }

  lemma ShortLayout(kind: char)
    requires ItchLayout(kind).Some? && kind != 'R' && kind != 'A' && kind != 'F' && kind != 'U'
    ensures 1 + Length(ItchLayout(kind).value) == ItchLength(kind)
  {
    var l := ItchLayout(kind).value;
    assert 1 <= |l| <= 4;
    ShortSum(l);
  }

  lemma LongLayout(kind: char)
    requires kind == 'R' || kind == 'A' || kind == 'F' || kind == 'U'
    ensures 1 + Length(ItchLayout(kind).value) == ItchLength(kind)
  {
    LongSum(ItchLayout(kind).value);
  }

  /** Each layout adds up to its listed length. */
  lemma LayoutLengths(kind: char)
    requires ItchLayout(kind).Some?
    ensures 1 + Length(ItchLayout(kind).value) == ItchLength(kind)
  {
    if kind == 'R' || kind == 'A' || kind == 'F' || kind == 'U' {
      LongLayout(kind);
    } else {
      ShortLayout(kind);
    }
  }
}
