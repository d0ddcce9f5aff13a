/** Unsigned decimal text, and the 20-byte sequence field of SoupBinTCP. */
module Decimal {
  import opened Framing

  const SPACE: byte := 32
  const ZERO: byte := 48
  const U64: nat := 0x1_0000_0000_0000_0000
  const SEQ_WIDTH: nat := 20

  predicate IsDigit(c: byte) {
    48 <= c <= 57
  }

  predicate AllDigits(s: seq<byte>) {
    forall i :: 0 <= i < |s| ==> IsDigit(s[i])
  }

  /** Shortest decimal text of `n`. */
  function Digits(n: nat): seq<byte> {
    if n < 10 then [ZERO + n] else Digits(n / 10) + [ZERO + n % 10]
  }

  /** The number a digit string denotes. */
  function Value(s: seq<byte>): nat
    requires AllDigits(s)
  {
    if s == [] then 0 else Value(s[..|s| - 1]) * 10 + (s[|s| - 1] - ZERO)
  }

  function Pow10(k: nat): nat {
    if k == 0 then 1 else 10 * Pow10(k - 1)
  }

  lemma {:induction false} ValueDigits(n: nat)
    ensures Digits(n) != [] && AllDigits(Digits(n)) && Value(Digits(n)) == n
  {
    var ds := Digits(n);
    if n >= 10 {
      ValueDigits(n / 10);
      assert ds[..|ds| - 1] == Digits(n / 10);
    } else {
      assert ds[..|ds| - 1] == [];
    }
  }

  lemma {:induction false} DigitsWidth(n: nat, k: nat)
    requires k > 0
    ensures |Digits(n)| <= k <==> n < Pow10(k)
    decreases k
  {
    if k == 1 {
      assert Pow10(1) == 10;
    } else if n < 10 {
      DigitsWidth(n, k - 1);
    } else {
      DigitsWidth(n / 10, k - 1);
    }
  }

  /** Reading a digit string from the left never passes the final value. */
  lemma {:induction false} PartialValue(s: seq<byte>, i: nat)
    requires AllDigits(s) && i <= |s|
    ensures Value(s[..i]) <= Value(s)
    decreases |s| - i
  {
    if i < |s| {
      PartialValue(s, i + 1);
      assert s[..i + 1][..i] == s[..i];
    } else {
      assert s[..i] == s;
    }
  }

  function Spaces(n: nat): seq<byte> {
    seq(n, _ => SPACE)
  }

  // --- the C++ field ----------------------------------------------------------------

  function SkipSpaces(s: seq<byte>): seq<byte> {
    if s != [] && s[0] == SPACE then SkipSpaces(s[1..]) else s
  }

  lemma {:induction false} SkipPadding(n: nat, s: seq<byte>)
    requires s != [] ==> s[0] != SPACE
    ensures SkipSpaces(Spaces(n) + s) == s
  {
    if n == 0 {
      assert Spaces(0) + s == s;
    } else {
      assert (Spaces(n) + s)[1..] == Spaces(n - 1) + s;
      SkipPadding(n - 1, s);
    }
  }

  /** Render in `width` bytes, keeping the leading digits if they do not fit. */
  function PutSeqField(width: nat, v: nat): (p: seq<byte>)
    ensures |p| == width
  {
    var d := Digits(v);
    var n := if |d| > width then width else |d|;
    Spaces(width - n) + d[..n]
  }

  /** What a field stands for when it is well formed: spaces, then one digit or more. */
  predicate WellFormed(p: seq<byte>) {
    SkipSpaces(p) != [] && AllDigits(SkipSpaces(p))
  }

  lemma {:induction false} SkipFrom(p: seq<byte>, i: nat)
    requires i <= |p| && forall j :: 0 <= j < i ==> p[j] == SPACE
    ensures SkipSpaces(p) == SkipSpaces(p[i..])
  {
    if i > 0 {
      assert p[1..][i - 1..] == p[i..];
      SkipFrom(p[1..], i - 1);
    } else {
      assert p[0..] == p;
    }
  }

  /** The parser over a 64-bit accumulator: it accepts exactly the well-formed
      fields and yields their value modulo 2^64. */
  method ParseSeqField(p: seq<byte>) returns (ok: bool, v: nat)
    ensures ok == WellFormed(p)
    ensures ok ==> v == Value(SkipSpaces(p)) % U64
    ensures ok ==> (v == Value(SkipSpaces(p)) <==> Value(SkipSpaces(p)) < U64)
  {
    var i := 0;
    v := 0;
    while i < |p| && p[i] == SPACE
      invariant i <= |p| && forall j :: 0 <= j < i ==> p[j] == SPACE
    {
      i := i + 1;
    }
    ghost var ds := p[i..];
    SkipFrom(p, i);
    if i == |p| { return false, 0; }
    ghost var start := i;
    while i < |p|
      invariant start <= i <= |p|
      invariant AllDigits(p[start..i])
      invariant v == Value(p[start..i]) % U64
    {
      if !IsDigit(p[i]) {
        assert ds[i - start] == p[i];
        return false, 0;
      }
      DigitStep(p, start, i);
      v := (v * 10 + (p[i] - ZERO)) % U64;
      i := i + 1;
    }
    assert p[start..i] == ds;
    return true, v;
  }

  /** One more digit, into a wrapping accumulator. */
  lemma DigitStep(p: seq<byte>, start: nat, i: nat)
    requires start <= i < |p| && AllDigits(p[start..i]) && IsDigit(p[i])
    ensures AllDigits(p[start..i + 1])
    ensures ((Value(p[start..i]) % U64) * 10 + (p[i] - ZERO)) % U64 == Value(p[start..i + 1]) % U64
  {
    var taken := p[start..i + 1];
    assert taken[..i - start] == p[start..i];
    assert forall j :: 0 <= j < |taken| ==> taken[j] == if j < i - start then p[start..i][j] else p[i];
    WrapStep(Value(p[start..i]), p[i] - ZERO);
  }

  /** Wrapping before a step or after it gives the same accumulator. */
  lemma WrapStep(x: nat, d: nat)
    ensures ((x % U64) * 10 + d) % U64 == (x * 10 + d) % U64
  {
    var q, r := x / U64, x % U64;
    var q', r' := (r * 10 + d) / U64, (r * 10 + d) % U64;
    Remainder(x * 10 + d, q * 10 + q', r');
  }

  lemma Remainder(x: nat, q: nat, r: nat)
    requires x == 0x1_0000_0000_0000_0000 * q + r && r < 0x1_0000_0000_0000_0000
    ensures x % U64 == r
  {
  }

  lemma FitsWidth()
    ensures U64 < Pow10(SEQ_WIDTH)
  {
    assert Pow10(5) == 100_000;
    assert Pow10(10) == 100_000 * Pow10(5);
    assert Pow10(15) == 100_000 * Pow10(10);
    assert Pow10(20) == 100_000 * Pow10(15);
  }

  /** Every number of up to 20 digits can be read off its field. */
  lemma SeqFieldText(v: nat)
    requires v < Pow10(SEQ_WIDTH)
    ensures SkipSpaces(PutSeqField(SEQ_WIDTH, v)) == Digits(v)
    ensures WellFormed(PutSeqField(SEQ_WIDTH, v)) && Value(SkipSpaces(PutSeqField(SEQ_WIDTH, v))) == v
  {
    DigitsWidth(v, SEQ_WIDTH);
    ValueDigits(v);
    var d := Digits(v);
    assert d[..|d|] == d;
    SkipPadding(SEQ_WIDTH - |d|, d);
  }

  /** Every 64-bit number survives the 20-byte field, and no partial sum of the
      parser on it reaches 2^64. */
  lemma SeqFieldRoundTrip(v: nat)
    requires v < U64
    ensures var p := PutSeqField(SEQ_WIDTH, v);
            && WellFormed(p) && Value(SkipSpaces(p)) == v
            && forall i :: 0 <= i <= |SkipSpaces(p)| ==>
                 AllDigits(SkipSpaces(p)[..i]) && Value(SkipSpaces(p)[..i]) < U64
  {
    FitsWidth();
    SeqFieldText(v);
    var d := Digits(v);
    forall i | 0 <= i <= |d|
      ensures AllDigits(d[..i]) && Value(d[..i]) < U64
    {
      PartialValue(d, i);
    }
  }

  /** The field of 2^64 itself, 20 digits long, is well formed, and the parser's value
      of it is 0. */
  lemma WrappedField()
    ensures var p := PutSeqField(SEQ_WIDTH, U64);
            && WellFormed(p) && |p| == SEQ_WIDTH && Value(SkipSpaces(p)) == U64
            && Value(SkipSpaces(p)) % U64 == 0
  {
    FitsWidth();
    SeqFieldText(U64);
  }
}
