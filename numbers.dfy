/** Decimal text and numbers: the prefix decimal parser of `parseFloat`, the two-decimal
    rounding and rendering of `Number.prototype.toFixed(2)`, and the decimal rendering of
    non-negative integers. Numbers are exact reals: binary floating point is not modelled. */
module Numbers {
  import opened Common
  import Text

  predicate IsDigit(c: char) { '0' <= c <= '9' }

  /** The value of a decimal digit (0 for any other character, which never occurs where it
      is used). */
  function DigitValue(c: char): (d: nat)
    ensures d < 10
  {
    if IsDigit(c) then (c as int) - ('0' as int) else 0
  }

  function DigitChar(d: nat): (c: char)
    requires d < 10
    ensures IsDigit(c) && DigitValue(c) == d
  {
    (('0' as int) + d) as char
  }

  predicate AllDigits(s: string) { forall i :: 0 <= i < |s| ==> IsDigit(s[i]) }

  /** The value of a string of decimal digits, most significant first. */
  function DigitsValue(s: string): nat
  {
    if s == [] then 0 else DigitsValue(s[..|s| - 1]) * 10 + DigitValue(s[|s| - 1])
  }

  function Pow10(n: nat): (p: nat)
    ensures p >= 1
  {
    if n == 0 then 1 else 10 * Pow10(n - 1)
  }

  /** The longest prefix of `s` made of digits. */
  function DigitPrefix(s: string): (p: string)
    ensures |p| <= |s|
  {
    if s != [] && IsDigit(s[0]) then [s[0]] + DigitPrefix(s[1..]) else []
  }

  /** DigitPrefix is the longest digit-only prefix. */
  lemma {:induction false} DigitPrefixSpec(s: string)
    ensures DigitPrefix(s) <= s && AllDigits(DigitPrefix(s))
    ensures |DigitPrefix(s)| == |s| || !IsDigit(s[|DigitPrefix(s)|])
  {
    if s != [] && IsDigit(s[0]) {
      DigitPrefixSpec(s[1..]);
      assert DigitPrefix(s) == [s[0]] + DigitPrefix(s[1..]);
    }
  }

  /** An exponent part `e`/`E`, an optional sign and at least one digit, at the head of `s`. */
  function ExponentPrefix(s: string): Option<int>
  {
    if |s| >= 1 && (s[0] == 'e' || s[0] == 'E') then
      var t := s[1..];
      var neg := t != [] && t[0] == '-';
      var u := if t != [] && (t[0] == '+' || t[0] == '-') then t[1..] else t;
      var ds := DigitPrefix(u);
      if ds == [] then None
      else Some(if neg then -(DigitsValue(ds) as int) else DigitsValue(ds) as int)
    else
      None
  }

  /** `m` times ten to the power `e`. */
  function Shift(m: real, e: int): real
    decreases if e < 0 then -e else e
  {
    if e == 0 then m else if e > 0 then Shift(m, e - 1) * 10.0 else Shift(m, e + 1) / 10.0
  }

  /** `parseFloat(s)`: skips leading white space, then reads the longest prefix that is a
      decimal literal (optional sign, digits with an optional fraction, an optional
      exponent). `None` stands for NaN: no digit at all, as for "", "." or "abc". */
  function ParseFloat(s: string): Option<real>
  {
    ParseTrimmed(Text.TrimStart(s))
  }

  /** The literal at the head of a text that does not start with white space. */
  function ParseTrimmed(t: string): Option<real>
  {
    if t != [] && t[0] == '-' then Negate(ParseUnsigned(t[1..]))
    else if t != [] && t[0] == '+' then ParseUnsigned(t[1..])
    else ParseUnsigned(t)
  }

  function Negate(v: Option<real>): Option<real>
  {
    match v
    case None => None
    case Some(x) => Some(-x)
  }

  /** The longest prefix of `u` that is an unsigned decimal literal, and its value. */
  function ParseUnsigned(u: string): Option<real>
  {
    var ip := DigitPrefix(u);
    var fp := FractionDigits(u[|ip|..]);
    if ip == [] && fp == [] then
      None
    else
      Some(Shift(Shift(DigitsValue(ip + fp) as real, -|fp|), ExponentOf(AfterFraction(u[|ip|..]))))
  }

  /** The digits after a leading decimal point of `rest`, if there is one. */
  function FractionDigits(rest: string): string
  {
    if rest != [] && rest[0] == '.' then DigitPrefix(rest[1..]) else []
  }

  /** What follows the point and the fraction digits at the head of `rest`. */
  function AfterFraction(rest: string): string
  {
    if rest != [] && rest[0] == '.' then rest[1 + |DigitPrefix(rest[1..])|..] else rest
  }

  /** The value of an exponent part at the head of `s`, or 0 when there is none. */
  function ExponentOf(s: string): int
  {
    match ExponentPrefix(s) {
      case None => 0
      case Some(e) => e
    }
  }

  /** Decimal rendering of a non-negative integer, without leading zeros. */
  function NatToString(n: nat): (s: string)
    ensures s != [] && AllDigits(s)
  {
    if n < 10 then [DigitChar(n)] else NatToString(n / 10) + [DigitChar(n % 10)]
  }

  lemma {:induction false} DigitsValueOfNatToString(n: nat)
    ensures DigitsValue(NatToString(n)) == n
  {
    if n >= 10 {
      DigitsValueOfNatToString(n / 10);
      var s := NatToString(n);
      assert s[..|s| - 1] == NatToString(n / 10);
    }
  }

  lemma {:induction false} DigitsValueAppend(a: string, b: string)
    requires AllDigits(a) && AllDigits(b)
    ensures AllDigits(a + b)
    ensures DigitsValue(a + b) == DigitsValue(a) * Pow10(|b|) + DigitsValue(b)
  {
    assert AllDigits(a + b) by {
      forall i | 0 <= i < |a + b| ensures IsDigit((a + b)[i]) {
        if i < |a| { assert (a + b)[i] == a[i]; } else { assert (a + b)[i] == b[i - |a|]; }
      }
    }
    if b == [] {
      assert a + b == a;
    } else {
      var b' := b[..|b| - 1];
      assert AllDigits(b');
      assert (a + b)[..|a + b| - 1] == a + b';
      DigitsValueAppend(a, b');
      var va, vb, p := DigitsValue(a), DigitsValue(b'), Pow10(|b'|);
      var d := DigitValue(b[|b| - 1]);
      assert (a + b)[|a + b| - 1] == b[|b| - 1];
      assert DigitsValue(a + b) == DigitsValue(a + b') * 10 + d;
      assert DigitsValue(b) == vb * 10 + d;
      assert Pow10(|b|) == 10 * p;
      MulDistrib(va, p, vb);
    }
  }

  lemma MulDistrib(va: nat, p: nat, vb: nat)
    ensures (va * p + vb) * 10 == va * (10 * p) + vb * 10
  {
  }

  lemma {:induction false} DigitPrefixOfDigits(a: string, b: string)
    requires AllDigits(a)
    requires b == [] || !IsDigit(b[0])
    ensures DigitPrefix(a + b) == a
  {
    if a != [] {
      DigitPrefixOfDigits(a[1..], b);
      assert (a + b)[1..] == a[1..] + b;
    } else {
      assert a + b == b;
    }
  }

  /** The number of hundredths `toFixed(2)` picks for `|x|`: the nearest, ties upwards. */
  function Cents(x: real): (c: nat)
    ensures (c as real) - 0.5 <= 100.0 * Abs(x) < (c as real) + 0.5
  {
    (100.0 * Abs(x) + 0.5).Floor
  }

  function Abs(x: real): real { if x < 0.0 then -x else x }

  /** The exact cost of a quantity at a unit price, `quantidade * preco`, shared by the
      budget and the spreadsheet export. */
  function Cost(quantidade: real, preco: real): real
  {
    Product(quantidade, preco, [quantidade])
  }

  /** `a * b`, reached once `delay` is used up. A product of two unknowns slows the
      verifier's arithmetic wherever it appears; behind one step of recursion on an
      argument that is not a literal it stays folded unless a proof asks for it, through
      CostIsProduct. */
  function Product(a: real, b: real, delay: seq<real>): real
    decreases |delay|
  {
    if delay == [] then a * b else Product(a, b, delay[1..])
  }

  lemma CostIsProduct(quantidade: real, preco: real)
    ensures Cost(quantidade, preco) == quantidade * preco
  {
    assert Product(quantidade, preco, [quantidade][1..]) == quantidade * preco;
  }

  /** `parseFloat(x.toFixed(2))`: `x` rounded to two decimals, halves away from zero. */
  function Round2(x: real): (r: real)
    ensures Abs(r - x) <= 0.005
  {
    var m := (Cents(x) as real) / 100.0;
    if x < 0.0 then -m else m
  }

  /** Rounding a value that already has at most two decimals leaves it unchanged. */
  lemma Round2OfCents(n: int)
    ensures Round2((n as real) / 100.0) == (n as real) / 100.0
  {
    var x := (n as real) / 100.0;
    var c := Cents(x);
    assert 100.0 * Abs(x) == Abs(n as real);
    if n >= 0 {
      assert c == n;
    } else {
      assert c == -n;
    }
  }

  lemma Round2Idempotent(x: real)
    ensures Round2(Round2(x)) == Round2(x)
  {
    var c := Cents(x) as int;
    var n := if x < 0.0 then -c else c;
    assert Round2(x) == (n as real) / 100.0;
    Round2OfCents(n);
  }

  /** `x.toFixed(2)` for |x| < 1e21: sign, integer part, a point and exactly two decimals. */
  function ToFixed2(x: real): (s: string)
    ensures s != []
  {
    (if x < 0.0 then "-" else "") + FixedBody(Cents(x))
  }

  /** A count of hundredths written as an integer part, a point and two decimals. */
  function FixedBody(c: nat): string
  {
    NatToString(c / 100) + "." + [DigitChar((c % 100) / 10), DigitChar((c % 100) % 10)]
  }

  /** A rendered count of hundredths starts with a digit and reads back as itself. */
  lemma ParseFixedBodyOf(c: nat)
    ensures FixedBody(c) != [] && IsDigit(FixedBody(c)[0])
    ensures ParseUnsigned(FixedBody(c)) == Some((c as real) / 100.0)
  {
    var q, r := c / 100, c % 100;
    assert q * 100 + r == c;
    ParseFixedBody(q, r);
  }

  /** Reading back a rendered two-decimal amount gives the rounded amount: so the
      `parseFloat((x).toFixed(2))` idiom computes `Round2(x)`. */
  lemma ParseToFixed2(x: real)
    ensures ParseFloat(ToFixed2(x)) == Some(Round2(x))
  {
    var body := FixedBody(Cents(x));
    var m := (Cents(x) as real) / 100.0;
    ParseFixedBodyOf(Cents(x));
    if x < 0.0 {
      assert ToFixed2(x) == "-" + body;
      assert Round2(x) == -m;
      ParseNegative(body, m);
    } else {
      assert ToFixed2(x) == body;
      assert Round2(x) == m;
      ParsePositive(body, m);
    }
  }

  lemma ParsePositive(body: string, m: real)
    requires body != [] && IsDigit(body[0])
    requires ParseUnsigned(body) == Some(m)
    ensures ParseFloat(body) == Some(m)
  {
    assert Text.TrimStart(body) == body;
    ParseNoSign(body, m);
  }

  lemma ParseNegative(body: string, m: real)
    requires body != [] && IsDigit(body[0])
    requires ParseUnsigned(body) == Some(m)
    ensures ParseFloat("-" + body) == Some(-m)
  {
    var s := "-" + body;
    assert s[0] == '-';
    assert Text.TrimStart(s) == s;
    assert s[1..] == body;
    ParseMinus(s, m);
  }

  lemma ParseMinus(t: string, m: real)
    requires t != [] && t[0] == '-' && Text.TrimStart(t) == t
    requires ParseUnsigned(t[1..]) == Some(m)
    ensures ParseFloat(t) == Some(-m)
  {
    NegateSome(ParseUnsigned(t[1..]), m);
    assert ParseTrimmed(t) == Negate(ParseUnsigned(t[1..]));
  }

  lemma NegateSome(v: Option<real>, m: real)
    requires v == Some(m)
    ensures Negate(v) == Some(-m)
  {
  }

  lemma ParseNoSign(t: string, m: real)
    requires t != [] && t[0] != '-' && t[0] != '+' && Text.TrimStart(t) == t
    requires ParseUnsigned(t) == Some(m)
    ensures ParseFloat(t) == Some(m)
  {
  }

  lemma TwoDigitsValue(r: nat)
    requires r < 100
    ensures DigitsValue([DigitChar(r / 10), DigitChar(r % 10)]) == r
  {
    var hi, lo := r / 10, r % 10;
    var fp := [DigitChar(hi), DigitChar(lo)];
    assert fp[..1] == [DigitChar(hi)];
    assert fp[..1][..0] == [];
    assert DigitsValue(fp[..1]) == hi;
    assert DigitsValue(fp) == hi * 10 + lo;
  }

  lemma ParseFixedBody(q: nat, r: nat)
    requires r < 100
    ensures ParseUnsigned(NatToString(q) + "." + [DigitChar(r / 10), DigitChar(r % 10)])
      == Some(((q * 100 + r) as real) / 100.0)
  {
    var ip := NatToString(q);
    var fp := [DigitChar(r / 10), DigitChar(r % 10)];
    ParsePointNumber(ip, fp);
    assert DigitsValue(ip + fp) == q * 100 + r by {
      DigitsValueAppend(ip, fp);
      DigitsValueOfNatToString(q);
      TwoDigitsValue(r);
    }
    var v := (q * 100 + r) as real;
    assert Shift(v, -2) == v / 100.0 by {
      assert Shift(v, -1) == v / 10.0;
    }
  }

  /** A digit string, a point and a digit string, with nothing after, reads as
      digits / 10^(fraction length). */
  lemma ParsePointNumber(ip: string, fp: string)
    requires ip != [] && AllDigits(ip) && AllDigits(fp)
    ensures AllDigits(ip + fp)
    ensures ParseUnsigned(ip + "." + fp) == Some(Shift(DigitsValue(ip + fp) as real, -|fp|))
  {
    DigitsValueAppend(ip, fp);
    var u := ip + "." + fp;
    assert DigitPrefix(u) == ip by {
      assert u == ip + ("." + fp);
      DigitPrefixOfDigits(ip, "." + fp);
    }
    var rest := u[|ip|..];
    assert rest == "." + fp;
    assert DigitPrefix(fp) == fp by {
      DigitPrefixOfDigits(fp, []);
      assert fp + [] == fp;
    }
    assert FractionDigits(rest) == fp by {
      assert rest[1..] == fp;
    }
    assert AfterFraction(rest) == [] by {
      assert rest[1..] == fp;
    }
    ParseUnsignedOf(u, ip, fp);
  }

  lemma ParseUnsignedOf(u: string, ip: string, fp: string)
    requires ip != [] && AllDigits(ip + fp) && |ip| <= |u|
    requires DigitPrefix(u) == ip
    requires FractionDigits(u[|ip|..]) == fp && AfterFraction(u[|ip|..]) == []
    ensures ParseUnsigned(u) == Some(Shift(DigitsValue(ip + fp) as real, -|fp|))
  {
    var rest := u[|ip|..];
    assert ExponentOf(AfterFraction(rest)) == 0 by {
      assert ExponentPrefix([]) == None;
    }
    var v := Shift(DigitsValue(ip + fp) as real, -|fp|);
    assert Shift(v, 0) == v;
    var w := Shift(Shift(DigitsValue(DigitPrefix(u) + FractionDigits(rest)) as real, -|FractionDigits(rest)|),
                   ExponentOf(AfterFraction(rest)));
    assert w == v;
    assert ParseUnsigned(u) == Some(w);
  }

  /** A plain decimal integer reads back as its value. */
  lemma ParseNatural(n: nat)
    ensures ParseFloat(NatToString(n)) == Some(n as real)
  {
    var ip := NatToString(n);
    assert DigitPrefix(ip) == ip by {
      DigitPrefixOfDigits(ip, []);
      assert ip + [] == ip;
    }
    assert ip[|ip|..] == [];
    assert ip + [] == ip;
    DigitsValueOfNatToString(n);
    ParseUnsignedOf(ip, ip, []);
    assert Text.TrimStart(ip) == ip by { assert IsDigit(ip[0]); }
    ParseNoSign(ip, n as real);
  }

  /** Digits, a point and digits read back as digits over ten to the number of decimals. */
  lemma ParseDecimal(ip: string, fp: string)
    requires ip != [] && AllDigits(ip) && AllDigits(fp)
    ensures AllDigits(ip + fp)
    ensures ParseFloat(ip + "." + fp) == Some(Shift(DigitsValue(ip + fp) as real, -|fp|))
  {
    ParsePointNumber(ip, fp);
    ParseDigitLed(ip + "." + fp, Shift(DigitsValue(ip + fp) as real, -|fp|));
  }

  lemma ParseDigitLed(u: string, m: real)
    requires u != [] && IsDigit(u[0])
    requires ParseUnsigned(u) == Some(m)
    ensures ParseFloat(u) == Some(m)
  {
    assert Text.TrimStart(u) == u;
    ParseNoSign(u, m);
  }

  /** Scaling by a power of ten keeps a non-zero value non-zero. */
  lemma {:induction false} ShiftNonZero(m: real, e: int)
    requires m != 0.0
    ensures Shift(m, e) != 0.0
    decreases if e < 0 then -e else e
  {
    if e > 0 {
      ShiftNonZero(m, e - 1);
    } else if e < 0 {
      ShiftNonZero(m, e + 1);
    }
  }
}
