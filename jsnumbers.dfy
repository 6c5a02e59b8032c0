/** JavaScript numbers as far as the core uses them: the coercion of a
    string to a number (what `value * 1` does to a string) and the
    conversion of a number back to text (what `join` and string
    concatenation do to a number). */
module JsNumbers {
  import opened JsStrings

  /** A JavaScript number. A finite value is the exact decimal
      `mant / 10^scale`; `Canonical` keeps one representation per value,
      so `==` on `Number` is JavaScript's `===` on numbers. */
  datatype JsNumber = Finite(mant: int, scale: nat) | Infinity(negative: bool) | NaN
  {
    predicate Canonical() {
      Finite? ==> scale == 0 || mant % 10 != 0
    }
  }

  type Number = n: JsNumber | n.Canonical() witness NaN

  function Pow10(k: nat): (r: nat)
    ensures r >= 1
  {
    if k == 0 then 1 else 10 * Pow10(k - 1)
  }

  lemma {:induction false} Pow10Add(a: nat, b: nat)
    ensures Pow10(a + b) == Pow10(a) * Pow10(b)
  {
    if b > 0 {
      Pow10Add(a, b - 1);
      assert Pow10(a + b) == 10 * Pow10(a + b - 1);
      assert Pow10(a) * Pow10(b) == Pow10(a) * (10 * Pow10(b - 1));
    }
  }

  lemma Pow10MultipleOfTen(x: int, d: nat)
    ensures d > 0 ==> (x * Pow10(d)) % 10 == 0
  {
    if d > 0 {
      assert x * Pow10(d) == 10 * (x * Pow10(d - 1));
    }
  }

  lemma MulCancel(x: int, y: int, p: int)
    requires p > 0 && x * p == y * p
    ensures x == y
  {
    assert (x - y) * p == 0;
  }

  /** Two finite numbers stand for the same value. */
  predicate SameValue(a: JsNumber, b: JsNumber)
    requires a.Finite? && b.Finite?
  {
    a.mant * Pow10(b.scale) == b.mant * Pow10(a.scale)
  }

  lemma CanonicalUniqueOrdered(a: Number, b: Number)
    requires a.Finite? && b.Finite? && SameValue(a, b) && a.scale <= b.scale
    ensures a == b
  {
    var d := b.scale - a.scale;
    Pow10Add(a.scale, d);
    var pa, pd := Pow10(a.scale), Pow10(d);
    assert a.mant * (pa * pd) == b.mant * pa;
    assert (a.mant * pd) * pa == b.mant * pa by {
      assert a.mant * (pa * pd) == (a.mant * pd) * pa;
    }
    MulCancel(a.mant * pd, b.mant, pa);
    Pow10MultipleOfTen(a.mant, d);
  }

  /** Canonical numbers with the same value are the same number: structural
      equality of `Number`s is numeric equality. */
  lemma CanonicalUnique(a: Number, b: Number)
    requires a.Finite? && b.Finite? && SameValue(a, b)
    ensures a == b
  {
    if a.scale <= b.scale {
      CanonicalUniqueOrdered(a, b);
    } else {
      CanonicalUniqueOrdered(b, a);
    }
  }

  /** The canonical number with the value `m / 10^s`: trailing zeros of
      the mantissa are dropped while there is a scale to absorb them. */
  function Normalize(m: int, s: nat): (r: Number)
    ensures r.Finite? && r.scale <= s
    decreases s
  {
    if s > 0 && m % 10 == 0 then Normalize(m / 10, s - 1) else Finite(m, s)
  }

  /** Normalizing keeps the value. */
  lemma {:induction false} NormalizeSameValue(m: int, s: nat)
    ensures SameValue(Normalize(m, s), Finite(m, s))
    decreases s
  {
    if s > 0 && m % 10 == 0 {
      NormalizeSameValue(m / 10, s - 1);
      var r := Normalize(m / 10, s - 1);
      assert r.mant * Pow10(s - 1) == (m / 10) * Pow10(r.scale);
      assert r.mant * Pow10(s) == 10 * (r.mant * Pow10(s - 1));
      assert m * Pow10(r.scale) == 10 * ((m / 10) * Pow10(r.scale));
    }
  }

  predicate IsDigit(c: char) {
    '0' <= c <= '9'
  }

  /** The value of `c` as a digit in bases up to 36, or 36 when it is none. */
  function DigitValue(c: char): nat {
    if '0' <= c <= '9' then c as int - '0' as int
    else if 'a' <= c <= 'z' then c as int - 'a' as int + 10
    else if 'A' <= c <= 'Z' then c as int - 'A' as int + 10
    else 36
  }

  predicate IsRadixDigits(ds: string, radix: nat) {
    forall i :: 0 <= i < |ds| ==> DigitValue(ds[i]) < radix
  }

  /** The value of a digit string in base `radix`. */
  function RadixValue(ds: string, radix: nat): nat
    requires IsRadixDigits(ds, radix)
    decreases |ds|
  {
    if ds == [] then 0
    else RadixValue(ds[..|ds| - 1], radix) * radix + DigitValue(ds[|ds| - 1])
  }

  function Zeros(k: nat): (r: string)
    ensures |r| == k && forall i :: 0 <= i < k ==> r[i] == '0'
  {
    if k == 0 then [] else Zeros(k - 1) + ['0']
  }

  lemma {:induction false} RadixValueZeros(k: nat)
    ensures IsRadixDigits(Zeros(k), 10) && RadixValue(Zeros(k), 10) == 0
  {
    if k > 0 {
      RadixValueZeros(k - 1);
      assert Zeros(k)[..k - 1] == Zeros(k - 1);
    }
  }

  /** Leading zeros do not change the value of a decimal digit string. */
  lemma {:induction false} RadixValueLeadingZeros(k: nat, ds: string)
    requires IsRadixDigits(ds, 10)
    ensures IsRadixDigits(Zeros(k) + ds, 10)
    ensures RadixValue(Zeros(k) + ds, 10) == RadixValue(ds, 10)
    decreases |ds|
  {
    RadixValueZeros(k);
    if ds == [] {
      assert Zeros(k) + ds == Zeros(k);
    } else {
      var init := ds[..|ds| - 1];
      RadixValueLeadingZeros(k, init);
      assert (Zeros(k) + ds)[..|Zeros(k) + ds| - 1] == Zeros(k) + init;
    }
  }

  /** The index of the first character of `s` that is in `cs`, or `|s|`. */
  function FindAny(s: string, cs: set<char>): (r: nat)
    ensures r <= |s|
    ensures r < |s| ==> s[r] in cs
    ensures forall i :: 0 <= i < r ==> s[i] !in cs
  {
    if s == [] then 0
    else if s[0] in cs then 0
    else 1 + FindAny(s[1..], cs)
  }

  /** The first character of `s` in `cs` is at `i`. */
  lemma FindAnyAt(s: string, cs: set<char>, i: nat)
    requires i < |s| && s[i] in cs && forall j :: 0 <= j < i ==> s[j] !in cs
    ensures FindAny(s, cs) == i
  {
  }

  /** A JavaScript exponent part after the `e`: an optional sign and digits. */
  predicate ValidExponent(x: string) {
    var digits := if x != [] && (x[0] == '+' || x[0] == '-') then x[1..] else x;
    digits != [] && IsRadixDigits(digits, 10)
  }

  function ExponentValue(x: string): int
    requires ValidExponent(x)
  {
    if x[0] == '-' then -(RadixValue(x[1..], 10) as int)
    else if x[0] == '+' then RadixValue(x[1..], 10)
    else RadixValue(x, 10)
  }

  /** The value of integer digits `ip` and fraction digits `fp` times
      `10^exp`; NaN unless both are decimal digits and not both empty. */
  function MantissaValue(neg: bool, ip: string, fp: string, exp: int): Number {
    if !IsRadixDigits(ip, 10) || !IsRadixDigits(fp, 10) || |ip| + |fp| == 0 then NaN
    else
      var m: int := RadixValue(ip + fp, 10);
      var signed := if neg then -m else m;
      var k := |fp| - exp;
      if k >= 0 then Normalize(signed, k) else Finite(signed * Pow10(-k), 0)
  }

  /** A mantissa with an optional point, times `10^exp`. */
  function ScaledMantissa(neg: bool, mantissa: string, exp: int): Number {
    var p := FindAny(mantissa, {'.'});
    MantissaValue(neg, mantissa[..p], if p < |mantissa| then mantissa[p + 1..] else [], exp)
  }

  /** An unsigned decimal literal: a mantissa and an optional exponent. */
  function UnsignedDecimal(neg: bool, body: string): Number {
    var e := FindAny(body, {'e', 'E'});
    if e == |body| then ScaledMantissa(neg, body, 0)
    else if ValidExponent(body[e + 1..]) then ScaledMantissa(neg, body[..e], ExponentValue(body[e + 1..]))
    else NaN
  }

  /** A signed decimal literal: digits with an optional point and an
      optional exponent, at least one digit in the mantissa. */
  function DecimalLiteral(t: string): Number
    requires t != []
  {
    UnsignedDecimal(t[0] == '-', if t[0] == '-' || t[0] == '+' then t[1..] else t)
  }

  /** The base announced by the second character of a `0x`, `0o` or `0b`
      prefix, or 0 when there is none. */
  function RadixOfPrefix(c: char): nat {
    if c == 'x' || c == 'X' then 16
    else if c == 'o' || c == 'O' then 8
    else if c == 'b' || c == 'B' then 2
    else 0
  }

  /** A trimmed, non-empty numeric literal. */
  function NumericLiteral(t: string): Number
    requires t != []
  {
    if t == "Infinity" || t == "+Infinity" then Infinity(false)
    else if t == "-Infinity" then Infinity(true)
    else if |t| > 2 && t[0] == '0' && RadixOfPrefix(t[1]) != 0 then
      var radix := RadixOfPrefix(t[1]);
      if IsRadixDigits(t[2..], radix) then Finite(RadixValue(t[2..], radix), 0) else NaN
    else DecimalLiteral(t)
  }

  /** JavaScript's ToNumber applied to a string (`s * 1`): surrounding white
      space is ignored, the empty string is 0, and anything that is not a
      numeric literal is NaN. */
  function StringToNumber(s: string): Number {
    var t := Trim(s);
    if t == [] then Finite(0, 0) else NumericLiteral(t)
  }

  function DigitChar(d: nat): (c: char)
    requires d < 10
    ensures IsDigit(c) && DigitValue(c) == d
  {
    ('0' as int + d) as char
  }

  /** The decimal digits of `n`, without leading zeros. */
  function NatToDigits(n: nat): (r: string)
    ensures |r| >= 1 && IsRadixDigits(r, 10) && RadixValue(r, 10) == n
    ensures AllDigits(r)
  {
    if n < 10 then [DigitChar(n)]
    else
      var init := NatToDigits(n / 10);
      var r := init + [DigitChar(n % 10)];
      assert r[..|r| - 1] == init;
      r
  }

  /** The digits of `|mant|` padded with leading zeros to more than `scale`
      characters, so that a point can be put `scale` digits from the end. */
  function PaddedDigits(n: nat, scale: nat): (r: string)
    ensures |r| > scale && IsRadixDigits(r, 10) && RadixValue(r, 10) == n
    ensures AllDigits(r)
  {
    var ds := NatToDigits(n);
    if |ds| > scale then ds
    else
      RadixValueLeadingZeros(scale + 1 - |ds|, ds);
      Zeros(scale + 1 - |ds|) + ds
  }

  /** `String(n)` in positional notation. */
  function NumberToString(n: Number): string {
    match n
    case NaN => "NaN"
    case Infinity(neg) => if neg then "-Infinity" else "Infinity"
    case Finite(m, s) => FiniteToString(m, s)
  }

  /** The positional text of `m / 10^s`, with a point `s` digits from the
      end of the digits of `|m|` when `s > 0`. */
  function FiniteToString(m: int, s: nat): string {
    PlainDecimal(m < 0, IntegerDigits(Abs(m), s), FractionDigits(Abs(m), s))
  }

  function Abs(m: int): nat {
    if m < 0 then -m else m
  }

  /** The digits of `a / 10^s` before the point. */
  function IntegerDigits(a: nat, s: nat): string {
    var padded := PaddedDigits(a, s);
    padded[..|padded| - s]
  }

  /** The `s` digits of `a / 10^s` after the point. */
  function FractionDigits(a: nat, s: nat): string {
    var padded := PaddedDigits(a, s);
    padded[|padded| - s..]
  }

  /** The text of a decimal literal: an optional minus sign, integer
      digits, and a point followed by fraction digits when there are any. */
  function PlainDecimal(neg: bool, ip: string, fp: string): string {
    (if neg then "-" else "") + ip + (if fp == [] then "" else "." + fp)
  }

  predicate AllDigits(ds: string) {
    forall i :: 0 <= i < |ds| ==> IsDigit(ds[i])
  }

  lemma AllDigitsConcat(a: string, b: string)
    requires AllDigits(a) && AllDigits(b)
    ensures AllDigits(a + b) && IsRadixDigits(a + b, 10)
  {
    assert forall i :: 0 <= i < |a + b| ==> (a + b)[i] == if i < |a| then a[i] else b[i - |a|];
  }

  /** A string of digits and at most one point has no exponent. */
  lemma UnsignedPlain(neg: bool, ip: string, fp: string)
    requires AllDigits(ip) && AllDigits(fp)
    ensures UnsignedDecimal(neg, ip + (if fp == [] then "" else "." + fp))
         == ScaledMantissa(neg, ip + (if fp == [] then "" else "." + fp), 0)
  {
    var body := ip + (if fp == [] then "" else "." + fp);
    forall i | 0 <= i < |body| ensures body[i] !in {'e', 'E'} {
      if i < |ip| {
        assert body[i] == ip[i];
      } else if i > |ip| {
        assert body[i] == fp[i - |ip| - 1];
      }
    }
    FindAnyNone(body, {'e', 'E'});
  }

  /** No character of `s` is in `cs`: the search runs off the end. */
  lemma FindAnyNone(s: string, cs: set<char>)
    requires forall i :: 0 <= i < |s| ==> s[i] !in cs
    ensures FindAny(s, cs) == |s|
  {
  }

  /** The point of a plain decimal literal separates its digit runs. */
  lemma ScaledPlain(neg: bool, ip: string, fp: string)
    requires AllDigits(ip) && AllDigits(fp)
    ensures ScaledMantissa(neg, ip + (if fp == [] then "" else "." + fp), 0)
         == MantissaValue(neg, ip, fp, 0)
  {
    var body := ip + (if fp == [] then "" else "." + fp);
    var p := FindAny(body, {'.'});
    if fp != [] {
      assert body[|ip|] == '.';
    }
    assert p == |ip|;
    assert body[..p] == ip;
    assert (if p < |body| then body[p + 1..] else []) == fp;
  }

  /** Reading a plain decimal literal gives its digits, scaled by the number
      of fraction digits, as a canonical number. */
  lemma DecimalLiteralPlain(neg: bool, ip: string, fp: string)
    requires ip != [] && AllDigits(ip) && AllDigits(fp)
    ensures DecimalLiteral(PlainDecimal(neg, ip, fp)) == MantissaValue(neg, ip, fp, 0)
  {
    PlainDecimalSign(neg, ip, fp);
    UnsignedPlain(neg, ip, fp);
    ScaledPlain(neg, ip, fp);
  }

  /** Without an exponent, digits with `|fp|` fraction digits stand for
      their value divided by `10^|fp|`. */
  lemma MantissaValuePlain(neg: bool, ip: string, fp: string)
    requires ip != [] && AllDigits(ip) && AllDigits(fp)
    ensures IsRadixDigits(ip + fp, 10)
    ensures MantissaValue(neg, ip, fp, 0)
         == Normalize(if neg then -(RadixValue(ip + fp, 10) as int) else RadixValue(ip + fp, 10), |fp|)
  {
    AllDigitsConcat(ip, fp);
    assert IsRadixDigits(ip, 10) && IsRadixDigits(fp, 10);
  }

  /** The sign of a plain decimal literal is read off its first character. */
  lemma PlainDecimalSign(neg: bool, ip: string, fp: string)
    requires ip != [] && AllDigits(ip)
    ensures DecimalLiteral(PlainDecimal(neg, ip, fp))
         == UnsignedDecimal(neg, ip + (if fp == [] then "" else "." + fp))
  {
    var t := PlainDecimal(neg, ip, fp);
    var body := ip + (if fp == [] then "" else "." + fp);
    assert t == (if neg then "-" else "") + body;
    assert t[0] == '-' <==> neg by {
      assert !neg ==> t[0] == ip[0];
    }
    assert (if t[0] == '-' || t[0] == '+' then t[1..] else t) == body;
  }

  /** A string that starts like a decimal literal is read as one. */
  lemma StringToNumberDecimal(t: string)
    requires t != []
    requires t[0] == '-' || IsDigit(t[0])
    requires |t| > 1 ==> IsDigit(t[1]) || t[1] == '.'
    ensures NumericLiteral(t) == DecimalLiteral(t)
  {
    assert t != "Infinity" && t != "+Infinity" by {
      assert "Infinity"[0] == 'I' && "+Infinity"[0] == '+';
    }
    assert t != "-Infinity" by {
      assert "-Infinity"[1] == 'I';
    }
    if |t| > 2 {
      assert RadixOfPrefix(t[1]) == 0;
    }
  }

  /** Printing a number and reading the text back gives the same number. */
  lemma NumberRoundTrip(n: Number)
    ensures StringToNumber(NumberToString(n)) == n
  {
    match n
    case NaN => NaNRoundTrip();
    case Infinity(neg) => InfinityRoundTrip(neg);
    case Finite(_, _) => FiniteRoundTrip(n);
  }

  lemma NaNRoundTrip()
    ensures StringToNumber("NaN") == NaN
  {
    TrimOfTrimmed("NaN");
    LeadingJunkIsNaN("NaN");
  }

  /** A text that starts with a character no numeric literal can start
      with reads as NaN. */
  lemma LeadingJunkIsNaN(t: string)
    requires t != [] && DigitValue(t[0]) >= 10
    requires t[0] != '+' && t[0] != '-' && t[0] != '.' && t[0] != 'I' && t[0] != 'e' && t[0] != 'E'
    ensures NumericLiteral(t) == NaN
  {
    assert t != "Infinity" && t != "+Infinity" && t != "-Infinity" by {
      assert "Infinity"[0] == 'I' && "+Infinity"[0] == '+' && "-Infinity"[0] == '-';
    }
    assert DecimalLiteral(t) == UnsignedDecimal(false, t);
    var e := FindAny(t, {'e', 'E'});
    assert e > 0;
    var mantissa := t[..e];
    assert mantissa[0] == t[0];
    var p := FindAny(mantissa, {'.'});
    assert p > 0;
    assert mantissa[..p][0] == t[0];
    assert !IsRadixDigits(mantissa[..p], 10);
    if e == |t| {
      assert mantissa == t;
    }
  }

  lemma InfinityRoundTrip(neg: bool)
    ensures StringToNumber(if neg then "-Infinity" else "Infinity") == Infinity(neg)
  {
    TrimOfTrimmed(if neg then "-Infinity" else "Infinity");
  }

  lemma FiniteRoundTrip(n: Number)
    requires n.Finite?
    ensures StringToNumber(NumberToString(n)) == n
  {
    assert NumberToString(n) == FiniteToString(n.mant, n.scale);
    ReadPlainDecimal(n);
  }

  lemma ReadPlainDecimal(n: Number)
    requires n.Finite?
    ensures StringToNumber(FiniteToString(n.mant, n.scale)) == n
  {
    var m, s := n.mant, n.scale;
    var ip, fp := IntegerDigits(Abs(m), s), FractionDigits(Abs(m), s);
    var t := PlainDecimal(m < 0, ip, fp);
    assert FiniteToString(m, s) == t;
    PaddedSplit(Abs(m), s);
    assert StringToNumber(t) == DecimalLiteral(t) by {
      PlainDecimalShape(m < 0, ip, fp);
      TrimOfTrimmed(t);
      assert StringToNumber(t) == NumericLiteral(t);
      StringToNumberDecimal(t);
    }
    assert DecimalLiteral(t) == MantissaValue(m < 0, ip, fp, 0) by {
      DecimalLiteralPlain(m < 0, ip, fp);
    }
    PaddedMantissa(n);
    NormalizeCanonical(n);
  }

  /** The two digit runs of a padded number are digits, the fraction has
      `s` of them, and together they spell the number. */
  lemma PaddedSplit(a: nat, s: nat)
    ensures var ip, fp := IntegerDigits(a, s), FractionDigits(a, s);
      ip != [] && AllDigits(ip) && AllDigits(fp) && |fp| == s
      && IsRadixDigits(ip + fp, 10) && RadixValue(ip + fp, 10) == a
  {
    var padded := PaddedDigits(a, s);
    var ip, fp := IntegerDigits(a, s), FractionDigits(a, s);
    assert ip + fp == padded;
  }

  lemma PaddedMantissa(n: Number)
    requires n.Finite?
    ensures MantissaValue(n.mant < 0, IntegerDigits(Abs(n.mant), n.scale), FractionDigits(Abs(n.mant), n.scale), 0)
         == Normalize(n.mant, n.scale)
  {
    var m := n.mant;
    var ip, fp := IntegerDigits(Abs(m), n.scale), FractionDigits(Abs(m), n.scale);
    PaddedSplit(Abs(m), n.scale);
    MantissaValuePlain(m < 0, ip, fp);
    var v := RadixValue(ip + fp, 10);
    assert (if m < 0 then -(v as int) else v) == m;
  }

  /** Normalizing a canonical number gives it back. */
  lemma NormalizeCanonical(n: Number)
    requires n.Finite?
    ensures Normalize(n.mant, n.scale) == n
  {
    assert n == Finite(n.mant, n.scale);
  }

  /** A plain decimal literal starts like one and ends in a digit. */
  lemma PlainDecimalShape(neg: bool, ip: string, fp: string)
    requires ip != [] && AllDigits(ip) && AllDigits(fp)
    ensures var t := PlainDecimal(neg, ip, fp);
      t != [] && (t[0] == '-' || IsDigit(t[0])) && (|t| > 1 ==> IsDigit(t[1]) || t[1] == '.')
      && !IsSpace(t[0]) && !IsSpace(t[|t| - 1])
  {
    var t := PlainDecimal(neg, ip, fp);
    var body := ip + (if fp == [] then "" else "." + fp);
    assert t == (if neg then "-" else "") + body;
    assert body[0] == ip[0];
    if |ip| > 1 { assert body[1] == ip[1]; }
    if fp == [] { assert t[|t| - 1] == ip[|ip| - 1]; } else { assert t[|t| - 1] == fp[|fp| - 1]; }
  }
}
