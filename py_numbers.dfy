/**
 * The parts of Python's built-in int() and float() that scripts/plot_results.py
 * relies on when it reads the benchmark's CSV cells, and the text printf's %d
 * and %.3f write into those cells (src/benchmark_main.cpp:142-144).
 *
 * Only ASCII digits are modelled; a float's value is kept as an exact real,
 * without rounding to binary64.
 */
module PyNumbers {
  import opened Common

  /** The characters int() and float() strip from both ends of a str: the
      ASCII white space of C's isspace, and the Unicode white space that they
      first turn into a space.  The ASCII separators U+001C to U+001F, which
      str.strip() would remove, are not among them. */
  predicate IsPySpace(ch: char)
  {
    ('\t' <= ch <= '\r') || ch == ' ' || ch == '\U{0085}' || ch == '\U{00A0}'
    || ch == '\U{1680}' || ('\U{2000}' <= ch <= '\U{200A}') || ch == '\U{2028}' || ch == '\U{2029}'
    || ch == '\U{202F}' || ch == '\U{205F}' || ch == '\U{3000}'
  }

  function LStrip(s: string): (t: string)
    ensures t == [] || !IsPySpace(t[0])
    ensures |t| <= |s| && t == s[|s| - |t|..]
    decreases |s|
  {
    if s != [] && IsPySpace(s[0]) then LStrip(s[1..]) else s
  }

  function RStrip(s: string): (t: string)
    ensures t == [] || !IsPySpace(t[|t| - 1])
    ensures t <= s
    decreases |s|
  {
    if s != [] && IsPySpace(s[|s| - 1]) then RStrip(s[..|s| - 1]) else s
  }

  function Strip(s: string): string
  {
    RStrip(LStrip(s))
  }

  /** Python's `digitpart`: one or more digits, a single underscore allowed
      between two of them. */
  predicate IsDigitPart(s: string)
    decreases |s|
  {
    && s != [] && IsDigit(s[0])
    && (|s| == 1
        || (s[1] == '_' && IsDigitPart(s[2..]))
        || (s[1] != '_' && IsDigitPart(s[1..])))
  }

  /** The digits of a digit part, underscores removed. */
  function DropUnderscores(s: string): (d: string)
    requires IsDigitPart(s)
    ensures d != [] && AllDigits(d) && |d| <= |s|
    decreases |s|
  {
    if |s| == 1 then s
    else if s[1] == '_' then [s[0]] + DropUnderscores(s[2..])
    else [s[0]] + DropUnderscores(s[1..])
  }

  /** A plain run of digits is a digit part, and nothing is dropped from it. */
  lemma {:induction false} PlainDigitPart(d: string)
    requires d != [] && AllDigits(d)
    ensures IsDigitPart(d) && DropUnderscores(d) == d
    decreases |d|
  {
    if |d| > 1 {
      PlainDigitPart(d[1..]);
      assert d == [d[0]] + d[1..];
    }
  }

  function DigitPartValue(s: string): nat
    requires IsDigitPart(s)
  {
    DecimalValue(DropUnderscores(s))
  }

  function DigitCount(s: string): nat
    requires IsDigitPart(s)
  {
    |DropUnderscores(s)|
  }

  /** CPython's default bound on the number of digits int() converts from a
      str (sys.get_int_max_str_digits()); underscores do not count. */
  const INT_MAX_STR_DIGITS: nat := 4300

  /** A digit part's value, or None when the text is not one or, as int()
      raises ValueError then, has more than INT_MAX_STR_DIGITS digits. */
  function UnsignedInt(s: string): Option<nat>
  {
    if IsDigitPart(s) && DigitCount(s) <= INT_MAX_STR_DIGITS then Some(DigitPartValue(s)) else None
  }

  /** [sign] digitpart, with nothing around it. */
  function SignedInt(t: string): Option<int>
  {
    if t != [] && (t[0] == '+' || t[0] == '-') then
      match UnsignedInt(t[1..])
      case None => None
      case Some(v) => Some(if t[0] == '-' then -(v as int) else v)
    else
      match UnsignedInt(t)
      case None => None
      case Some(v) => Some(v as int)
  }

  /** int(s) for a str s: None where Python raises ValueError.  Only ASCII
      digits are modelled. */
  function PyInt(s: string): Option<int>
  {
    SignedInt(Strip(s))
  }

  /** A Python float: finite values are kept exactly (rounding to binary64 is
      not modelled), infinities carry their sign. */
  datatype Float = Finite(value: real) | Inf(negative: bool) | NaN

  function LowerAscii(s: string): (t: string)
    ensures |t| == |s|
  {
    seq(|s|, i requires 0 <= i < |s| => if 'A' <= s[i] <= 'Z' then (s[i] as int + 32) as char else s[i])
  }

  /** The position of the first occurrence of one of `a`, `b` in s, or |s|. */
  function IndexOf(s: string, a: char, b: char): (k: nat)
    ensures k <= |s|
    ensures forall i :: 0 <= i < k ==> s[i] != a && s[i] != b
    ensures k < |s| ==> s[k] == a || s[k] == b
    decreases |s|
  {
    if s == [] then 0
    else if s[0] == a || s[0] == b then 0
    else 1 + IndexOf(s[1..], a, b)
  }

  function Pow10(n: nat): (r: nat)
    ensures r >= 1
  {
    if n == 0 then 1 else 10 * Pow10(n - 1)
  }

  /** `exponent` of Python's float grammar: [sign] digitpart. */
  function ExponentValue(s: string): Option<int>
  {
    if s != [] && (s[0] == '+' || s[0] == '-') then
      if IsDigitPart(s[1..]) then
        Some(if s[0] == '-' then -(DigitPartValue(s[1..]) as int) else DigitPartValue(s[1..]))
      else None
    else if IsDigitPart(s) then Some(DigitPartValue(s))
    else None
  }

  /** The unsigned decimal form of Python's float grammar:
      digitpart ["." [digitpart]] [exponent] | "." digitpart [exponent]. */
  function DecimalLiteral(s: string): Option<real>
  {
    var e := IndexOf(s, 'e', 'E');
    var mant := s[..e];
    var exp := if e < |s| then ExponentValue(s[e + 1..]) else Some(0);
    var d := IndexOf(mant, '.', '.');
    var intPart := mant[..d];
    var fracPart := if d < |mant| then mant[d + 1..] else [];
    if exp.None? then None
    else if intPart == [] && fracPart == [] then None
    else if intPart != [] && !IsDigitPart(intPart) then None
    else if fracPart != [] && !IsDigitPart(fracPart) then None
    else
      var iv := if intPart == [] then 0 else DigitPartValue(intPart);
      var fv := if fracPart == [] then 0 else DigitPartValue(fracPart);
      var fd := if fracPart == [] then 0 else DigitCount(fracPart);
      var m := iv * Pow10(fd) + fv;
      var scale := exp.value - fd;
      Some(if scale >= 0 then (m * Pow10(scale)) as real else m as real / Pow10(-scale) as real)
  }

  /** float(s) for a str s: None where Python raises ValueError. */
  function PyFloat(s: string): Option<Float>
  {
    var t := Strip(s);
    var negative := t != [] && t[0] == '-';
    var body := if t != [] && (t[0] == '+' || t[0] == '-') then t[1..] else t;
    var low := LowerAscii(body);
    if low == "inf" || low == "infinity" then Some(Inf(negative))
    else if low == "nan" then Some(NaN)
    else
      match DecimalLiteral(body)
      case None => None
      case Some(v) => Some(Finite(if negative then -v else v))
  }

  /** Stripping text that starts with a non-space character keeps that
      character first. */
  lemma {:induction false} RStripKeepsHead(s: string)
    requires s != [] && !IsPySpace(s[0])
    ensures RStrip(s) != [] && RStrip(s)[0] == s[0]
    decreases |s|
  {
    if |s| > 1 && IsPySpace(s[|s| - 1]) {
      RStripKeepsHead(s[..|s| - 1]);
    }
  }

  /** A cell that starts with one of the ASCII separators U+001C to U+001F is
      neither an int nor a float: the separator is not stripped, and no number
      starts with it. */
  lemma SeparatorPrefixRejected(c: char, s: string)
    requires '\U{001C}' <= c <= '\U{001F}'
    ensures PyInt([c] + s) == None && PyFloat([c] + s) == None
  {
    var x := [c] + s;
    StripKeepsHead(x);
    SeparatorStrippedRejected(x);
  }

  lemma StripKeepsHead(x: string)
    requires x != [] && !IsPySpace(x[0])
    ensures Strip(x) != [] && Strip(x)[0] == x[0]
  {
    assert LStrip(x) == x;
    RStripKeepsHead(x);
  }

  lemma SeparatorStrippedRejected(x: string)
    requires Strip(x) != [] && '\U{001C}' <= Strip(x)[0] <= '\U{001F}'
    ensures PyInt(x) == None && PyFloat(x) == None
  {
    SeparatorHeadRejected(Strip(x));
  }

  lemma SeparatorHeadRejected(t: string)
    requires t != [] && '\U{001C}' <= t[0] <= '\U{001F}'
    ensures SignedInt(t) == None
    ensures var low := LowerAscii(t); low != "inf" && low != "infinity" && low != "nan"
    ensures DecimalLiteral(t) == None
  {
    var low := LowerAscii(t);
    assert low[0] == t[0];
    var e := IndexOf(t, 'e', 'E');
    assert e > 0;
    var mant := t[..e];
    assert mant[0] == t[0];
    var d := IndexOf(mant, '.', '.');
    assert d > 0;
    assert mant[..d][0] == t[0];
  }

  /** Text that neither starts nor ends with white space is left as it is. */
  lemma StripUnpadded(s: string)
    requires s != [] && !IsPySpace(s[0]) && !IsPySpace(s[|s| - 1])
    ensures Strip(s) == s
  {
  }

  /** Text that starts with neither a sign nor a digit is no int. */
  lemma PyIntRejectsNonDigit(s: string)
    requires s != [] && !IsPySpace(s[0]) && !IsPySpace(s[|s| - 1])
    requires !IsDigit(s[0]) && s[0] != '+' && s[0] != '-'
    ensures PyInt(s) == None
  {
    StripUnpadded(s);
  }

  /** A plain run of digits is a digit part whose value is theirs. */
  lemma UnsignedIntOfDigits(d: string)
    requires d != [] && AllDigits(d) && |d| <= INT_MAX_STR_DIGITS
    ensures UnsignedInt(d) == Some(DecimalValue(d))
  {
    PlainDigitPart(d);
  }

  /** A digit part reads as its value, and with a minus sign before it as
      the negated value. */
  lemma SignedIntOfDigitPart(t: string, v: nat)
    requires UnsignedInt(t) == Some(v)
    ensures SignedInt(t) == Some(v as int)
    ensures SignedInt("-" + t) == Some(-(v as int))
  {
    var m := "-" + t;
    assert m[1..] == t;
  }

  lemma StripSignedDigits(d: string)
    requires d != [] && AllDigits(d)
    ensures Strip(d) == d && Strip("-" + d) == "-" + d
  {
    StripUnpadded(d);
    var m := "-" + d;
    assert m[|m| - 1] == d[|d| - 1];
    StripUnpadded(m);
  }

  /** int() of a plain run of digits is their value. */
  lemma PyIntOfDigits(d: string)
    requires d != [] && AllDigits(d) && |d| <= INT_MAX_STR_DIGITS
    ensures PyInt(d) == Some(DecimalValue(d) as int)
  {
    UnsignedIntOfDigits(d);
    StripSignedDigits(d);
    SignedIntOfDigitPart(d, DecimalValue(d));
  }

  /** int() of a minus sign and a digit part is minus the part's value. */
  lemma PyIntOfNegatedDigitPart(d: string, v: nat)
    requires d != [] && AllDigits(d) && UnsignedInt(d) == Some(v)
    ensures PyInt("-" + d) == Some(-(v as int))
  {
    StripSignedDigits(d);
    SignedIntOfDigitPart(d, v);
  }

  /** Text that starts with a digit but is no digit part within the bound
      reads as no int, with or without a minus sign before it. */
  lemma SignedIntRejects(t: string)
    requires t != [] && IsDigit(t[0]) && UnsignedInt(t) == None
    ensures SignedInt(t) == None && SignedInt("-" + t) == None
  {
    var m := "-" + t;
    assert m[1..] == t;
  }

  /** int() of more than INT_MAX_STR_DIGITS digits, signed or not, raises
      ValueError. */
  lemma PyIntRejectsLongDigits(d: string)
    requires AllDigits(d) && |d| > INT_MAX_STR_DIGITS
    ensures PyInt(d) == None && PyInt("-" + d) == None
  {
    UnsignedIntTooLong(d);
    StripSignedDigits(d);
    SignedIntRejects(d);
  }

  lemma UnsignedIntTooLong(d: string)
    requires d != [] && AllDigits(d) && |d| > INT_MAX_STR_DIGITS
    ensures UnsignedInt(d) == None
  {
    PlainDigitPart(d);
  }

  /** int() reads back what printf's %d wrote, up to INT_MAX_STR_DIGITS
      digits. */
  lemma PyIntOfDecimal(n: int)
    requires |NatToDecimal(if n < 0 then -n else n)| <= INT_MAX_STR_DIGITS
    ensures PyInt(IntToDecimal(n)) == Some(n)
  {
    var m: nat := if n < 0 then -n else n;
    var d := NatToDecimal(m);
    DecimalRoundTrip(m);
    UnsignedIntOfDigits(d);
    if n < 0 {
      PyIntOfNegatedDigitPart(d, m);
    } else {
      PyIntOfDigits(d);
    }
  }

  /** A number below 10^k has at most k decimal digits. */
  lemma {:induction false} DecimalLength(m: nat, k: nat)
    requires 1 <= k && m < Pow10(k)
    ensures |NatToDecimal(m)| <= k
    decreases k
  {
    if m >= 10 {
      assert m / 10 < Pow10(k - 1);
      DecimalLength(m / 10, k - 1);
    }
  }

  /** %d of a C int has at most ten digits, far below int()'s bound. */
  lemma CIntDigits(n: int)
    requires IsCInt(n)
    ensures |NatToDecimal(if n < 0 then -n else n)| <= 10
  {
    assert Pow10(10) == 10_000_000_000 by {
      assert Pow10(2) == 100;
      assert Pow10(4) == 10_000;
      assert Pow10(6) == 1_000_000;
      assert Pow10(8) == 100_000_000;
    }
    DecimalLength(if n < 0 then -n else n, 10);
  }

  /** The three digits printf's %.3f writes after the point for r < 1000. */
  function ThreeDigits(r: nat): (s: string)
    requires r < 1000
    ensures |s| == 3 && AllDigits(s)
  {
    ['0' + (r / 100) as char, '0' + (r / 10 % 10) as char, '0' + (r % 10) as char]
  }

  /** The value of three decimal digits. */
  lemma DecimalValueOfThree(s: string)
    requires |s| == 3 && AllDigits(s)
    ensures DecimalValue(s) == (s[0] - '0') as nat * 100 + (s[1] - '0') as nat * 10 + (s[2] - '0') as nat
  {
    var d0, d1, d2 := (s[0] - '0') as nat, (s[1] - '0') as nat, (s[2] - '0') as nat;
    assert s[..1][..0] == [];
    assert DecimalValue(s[..1]) == d0;
    assert s[..2][..1] == s[..1];
    assert DecimalValue(s[..2]) == d0 * 10 + d1;
    assert s[..3] == s;
  }

  lemma ThreeDigitsValue(r: nat)
    requires r < 1000
    ensures DecimalValue(ThreeDigits(r)) == r
  {
    var s := ThreeDigits(r);
    DecimalValueOfThree(s);
    assert (s[0] - '0') as nat == r / 100 && (s[1] - '0') as nat == r / 10 % 10 && (s[2] - '0') as nat == r % 10;
    assert r / 10 == r / 100 * 10 + r / 10 % 10;
  }

  /** printf("%.3f") of a non-negative value with three decimals, the value
      given as a whole number of thousandths. */
  function FixedThree(thousandths: nat): string
  {
    NatToDecimal(thousandths / 1000) + "." + ThreeDigits(thousandths % 1000)
  }

  lemma IndexOfAbsent(s: string, a: char, b: char)
    requires forall i :: 0 <= i < |s| ==> s[i] != a && s[i] != b
    ensures IndexOf(s, a, b) == |s|
    decreases |s|
  {
    if s != [] {
      IndexOfAbsent(s[1..], a, b);
    }
  }

  /** Where float() finds the exponent marker and the point in "ip.fp". */
  lemma PointFormShape(ip: string, fp: string)
    requires AllDigits(ip) && AllDigits(fp)
    ensures var s := ip + "." + fp;
      && IndexOf(s, 'e', 'E') == |s|
      && IndexOf(s, '.', '.') == |ip|
      && s[..|ip|] == ip && s[|ip| + 1..] == fp
  {
    var s := ip + "." + fp;
    assert forall i :: 0 <= i < |s| ==> IsDigit(s[i]) || s[i] == '.';
    IndexOfAbsent(s, 'e', 'E');
    IndexOfSplit(ip, "." + fp, '.');
    assert s == ip + ("." + fp);
  }

  /** The value of the literal "ip.fp" whose parts have the values iv and
      fv, fp having fd digits. */
  function PointValue(iv: nat, fv: nat, fd: nat): real
  {
    (iv * Pow10(fd) + fv) as real / Pow10(fd) as real
  }

  /** The value of "ip.fp" from the values of its two digit parts. */
  lemma DecimalLiteralOfParts(ip: string, fp: string)
    requires IsDigitPart(ip) && IsDigitPart(fp)
    requires var s := ip + "." + fp;
      && IndexOf(s, 'e', 'E') == |s|
      && IndexOf(s, '.', '.') == |ip|
      && s[..|ip|] == ip && s[|ip| + 1..] == fp
    ensures DecimalLiteral(ip + "." + fp) == Some(PointValue(DigitPartValue(ip), DigitPartValue(fp), DigitCount(fp)))
  {
    var s := ip + "." + fp;
    assert s[..|s|] == s;
  }

  /** The value float() gives a plain "digits.digits" literal. */
  lemma DecimalLiteralPointForm(ip: string, fp: string)
    requires ip != [] && fp != [] && AllDigits(ip) && AllDigits(fp)
    ensures DecimalLiteral(ip + "." + fp) == Some(PointValue(DecimalValue(ip), DecimalValue(fp), |fp|))
  {
    PointFormShape(ip, fp);
    PlainDigitPart(ip);
    PlainDigitPart(fp);
    DecimalLiteralOfParts(ip, fp);
  }

  /** float() of unsigned decimal text that is not inf or nan is its
      decimal value. */
  lemma PyFloatOfUnsigned(s: string, v: real)
    requires s != [] && IsDigit(s[0]) && IsDigit(s[|s| - 1])
    requires DecimalLiteral(s) == Some(v)
    ensures PyFloat(s) == Some(Finite(v))
  {
    StripUnpadded(s);
    assert s[0] != '+' && s[0] != '-';
    var low := LowerAscii(s);
    assert low[0] == s[0];
    NoSpecialWord(low);
  }

  /** Text starting with a digit spells neither inf, infinity nor nan. */
  lemma NoSpecialWord(low: string)
    requires low != [] && IsDigit(low[0])
    ensures low != "inf" && low != "infinity" && low != "nan"
  {
    assert "inf"[0] == 'i' && "infinity"[0] == 'i' && "nan"[0] == 'n';
  }

  /** The value of what %.3f wrote, read as a decimal literal. */
  lemma FixedThreeValue(thousandths: nat)
    ensures DecimalLiteral(FixedThree(thousandths)) == Some(thousandths as real / 1000.0)
  {
    var q, r := thousandths / 1000, thousandths % 1000;
    var ip, fp := NatToDecimal(q), ThreeDigits(r);
    DecimalLiteralPointForm(ip, fp);
    DecimalRoundTrip(q);
    ThreeDigitsValue(r);
    PointValueThousandths(q, r);
    assert FixedThree(thousandths) == ip + "." + fp;
    assert PointValue(DecimalValue(ip), DecimalValue(fp), |fp|) == PointValue(q, r, 3);
    assert q * 1000 + r == thousandths;
  }

  /** A whole part and three decimals make q * 1000 + r thousandths. */
  lemma PointValueThousandths(q: nat, r: nat)
    ensures PointValue(q, r, 3) == (q * 1000 + r) as real / 1000.0
  {
    assert Pow10(3) == 1000;
  }

  /** float() reads back what %.3f wrote. */
  lemma PyFloatOfFixedThree(thousandths: nat)
    ensures PyFloat(FixedThree(thousandths)) == Some(Finite(thousandths as real / 1000.0))
  {
    var text, v := FixedThree(thousandths), thousandths as real / 1000.0;
    FixedThreeEnds(thousandths);
    FixedThreeValue(thousandths);
    PyFloatOfUnsigned(text, v);
  }

  /** What %.3f writes starts and ends with a digit. */
  lemma FixedThreeEnds(thousandths: nat)
    ensures var s := FixedThree(thousandths);
      s != [] && IsDigit(s[0]) && IsDigit(s[|s| - 1])
  {
    var ip, fp := NatToDecimal(thousandths / 1000), ThreeDigits(thousandths % 1000);
    var s := ip + "." + fp;
    assert s[0] == ip[0] && s[|s| - 1] == fp[2];
  }

  lemma IndexOfSplit(a: string, b: string, ch: char)
    requires forall i :: 0 <= i < |a| ==> a[i] != ch
    requires b != [] && b[0] == ch
    ensures IndexOf(a + b, ch, ch) == |a|
    decreases |a|
  {
    if a != [] {
      assert (a + b)[1..] == a[1..] + b;
      IndexOfSplit(a[1..], b, ch);
    }
  }
}
