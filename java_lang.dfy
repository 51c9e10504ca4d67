/**
 * The few java.lang behaviours the model depends on, written out because Dafny's
 * integers are unbounded and its division is Euclidean: int division (rounds toward
 * zero), 32-bit wrap-around, String.hashCode and Integer.toString.
 */
module JavaLang {
  const TWO_32: int := 0x1_0000_0000
  const INT_MIN: int := -0x8000_0000
  const INT_MAX: int := 0x7fff_ffff

  function Abs(n: int): nat {
    if n < 0 then -n else n
  }

  /** Java's `a / b` for a positive divisor: the quotient is rounded toward zero. */
  function Div(a: int, b: int): (q: int)
    requires b > 0
    ensures a >= 0 ==> q >= 0 && 0 <= a - q * b < b
    ensures a < 0 ==> q <= 0 && -b < a - q * b <= 0
  {
    if a >= 0 then a / b else -((-a) / b)
  }

  /** Rounding toward zero only shrinks the magnitude, and negation commutes with it. */
  lemma DivOdd(a: int, b: int)
    requires b > 0
    ensures Div(-a, b) == -Div(a, b)
    ensures Abs(Div(a, b)) * b <= Abs(a)
  {
  }

  /** Division by a positive constant is monotone, also across zero. */
  lemma DivMonotone(a: int, a': int, b: int)
    requires b > 0 && a <= a'
    ensures Div(a, b) <= Div(a', b)
  {
    var q, q' := Div(a, b), Div(a', b);
    MulMonotone(q' + 1, q, b);
    assert (q' + 1) * b == q' * b + b;
  }

  lemma MulMonotone(x: int, y: int, b: nat)
    ensures x <= y ==> x * b <= y * b
  {
    assert y * b - x * b == (y - x) * b;
  }

  /** The int that a 32-bit two's complement register holds for the mathematical value `n`. */
  function Wrap32(n: int): (r: int)
    ensures INT_MIN <= r <= INT_MAX
    ensures (n - r) % TWO_32 == 0
  {
    var m := n % TWO_32;
    if m > INT_MAX then m - TWO_32 else m
  }

  /**
   * A character as a Java String stores it: one UTF-16 code unit below U+10000,
   * otherwise a surrogate pair (high surrogate first).
   */
  function CodeUnits(c: char): (u: seq<int>)
    ensures c as int < 0x1_0000 ==> u == [c as int]
    ensures c as int >= 0x1_0000 ==> |u| == 2 && 0xD800 <= u[0] < 0xDC00 && 0xDC00 <= u[1] < 0xE000
    ensures forall i :: 0 <= i < |u| ==> 0 <= u[i] < 0x1_0000
  {
    if c as int < 0x1_0000 then [c as int]
    else
      var v := c as int - 0x1_0000;
      [0xD800 + v / 0x400, 0xDC00 + v % 0x400]
  }

  /** The UTF-16 code units of a string, the sequence `charAt` indexes. */
  function Utf16(s: string): (u: seq<int>)
    ensures |u| >= |s|
    ensures forall i :: 0 <= i < |u| ==> 0 <= u[i] < 0x1_0000
  {
    if s == [] then [] else CodeUnits(s[0]) + Utf16(s[1..])
  }

  /**
   * Decoding UTF-16 back to characters: a high surrogate followed by a low one
   * is one supplementary character, any other unit below U+10000 that is not a
   * surrogate is itself, and a stray surrogate becomes U+FFFD.
   */
  function FromUtf16(u: seq<int>): string
  {
    if u == [] then []
    else if |u| >= 2 && 0xD800 <= u[0] < 0xDC00 && 0xDC00 <= u[1] < 0xE000 then
      [(0x1_0000 + (u[0] - 0xD800) * 0x400 + (u[1] - 0xDC00)) as char] + FromUtf16(u[2..])
    else if 0 <= u[0] < 0xD800 || 0xE000 <= u[0] < 0x1_0000 then
      [u[0] as char] + FromUtf16(u[1..])
    else
      ['\U{FFFD}'] + FromUtf16(u[1..])
  }

  lemma CodeUnitsDecode(c: char, rest: seq<int>)
    ensures FromUtf16(CodeUnits(c) + rest) == [c] + FromUtf16(rest)
  {
    var u := CodeUnits(c) + rest;
    if c as int >= 0x1_0000 {
      var v := c as int - 0x1_0000;
      assert u[0] == 0xD800 + v / 0x400 && u[1] == 0xDC00 + v % 0x400;
      assert u[2..] == rest;
      assert 0x1_0000 + (u[0] - 0xD800) * 0x400 + (u[1] - 0xDC00) == c as int;
    } else {
      assert u[1..] == rest;
    }
  }

  /** No two strings share their code units: decoding gives the string back. */
  lemma {:induction false} Utf16RoundTrip(s: string)
    ensures FromUtf16(Utf16(s)) == s
  {
    if s != [] {
      Utf16RoundTrip(s[1..]);
      CodeUnitsDecode(s[0], Utf16(s[1..]));
      assert [s[0]] + s[1..] == s;
    }
  }

  /** `h = 31 * h + u` over code units, wrapping at 32 bits. */
  function UnitsHash(u: seq<int>): (h: int)
    ensures INT_MIN <= h <= INT_MAX
  {
    if u == [] then 0 else Wrap32(31 * UnitsHash(u[..|u| - 1]) + u[|u| - 1])
  }

  /** String.hashCode: the wrapped hash of the string's UTF-16 code units. */
  function StringHash(s: string): (h: int)
    ensures INT_MIN <= h <= INT_MAX
  {
    UnitsHash(Utf16(s))
  }

  /** A character outside the Basic Multilingual Plane is hashed as its surrogate pair: 31 * 0xD83D + 0xDE00. */
  lemma SupplementaryHash()
    ensures StringHash("\U{1F600}") == 1772899
  {
    var u := Utf16("\U{1F600}");
    assert u == [0xD83D, 0xDE00];
    assert u[..1] == [0xD83D] && u[..1][..0] == [];
    assert UnitsHash(u[..1]) == 0xD83D;
  }

  /** The documented value `s[0]*31^(n-1) + ... + s[n-1]` over the code units, without overflow. */
  function Polynomial(u: seq<int>): int {
    if u == [] then 0 else 31 * Polynomial(u[..|u| - 1]) + u[|u| - 1]
  }

  /** The wrapped hash agrees with the documented polynomial modulo 2^32. */
  lemma {:induction false} UnitsHashIsPolynomial(u: seq<int>)
    ensures (UnitsHash(u) - Polynomial(u)) % TWO_32 == 0
  {
    if u != [] {
      var init, c := u[..|u| - 1], u[|u| - 1];
      UnitsHashIsPolynomial(init);
      var t := MultipleOf(UnitsHash(init) - Polynomial(init));
      var n := 31 * UnitsHash(init) + c;
      var k := MultipleOf(n - Wrap32(n));
      assert UnitsHash(u) == Wrap32(n);
      assert Polynomial(u) == 31 * Polynomial(init) + c;
      assert UnitsHash(u) - Polynomial(u) == (31 * t - k) * TWO_32;
      MultipleMod(31 * t - k);
    }
  }

  /** String.hashCode agrees with the documented polynomial over the string's code units. */
  lemma StringHashIsPolynomial(s: string)
    ensures (StringHash(s) - Polynomial(Utf16(s))) % TWO_32 == 0
  {
    UnitsHashIsPolynomial(Utf16(s));
  }

  /** Names the quotient of a multiple of 2^32. */
  lemma MultipleOf(x: int) returns (k: int)
    requires x % TWO_32 == 0
    ensures x == k * TWO_32
  {
    k := x / TWO_32;
  }

  lemma MultipleMod(k: int)
    ensures (k * TWO_32) % TWO_32 == 0
  {
  }

  function DigitChar(d: int): (c: char)
    requires 0 <= d < 10
  {
    (d + '0' as int) as char
  }

  predicate IsDigits(s: string) {
    forall i :: 0 <= i < |s| ==> '0' <= s[i] <= '9'
  }

  /** The decimal digits of a natural number, most significant first, without leading zeros. */
  function Digits(n: nat): (s: string)
    ensures |s| > 0 && IsDigits(s)
  {
    if n < 10 then [DigitChar(n)] else Digits(n / 10) + [DigitChar(n % 10)]
  }

  /** Well-formed decimal text: an optional minus sign, then at least one digit. */
  predicate IsDecimal(s: string) {
    if |s| > 0 && s[0] == '-' then |s| > 1 && IsDigits(s[1..]) else |s| > 0 && IsDigits(s)
  }

  /** Integer.toString and String.valueOf(int): a minus sign for negatives, then the digits. */
  function DecimalText(n: int): (s: string)
    ensures IsDecimal(s)
    ensures s[0] == '-' <==> n < 0
  {
    if n < 0 then "-" + Digits(-n) else Digits(n)
  }

  function DigitsValue(s: string): nat
    requires IsDigits(s)
  {
    if s == [] then 0 else 10 * DigitsValue(s[..|s| - 1]) + (s[|s| - 1] as int - '0' as int)
  }

  /** Reads back what DecimalText writes (Integer.parseInt on well-formed text). */
  function ParseDecimal(s: string): int
    requires IsDecimal(s)
  {
    if s[0] == '-' then -(DigitsValue(s[1..]) as int) else DigitsValue(s)
  }

  lemma {:induction false} DigitsRoundTrip(n: nat)
    ensures DigitsValue(Digits(n)) == n
  {
    if n >= 10 {
      DigitsRoundTrip(n / 10);
      var s := Digits(n);
      assert s[..|s| - 1] == Digits(n / 10);
    }
  }

  /** DecimalText loses nothing: parsing it gives the number back. */
  lemma DecimalRoundTrip(n: int)
    ensures ParseDecimal(DecimalText(n)) == n
  {
    if n < 0 {
      assert DecimalText(n)[1..] == Digits(-n);
      DigitsRoundTrip(-n);
    } else {
      DigitsRoundTrip(n);
    }
  }

  /** Distinct numbers have distinct decimal texts. */
  lemma DecimalTextInjective(a: int, b: int)
    requires DecimalText(a) == DecimalText(b)
    ensures a == b
  {
    DecimalRoundTrip(a);
    DecimalRoundTrip(b);
  }
}
