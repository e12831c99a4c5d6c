/** The pieces of the JavaScript runtime the application relies on:
    String.prototype.trim, toUpperCase and repeat, String(n) for integers,
    Number(s) on integer literals, Math.round of a quotient, and the
    `x || 0` fallback on nullable numbers. */
module JsRuntime {
  import opened Wrappers

  // ---------------------------------------------------------------------
  // White space and String.prototype.trim
  // ---------------------------------------------------------------------

  /** ECMAScript WhiteSpace and LineTerminator code points: what trim() and Number() strip. */
  predicate IsWhiteSpace(c: char) {
    || c == '\t' || c == '\n' || c == '\U{B}' || c == '\U{C}' || c == '\r' || c == ' '
    || c == '\U{A0}' || c == '\U{1680}' || ('\U{2000}' <= c <= '\U{200A}')
    || c == '\U{2028}' || c == '\U{2029}' || c == '\U{202F}' || c == '\U{205F}'
    || c == '\U{3000}' || c == '\U{FEFF}'
  }

  predicate AllWhiteSpace(s: string) {
    forall i :: 0 <= i < |s| ==> IsWhiteSpace(s[i])
  }

  /** Neither end of `s` is white space. */
  predicate IsTrimmed(s: string) {
    s == [] || (!IsWhiteSpace(s[0]) && !IsWhiteSpace(s[|s| - 1]))
  }

  /** Drops the leading white space: what is left is a suffix of `s` that does not start with white space. */
  function TrimStart(s: string): (r: string)
    ensures |r| <= |s| && r == s[|s| - |r|..]
    ensures AllWhiteSpace(s[..|s| - |r|])
    ensures r != [] ==> !IsWhiteSpace(r[0])
  {
    if s != [] && IsWhiteSpace(s[0]) then TrimStart(s[1..]) else s
  }

  /** Drops the trailing white space: what is left is a prefix of `s` that does not end with white space. */
  function TrimEnd(s: string): (r: string)
    ensures |r| <= |s| && r == s[..|r|]
    ensures AllWhiteSpace(s[|r|..])
    ensures r != [] ==> !IsWhiteSpace(r[|r| - 1])
  {
    if s != [] && IsWhiteSpace(s[|s| - 1]) then TrimEnd(s[..|s| - 1]) else s
  }

  /** String.prototype.trim: the slice of `s` left after removing white space at both ends. */
  function Trim(s: string): (r: string)
    ensures IsTrimmed(r)
    ensures exists i, j :: 0 <= i <= j <= |s| && r == s[i..j] && AllWhiteSpace(s[..i]) && AllWhiteSpace(s[j..])
  {
    var t := TrimStart(s);
    var r := TrimEnd(t);
    var i, j := |s| - |t|, |s| - |t| + |r|;
    assert t == s[i..];
    assert r == s[i..j] && s[j..] == t[|r|..];
    assert AllWhiteSpace(s[..i]) && AllWhiteSpace(s[j..]);
    assert r != [] ==> r[0] == t[0];
    r
  }

  lemma {:induction false} TrimStartPadded(w: string, u: string)
    requires AllWhiteSpace(w)
    requires u == [] || !IsWhiteSpace(u[0])
    ensures TrimStart(w + u) == u
  {
    if w == [] {
      assert w + u == u;
    } else {
      assert (w + u)[1..] == w[1..] + u;
      TrimStartPadded(w[1..], u);
    }
  }

  lemma {:induction false} TrimEndPadded(u: string, w: string)
    requires AllWhiteSpace(w)
    requires u == [] || !IsWhiteSpace(u[|u| - 1])
    ensures TrimEnd(u + w) == u
  {
    if w == [] {
      assert u + w == u;
    } else {
      var v := u + w;
      assert v[..|v| - 1] == u + w[..|w| - 1];
      TrimEndPadded(u, w[..|w| - 1]);
    }
  }

  /** Trim removes exactly the white-space padding around a trimmed text. */
  lemma TrimPadded(w1: string, t: string, w2: string)
    requires AllWhiteSpace(w1) && AllWhiteSpace(w2) && IsTrimmed(t)
    ensures Trim(w1 + t + w2) == t
  {
    if t == [] {
      assert w1 + t + w2 == w1 + w2;
      assert AllWhiteSpace(w1 + w2);
      TrimStartPadded(w1 + w2, []);
      assert w1 + w2 + [] == w1 + w2;
    } else {
      assert w1 + t + w2 == w1 + (t + w2);
      TrimStartPadded(w1, t + w2);
      TrimEndPadded(t, w2);
    }
  }

  /** A trimmed string is its own trim. */
  lemma TrimOfTrimmed(s: string)
    requires IsTrimmed(s)
    ensures Trim(s) == s
  {
    assert [] + s + [] == s;
    TrimPadded([], s, []);
  }

  /** Trimming twice is trimming once. */
  lemma TrimIdempotent(s: string)
    ensures Trim(Trim(s)) == Trim(s)
  {
    TrimOfTrimmed(Trim(s));
  }

  // ---------------------------------------------------------------------
  // String.prototype.toUpperCase and String.prototype.repeat
  // ---------------------------------------------------------------------

  function UpperChar(c: char): char {
    if 'a' <= c <= 'z' then (c as int - 32) as char else c
  }

  /** String.prototype.toUpperCase on the ASCII letters; every other character is kept. */
  function ToUpperCase(s: string): (r: string)
    ensures |r| == |s|
    ensures forall i :: 0 <= i < |s| ==> r[i] == UpperChar(s[i])
  {
    if s == [] then [] else [UpperChar(s[0])] + ToUpperCase(s[1..])
  }

  /** A text without lower-case ASCII letters is its own upper case. */
  lemma ToUpperCaseOfUpper(s: string)
    requires forall i :: 0 <= i < |s| ==> !('a' <= s[i] <= 'z')
    ensures ToUpperCase(s) == s
  {
  }

  /** `count` copies of `s`, back to back. */
  function RepeatNat(s: string, count: nat): (r: string)
    ensures |r| == |s| * count
  {
    if count == 0 then [] else s + RepeatNat(s, count - 1)
  }

  /** Copies of `s` start with `s` and repeat themselves with period |s|. */
  lemma {:induction false} RepeatNatShape(s: string, count: nat)
    ensures var r := RepeatNat(s, count);
      && (count > 0 ==> |s| <= |r| && r[..|s|] == s)
      && (forall i :: |s| <= i < |r| ==> r[i] == r[i - |s|])
  {
    if count > 0 {
      RepeatNatShape(s, count - 1);
      var rest := RepeatNat(s, count - 1);
      var r := s + rest;
      assert RepeatNat(s, count) == r;
      forall i | |s| <= i < |r|
        ensures r[i] == r[i - |s|]
      {
        assert r[i] == rest[i - |s|];
        if i - |s| >= |s| {
          assert rest[i - |s|] == rest[i - |s| - |s|];
        }
      }
    }
  }

  lemma {:induction false} RepeatAdd(s: string, a: nat, b: nat)
    ensures RepeatNat(s, a) + RepeatNat(s, b) == RepeatNat(s, a + b)
  {
    if a == 0 {
      assert RepeatNat(s, a) == [];
    } else {
      var front, back := RepeatNat(s, a - 1), RepeatNat(s, b);
      RepeatAdd(s, a - 1, b);
      assert RepeatNat(s, a) == s + front;
      assert RepeatNat(s, a + b) == s + RepeatNat(s, a - 1 + b);
      assert (s + front) + back == s + (front + back);
    }
  }

  /** String.prototype.repeat: a negative count throws a RangeError (None here). */
  function Repeat(s: string, count: int): (r: Option<string>)
    ensures r.Some? <==> count >= 0
    ensures r.Some? ==> |r.value| == |s| * count
    ensures r.Some? && count > 0 ==> r.value[..|s|] == s
    ensures r.Some? ==> forall i :: |s| <= i < |r.value| ==> r.value[i] == r.value[i - |s|]
  {
    if count < 0 then None
    else
      RepeatNatShape(s, count);
      Some(RepeatNat(s, count))
  }

  // ---------------------------------------------------------------------
  // Digits, String(n) and Number(s)
  // ---------------------------------------------------------------------

  /** The value of a digit character in bases up to 36; 36 for anything else. */
  function DigitValue(c: char): nat {
    if '0' <= c <= '9' then c as int - '0' as int
    else if 'a' <= c <= 'z' then c as int - 'a' as int + 10
    else if 'A' <= c <= 'Z' then c as int - 'A' as int + 10
    else 36
  }

  predicate AllDigitsIn(s: string, base: nat) {
    forall i :: 0 <= i < |s| ==> DigitValue(s[i]) < base
  }

  /** The number a string of digits in `base` denotes, most significant digit first. */
  function DigitsValue(s: string, base: nat): nat {
    if s == [] then 0 else DigitsValue(s[..|s| - 1], base) * base + DigitValue(s[|s| - 1])
  }

  function DigitChar(d: nat): (c: char)
    requires d < 10
    ensures DigitValue(c) == d
  {
    ('0' as int + d) as char
  }

  /** The decimal numeral of `n`, without leading zeros. */
  function NatToDecimal(n: nat): (r: string)
    ensures r != [] && AllDigitsIn(r, 10)
    ensures |r| > 1 ==> r[0] != '0'
    ensures n > 0 ==> r[0] != '0'
    ensures DigitsValue(r, 10) == n
  {
    if n < 10 then [DigitChar(n)]
    else
      var r := NatToDecimal(n / 10) + [DigitChar(n % 10)];
      assert r[..|r| - 1] == NatToDecimal(n / 10);
      r
  }

  /** String(k) for an integer-valued Number. */
  function IntToString(k: int): (r: string)
    ensures r != [] && IsTrimmed(r)
    ensures k >= 0 ==> AllDigitsIn(r, 10)
    ensures k < 0 ==> r[0] == '-' && AllDigitsIn(r[1..], 10)
    ensures |r| >= 2 ==> r[0] != '0'
    ensures k < 0 ==> |r| >= 2 && r[1] != '0'
  {
    if k < 0 then "-" + NatToDecimal(-k) else NatToDecimal(k)
  }

  /** Distinct integers print differently. */
  lemma IntToStringInjective(a: int, b: int)
    requires IntToString(a) == IntToString(b)
    ensures a == b
  {
    if a < 0 && b < 0 {
      assert NatToDecimal(-a) == IntToString(a)[1..] == NatToDecimal(-b);
    }
  }

  /** What Number(s) gives. Integer values a double holds exactly are
      computed, and values beyond the double range are infinite. Decimal
      literals with a fraction or an exponent, and integers that a double
      would round (above 2^53 in magnitude), are recognised but their value
      is not evaluated. */
  datatype NumberValue = Finite(value: int) | Infinite | NaN | NotEvaluated

  /** Number.MAX_SAFE_INTEGER + 1: every integer up to this magnitude is a double. */
  const MaxExactInteger: int := 0x20_0000_0000_0000

  /** The least magnitude that rounds to Infinity: halfway between
      Number.MAX_VALUE and 2^1024, a tie that round-half-even sends up. */
  const DoubleOverflow: int := 0xfffffffffffffc00000000000000000000000000000000000000000000000000000000000000000000000000000000000000000000000000000000000000000000000000000000000000000000000000000000000000000000000000000000000000000000000000000000000000000000000000000000000000000000000000

  /** The double an integer-valued literal denotes. */
  function ToDouble(v: int): (r: NumberValue)
    ensures -MaxExactInteger <= v <= MaxExactInteger ==> r == Finite(v)
    ensures v >= DoubleOverflow || v <= -DoubleOverflow ==> r == Infinite
    ensures r.Finite? || r.Infinite? || r.NotEvaluated?
  {
    if -MaxExactInteger <= v <= MaxExactInteger then Finite(v)
    else if v >= DoubleOverflow || v <= -DoubleOverflow then Infinite
    else NotEvaluated
  }

  /** A decimal mantissa: digits, or digits with one '.', with at least one digit. */
  predicate IsDecimalMantissa(m: string) {
    || (m != [] && AllDigitsIn(m, 10))
    || (|m| > 1 && exists k :: 0 <= k < |m| && m[k] == '.' && AllDigitsIn(m[..k], 10) && AllDigitsIn(m[k + 1..], 10))
  }

  /** The part after 'e' or 'E': an optional sign and at least one digit. */
  predicate IsExponentDigits(e: string) {
    if e != [] && (e[0] == '+' || e[0] == '-') then |e| > 1 && AllDigitsIn(e[1..], 10)
    else e != [] && AllDigitsIn(e, 10)
  }

  /** An unsigned decimal literal that has a fraction or an exponent part. */
  predicate IsNonIntegerDecimal(u: string) {
    || (exists k :: 0 <= k < |u| && (u[k] == 'e' || u[k] == 'E') && IsDecimalMantissa(u[..k]) && IsExponentDigits(u[k + 1..]))
    || ('.' in u && IsDecimalMantissa(u))
  }

  function RadixOf(c: char): nat {
    if c == 'x' || c == 'X' then 16
    else if c == 'o' || c == 'O' then 8
    else if c == 'b' || c == 'B' then 2
    else 0
  }

  /** A literal "0x…", "0o…" or "0b…": its digits must all belong to the radix. */
  function RadixLiteral(t: string): (r: NumberValue)
    requires |t| >= 2 && RadixOf(t[1]) != 0
  {
    var digits := t[2..];
    if digits != [] && AllDigitsIn(digits, RadixOf(t[1])) then ToDouble(DigitsValue(digits, RadixOf(t[1])))
    else NaN
  }

  /** An optionally signed decimal literal, or Infinity. */
  function DecimalLiteral(t: string): (r: NumberValue)
    requires t != []
  {
    var sign := if t[0] == '-' then -1 else 1;
    var u := if t[0] == '+' || t[0] == '-' then t[1..] else t;
    if u == "Infinity" then Infinite
    else if u != [] && AllDigitsIn(u, 10) then ToDouble(sign * DigitsValue(u, 10))
    else if IsNonIntegerDecimal(u) then NotEvaluated
    else NaN
  }

  /** Number(s): StringToNumber of ECMAScript on the trimmed text. */
  function StringToNumber(str: string): (r: NumberValue)
    ensures Trim(str) == [] ==> r == Finite(0)
  {
    var t := Trim(str);
    if t == [] then Finite(0)
    else if |t| >= 2 && t[0] == '0' && RadixOf(t[1]) != 0 then RadixLiteral(t)
    else DecimalLiteral(t)
  }

  lemma DecimalLiteralOfIntToString(k: int)
    requires -MaxExactInteger <= k <= MaxExactInteger
    ensures DecimalLiteral(IntToString(k)) == Finite(k)
  {
    var s := IntToString(k);
    if k < 0 {
      assert s[1..] == NatToDecimal(-k);
      assert s[0] == '-';
    } else {
      assert DigitValue(s[0]) < 10;
    }
  }

  /** On a trimmed text that cannot start a radix literal, Number reads a decimal literal. */
  lemma NumberOfDecimalText(s: string)
    requires s != [] && Trim(s) == s
    requires !(|s| >= 2 && s[0] == '0')
    ensures StringToNumber(s) == DecimalLiteral(s)
  {
  }

  lemma NumberOfIntToStringIsDecimal(k: int)
    ensures StringToNumber(IntToString(k)) == DecimalLiteral(IntToString(k))
  {
    var s := IntToString(k);
    TrimOfTrimmed(s);
    NumberOfDecimalText(s);
  }

  /** Number() reads "Infinity", "+Infinity" and "-Infinity" as an infinite value. */
  lemma NumberOfInfinity(sign: string)
    requires sign == "" || sign == "+" || sign == "-"
    ensures IsTrimmed(sign + "Infinity")
    ensures StringToNumber(sign + "Infinity") == Infinite
  {
    var t := sign + "Infinity";
    assert t[0] != '0' && t[|t| - 1] == 'y';
    var u := if t[0] == '+' || t[0] == '-' then t[1..] else t;
    assert u == "Infinity";
    assert DecimalLiteral(t) == Infinite;
    TrimOfTrimmed(t);
    NumberOfDecimalText(t);
  }

  /** Number(String(k)) == k for every integer a double holds exactly. */
  lemma NumberOfIntToString(k: int)
    requires -MaxExactInteger <= k <= MaxExactInteger
    ensures StringToNumber(IntToString(k)) == Finite(k)
  {
    NumberOfIntToStringIsDecimal(k);
    DecimalLiteralOfIntToString(k);
  }

  lemma HugeDecimal(t: string, k: int)
    requires t != [] && AllDigitsIn(t, 10) && DigitsValue(t, 10) == k && k >= DoubleOverflow
    ensures DecimalLiteral(t) == Infinite
  {
    assert DigitValue(t[0]) < 10 && DigitValue(t[|t| - 1]) < 10;
    assert t != "Infinity";
    assert ToDouble(k) == Infinite;
  }

  /** A numeral too large for a double reads as Infinity. */
  lemma NumberOfHugeNumeral(k: int)
    requires k >= DoubleOverflow
    ensures IsTrimmed(NatToDecimal(k))
    ensures StringToNumber(NatToDecimal(k)) == Infinite
  {
    var t := NatToDecimal(k);
    assert IntToString(k) == t;
    TrimOfTrimmed(t);
    NumberOfDecimalText(t);
    HugeDecimal(t, k);
  }

  // ---------------------------------------------------------------------
  // Math.round and nullable-number fallbacks
  // ---------------------------------------------------------------------

  /** Math.round(p / q) computed exactly: the integer nearest to p/q, halves
      rounded up. With the sign moved to the numerator (p/q == n/d, d > 0),
      r - 1/2 <= n/d < r + 1/2. */
  function RoundQuotient(p: int, q: int): (r: int)
    requires q != 0
    ensures var n, d := (if q > 0 then p else -p), (if q > 0 then q else -q);
      2 * d * r - d <= 2 * n < 2 * d * r + d
  {
    var n, d := (if q > 0 then p else -p), (if q > 0 then q else -q);
    (2 * n + d) / (2 * d)
  }

  /** `x || 0` on a nullable number. */
  function OrZero(x: Option<int>): int {
    if x.Some? then x.value else 0
  }

  /** Whether a nullable number is truthy: present and not 0. */
  predicate IsTruthy(x: Option<int>) {
    x.Some? && x.value != 0
  }
}
