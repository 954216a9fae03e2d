/**
 * The integer conversions of alt_log_private_printf: sign, digit count,
 * padding and digits, printed for a 32-bit word and read back.
 */
module LogPrintf {
  import opened Integers
  import opened Matrices
  import opened Seqs

  const SIGN_BIT: nat := 0x8000_0000

  // ----- digits and what they mean

  function DigitChar(d: nat, upper: bool): (r: char)
    requires d < 16
  {
    if d < 10 then '0' + d as char else (if upper then 'A' else 'a') + (d - 10) as char
  }

  function DigitValue(c: char): (r: int) {
    if '0' <= c <= '9' then c as int - '0' as int
    else if 'a' <= c <= 'f' then c as int - 'a' as int + 10
    else if 'A' <= c <= 'F' then c as int - 'A' as int + 10
    else -1
  }

  predicate Digits(s: string, b: nat) {
    s != [] && forall i | 0 <= i < |s| :: 0 <= DigitValue(s[i]) < b
  }

  /** Positional notation, most significant digit first. */
  function Numeral(s: string, b: nat): (r: int) {
    if s == [] then 0 else Numeral(s[..|s| - 1], b) * b + DigitValue(s[|s| - 1])
  }

  /** Leading blanks, an optional minus sign, digits. */
  function Parse(s: string, b: nat): (r: int) {
    if s == [] then 0
    else if s[0] == ' ' then Parse(s[1..], b)
    else if s[0] == '-' then -Numeral(s[1..], b)
    else Numeral(s, b)
  }

  function Repeat(c: char, n: int): (s: string)
    ensures |s| == if n > 0 then n else 0
  {
    if n <= 0 then "" else [c] + Repeat(c, n - 1)
  }

  lemma {:induction false} ParseBlanks(n: int, s: string, b: nat)
    ensures Parse(Repeat(' ', n) + s, b) == Parse(s, b)
    decreases Max(n, 0)
  {
    if n <= 0 {
      assert Repeat(' ', n) + s == s;
    } else {
      assert (Repeat(' ', n) + s)[1..] == Repeat(' ', n - 1) + s;
      ParseBlanks(n - 1, s, b);
    }
  }

  lemma OneMore(n: int, p: int, x: int, b: int, d: int)
    ensures (n * p + x) * b + d == n * (b * p) + (x * b + d)
  {
    assert (n * p) * b == n * (b * p);
  }

  lemma {:induction false} NumeralAppend(s: string, t: string, b: nat)
    requires b > 0
    ensures Numeral(s + t, b) == Numeral(s, b) * Pow(b, |t|) + Numeral(t, b)
    decreases |t|
  {
    if t == [] {
      assert s + t == s;
    } else {
      var t' := t[..|t| - 1];
      assert (s + t)[..|s + t| - 1] == s + t';
      NumeralAppend(s, t', b);
      OneMore(Numeral(s, b), Pow(b, |t'|), Numeral(t', b), b, DigitValue(t[|t| - 1]));
    }
  }

  lemma {:induction false} NumeralZeros(n: int, b: nat)
    requires b > 0
    ensures Numeral(Repeat('0', n), b) == 0
    decreases Max(n, 0)
  {
    if n > 0 {
      NumeralZeros(n - 1, b);
      NumeralAppend("0", Repeat('0', n - 1), b);
      assert Numeral("0", b) == 0;
    }
  }

  lemma ZerosPrefix(n: int, s: string, b: nat)
    requires b > 0
    ensures Numeral(Repeat('0', n) + s, b) == Numeral(s, b)
  {
    NumeralZeros(n, b);
    NumeralAppend(Repeat('0', n), s, b);
  }

  // ----- counting digits

  /** How many digits v takes in base b. */
  function Len(v: nat, b: nat): (n: nat)
    requires b >= 2
    ensures n >= 1
  {
    if v < b then 1
    else
      Quotient(v, b);
      1 + Len(v / b, b)
  }

  lemma {:induction false} LenBounds(v: nat, b: nat)
    requires b >= 2
    ensures v < Pow(b, Len(v, b))
    decreases v
  {
    if v >= b {
      Quotient(v, b);
      LenBounds(v / b, b);
      Scale(b, v / b, Pow(b, Len(v / b, b)));
      Remainder(v, b);
    }
  }

  lemma {:induction false} PlaceBounds(v: nat, b: nat, k: nat)
    requires b >= 2 && k < Len(v, b)
    ensures k > 0 ==> Pow(b, k) <= v
    decreases v
  {
    if k > 0 {
      Quotient(v, b);
      PlaceBounds(v / b, b, k - 1);
      ScaleBelow(b, Pow(b, k - 1), v / b);
      Remainder(v, b);
    }
  }

  lemma Remainder(v: nat, b: nat)
    requires b > 0
    ensures b * (v / b) <= v < b * (v / b) + b
  {
  }

  /** q < m in whole numbers: b * q plus any remainder stays below b * m. */
  lemma Scale(b: nat, q: nat, m: nat)
    requires q < m
    ensures b * q + b <= b * m
  {
    Split(b, q, m - q - 1);
  }

  lemma Split(b: nat, q: nat, d: nat)
    ensures b * (q + 1 + d) == b * q + b + b * d && b * d >= 0
  {
  }

  lemma ScaleBelow(b: nat, m: nat, q: nat)
    requires m <= q
    ensures b * m <= b * q
  {
    assert b * (q - m) >= 0;
  }

  /** The largest place value stays within the word: it never passes v. */
  method CountDigits(v: nat, b: nat) returns (n: nat, p: nat)
    requires v < WORD && 2 <= b
    ensures n == Len(v, b) && p == Pow(b, n - 1) && p < WORD
  {
    var shrink: nat := v;
    n, p := 1, 1;
    while shrink / b > 0
      invariant n >= 1 && n - 1 + Len(shrink, b) == Len(v, b) && p == Pow(b, n - 1) && p < WORD
      decreases shrink
    {
      Quotient(shrink, b);
      PlaceBounds(v, b, n);
      shrink := shrink / b;
      n := n + 1;
      p := b * p;
    }
    Quotient(shrink, b);
  }

  lemma Quotient(x: nat, b: nat)
    requires b >= 2
    ensures x / b > 0 <==> x >= b
    ensures x > 0 ==> x / b < x
  {
  }

  lemma Below(v: nat, m: nat)
    requires m > 0
    ensures v / m == 0 <==> v < m
  {
  }

  /** The value of the k-th place from the right; none is left once k is 0. */
  function PlaceValue(b: nat, k: nat): (p: nat)
    requires b > 0
    ensures p == 0 <==> k == 0
  {
    if k == 0 then 0 else Pow(b, k - 1)
  }

  /** The digits printed, followed by k more for rest, make v. */
  ghost predicate Printed(out: string, k: nat, rest: nat, v: nat, b: nat)
    requires b > 0
  {
    Numeral(out, b) * Pow(b, k) + rest == v && rest < Pow(b, k)
  }

  /** The digit loop: v's digits in base b, as many as p's place asks for. */
  method PrintDigits(v: nat, p: nat, n: nat, b: nat, upper: bool) returns (out: string)
    requires 2 <= b <= 16 && n >= 1 && p == Pow(b, n - 1) && v < Pow(b, n)
    ensures |out| == n && Digits(out, b) && Numeral(out, b) == v
    ensures DigitValue(out[0]) == v / p && forall i | 0 <= i < |out| :: out[i] == DigitChar(DigitValue(out[i]), upper)
  {
    var rest: nat, place: nat := v, p;
    out := "";
    ghost var k, first := n, v / p;
    while place != 0
      invariant |out| + k == n && place == PlaceValue(b, k)
      invariant forall i | 0 <= i < |out| :: 0 <= DigitValue(out[i]) < b && out[i] == DigitChar(DigitValue(out[i]), upper)
      invariant Printed(out, k, rest, v, b)
      invariant if out == "" then rest == v && place == p else DigitValue(out[0]) == first
      decreases k
    {
      var d;
      d, rest, place := TakeDigit(out, rest, place, b, upper, k, v);
      out, k := out + [DigitChar(d, upper)], k - 1;
    }
  }

  /** The next digit, what is left of the value, and the next lower place. */
  method TakeDigit(out: string, rest: nat, place: nat, b: nat, upper: bool, ghost k: nat, ghost v: nat)
    returns (d: nat, rest': nat, place': nat)
    requires 2 <= b <= 16 && k > 0 && place == PlaceValue(b, k) && Printed(out, k, rest, v, b)
    ensures d < b && d == rest / place && DigitValue(DigitChar(d, upper)) == d
    ensures place' == PlaceValue(b, k - 1) && Printed(out + [DigitChar(d, upper)], k - 1, rest', v, b)
  {
    d := rest / place;
    DigitStep(rest, place, b, k);
    Emit(out, d, rest, place, b, k, v, upper);
    rest', place' := rest % place, place / b;
  }

  /** One digit moves from what is left of v to what is printed of it. */
  lemma Emit(out: string, d: nat, rest: nat, place: nat, b: nat, k: nat, v: nat, upper: bool)
    requires 2 <= b <= 16 && k > 0 && place == PlaceValue(b, k) && d == rest / place && d < b
    requires Printed(out, k, rest, v, b)
    ensures Printed(out + [DigitChar(d, upper)], k - 1, rest % place, v, b)
    ensures DigitValue(DigitChar(d, upper)) == d
    ensures place / b == PlaceValue(b, k - 1)
  {
    CharOfDigit(d, upper);
    LowerPlace(b, k - 1);
    NumeralPush(out, DigitChar(d, upper), b);
    Horner(Numeral(out, b), b, d, place, rest);
    assert Pow(b, k) == b * place;
  }

  lemma NumeralPush(s: string, c: char, b: nat)
    ensures Numeral(s + [c], b) == Numeral(s, b) * b + DigitValue(c)
  {
    assert (s + [c])[..|s|] == s;
  }

  lemma CharOfDigit(d: nat, upper: bool)
    requires d < 16
    ensures DigitValue(DigitChar(d, upper)) == d
  {
  }

  lemma LessFactor(q: nat, b: nat, m: nat)
    requires q * m < b * m
    ensures q < b
  {
  }

  lemma DigitStep(rest: nat, place: nat, b: nat, k: nat)
    requires b >= 2 && k > 0 && place == PlaceValue(b, k) && rest < Pow(b, k)
    ensures rest / place < b
  {
    assert rest == (rest / place) * place + rest % place;
    LessFactor(rest / place, b, place);
  }

  lemma Horner(high: int, b: nat, d: nat, place: nat, rest: nat)
    requires place > 0 && d == rest / place
    ensures (high * b + d) * place + rest % place == high * (b * place) + rest
  {
    assert rest == d * place + rest % place;
    assert (high * b + d) * place == high * b * place + d * place;
    assert high * b * place == high * (b * place);
  }

  lemma LowerPlace(b: nat, k: nat)
    requires b >= 2
    ensures Pow(b, k) / b == if k == 0 then 0 else Pow(b, k - 1)
  {
    if k > 0 { QuotientUnique(Pow(b, k), Pow(b, k - 1), 0, b); }
  }

  // ----- the whole field

  /** The number a word stands for under the conversion. */
  function Value(word: nat, signed: bool): (r: int) {
    if signed && word >= SIGN_BIT then word - WORD else word
  }

  /** Sign, padding and digits in the order the flag asks for. */
  function Field(leadingZero: bool, sign: bool, pad: int, digits: string): (r: string) {
    var minus := if sign then "-" else "";
    if leadingZero then minus + Repeat('0', pad) + digits else Repeat(' ', pad) + minus + digits
  }

  lemma ParseSigned(sign: bool, s: string, b: nat)
    requires s != [] && s[0] != ' ' && s[0] != '-'
    ensures Parse((if sign then "-" else "") + s, b) == if sign then -Numeral(s, b) else Numeral(s, b)
  {
    if sign { assert ("-" + s)[1..] == s; } else { assert "" + s == s; }
  }

  lemma ZerosParse(sign: bool, pad: int, digits: string, b: nat)
    requires b > 0 && Digits(digits, b)
    ensures Parse(((if sign then "-" else "") + Repeat('0', pad)) + digits, b)
         == if sign then -Numeral(digits, b) else Numeral(digits, b)
  {
    var minus, s := if sign then "-" else "", Repeat('0', pad) + digits;
    ZerosFirst(pad, digits, b);
    ZerosPrefix(pad, digits, b);
    Assoc(minus, Repeat('0', pad), digits);
    ParseSigned(sign, s, b);
  }

  lemma ZerosFirst(pad: int, digits: string, b: nat)
    requires Digits(digits, b)
    ensures var s := Repeat('0', pad) + digits; s != [] && s[0] != ' ' && s[0] != '-'
  {
    assert 0 <= DigitValue(digits[0]);
    if pad > 0 { assert Repeat('0', pad)[0] == '0'; }
  }

  lemma BlanksParse(sign: bool, pad: int, digits: string, b: nat)
    requires b > 0 && Digits(digits, b)
    ensures Parse((Repeat(' ', pad) + if sign then "-" else "") + digits, b)
         == if sign then -Numeral(digits, b) else Numeral(digits, b)
  {
    var minus := if sign then "-" else "";
    assert 0 <= DigitValue(digits[0]);
    ParseBlanks(pad, minus + digits, b);
    assert (Repeat(' ', pad) + minus) + digits == Repeat(' ', pad) + (minus + digits);
    ParseSigned(sign, digits, b);
  }

  lemma FieldParses(leadingZero: bool, sign: bool, pad: int, digits: string, b: nat)
    requires b > 0 && Digits(digits, b)
    ensures Parse(Field(leadingZero, sign, pad, digits), b) == if sign then -Numeral(digits, b) else Numeral(digits, b)
  {
    if leadingZero { ZerosParse(sign, pad, digits, b); } else { BlanksParse(sign, pad, digits, b); }
  }

  lemma FieldIsLong(leadingZero: bool, sign: bool, width: int, digits: string)
    ensures var minus := if sign then 1 else 0;
            |Field(leadingZero, sign, width - |digits| - minus, digits)| == Max(width, |digits| + minus)
  {
  }

  /** alt_log_repchar */
  method RepChar(c: char, r: int) returns (out: string)
    ensures out == Repeat(c, r)
  {
    var left := r;
    out := "";
    while left > 0
      invariant out == Repeat(c, r - Max(left, 0))
      decreases left
    {
      assert [c] + out == out + [c] by { Uniform(c, r - left); }
      out := out + [c];
      left := left - 1;
    }
  }

  lemma {:induction false} Uniform(c: char, n: int)
    ensures [c] + Repeat(c, n) == Repeat(c, n) + [c]
    decreases Max(n, 0)
  {
    if n > 0 {
      Uniform(c, n - 1);
      assert ([c] + Repeat(c, n - 1)) + [c] == [c] + (Repeat(c, n - 1) + [c]);
    }
  }

  /** The letter that ends a format: d or i, u, o, x, X. */
  datatype Conversion = SignedDecimal | UnsignedDecimal | Octal | LowerHex | UpperHex

  function Base(c: Conversion): (r: nat) {
    match c case Octal => 8 case LowerHex => 16 case UpperHex => 16 case _ => 10
  }

  /**
   * width is -1 when the format has none. The field parses back to the word's
   * value, its digits are in the conversion's case with no needless leading
   * one, and it is as long as the width or the number, whichever is longer.
   */
  method PrintInteger(word: nat, c: Conversion, leadingZero: bool, width: int) returns (out: string, ghost digits: string)
    requires word < WORD
    ensures Parse(out, Base(c)) == Value(word, c.SignedDecimal?)
    ensures Digits(digits, Base(c)) && (|digits| > 1 ==> DigitValue(digits[0]) > 0)
    ensures forall i | 0 <= i < |digits| :: digits[i] == DigitChar(DigitValue(digits[i]), c.UpperHex?)
    ensures var minus := if Value(word, c.SignedDecimal?) < 0 then 1 else 0;
            && out == Field(leadingZero, minus == 1, width - |digits| - minus, digits)
            && |out| == Max(width, |digits| + minus)
  {
    var signed, b, upper := c.SignedDecimal?, Base(c), c.UpperHex?;
    var v, sign := word, false;
    if signed && word >= SIGN_BIT {
      v, sign := (WORD - 1 - v + 1) % WORD, true;
    }
    var n, p := CountDigits(v, b);
    var before := width - n - if sign then 1 else 0;
    var front := Front(leadingZero, sign, before);
    var number := PrintNumber(v, p, n, b, upper);
    FieldParses(leadingZero, sign, before, number, b);
    FieldIsLong(leadingZero, sign, width, number);
    out, digits := front + number, number;
  }

  /** The digits of v, whose first is not zero unless it is the only one. */
  method PrintNumber(v: nat, p: nat, n: nat, b: nat, upper: bool) returns (out: string)
    requires 2 <= b <= 16 && n == Len(v, b) && p == Pow(b, n - 1)
    ensures |out| == n && Digits(out, b) && Numeral(out, b) == v && (n > 1 ==> DigitValue(out[0]) > 0)
    ensures forall i | 0 <= i < |out| :: out[i] == DigitChar(DigitValue(out[i]), upper)
  {
    LenBounds(v, b);
    PlaceBounds(v, b, n - 1);
    Below(v, p);
    out := PrintDigits(v, p, n, b, upper);
  }

  /** Sign and padding. */
  method Front(leadingZero: bool, sign: bool, before: int) returns (out: string)
    ensures var minus := if sign then "-" else "";
            out == if leadingZero then minus + Repeat('0', before) else Repeat(' ', before) + minus
  {
    if leadingZero {
      out := "";
      if sign { out := "-"; }
      var zeros := RepChar('0', before);
      out := out + zeros;
    } else {
      out := RepChar(' ', before);
      if sign { out := out + "-"; }
    }
  }
}
