/**
 * Python's `int(s, base)` for the bases Silk uses (10 for `int(s)`, 16, and
 * 0 for "guess from the prefix") and the integer formatting it relies on
 * (`'%x'`, `'%016x'`, `'{:016x}'`, `hex()`, `str()`), with the round trips
 * that tie the two together.
 */
module PyInt {
  import opened PyCore

  /** The value of an ASCII digit or letter as a digit of base 36. */
  function DigitValue(c: char): Option<nat>
  {
    if '0' <= c <= '9' then Some(c as int - '0' as int)
    else if 'a' <= c <= 'z' then Some(c as int - 'a' as int + 10)
    else if 'A' <= c <= 'Z' then Some(c as int - 'A' as int + 10)
    else None
  }

  predicate IsDigitIn(c: char, base: nat)
  {
    DigitValue(c).Some? && DigitValue(c).value < base
  }

  predicate AllDigits(s: string, base: nat)
  {
    forall i :: 0 <= i < |s| ==> IsDigitIn(s[i], base)
  }

  /** The big-endian value of a string of digits of `base`. */
  function DigitsValue(s: string, base: nat): nat
    requires AllDigits(s, base)
  {
    if s == [] then 0 else DigitsValue(s[..|s| - 1], base) * base + DigitValue(s[|s| - 1]).value
  }

  /** A non-empty run of digits of `base`, read as a number. */
  function Digits(s: string, base: nat): Option<nat>
  {
    if s != [] && AllDigits(s, base) then Some(DigitsValue(s, base)) else None
  }

  predicate HasPrefix(s: string, lower: char, upper: char)
  {
    |s| >= 2 && s[0] == '0' && (s[1] == lower || s[1] == upper)
  }

  /** The unsigned part of `int(s, base)`, after whitespace and sign are gone. */
  function Magnitude(body: string, base: nat): Option<nat>
    requires base == 0 || base == 10 || base == 16
  {
    if base == 16 then
      (if HasPrefix(body, 'x', 'X') then Digits(body[2..], 16) else Digits(body, 16))
    else if base == 10 then Digits(body, 10)
    else if HasPrefix(body, 'x', 'X') then Digits(body[2..], 16)
    else if HasPrefix(body, 'o', 'O') then Digits(body[2..], 8)
    else if HasPrefix(body, 'b', 'B') then Digits(body[2..], 2)
    else if body != [] && body[0] == '0' then
      // base 0 refuses a decimal with a leading zero unless it is all zeros
      (if forall i :: 0 <= i < |body| ==> body[i] == '0' then Some(0) else None)
    else Digits(body, 10)
  }

  /**
   * `int(s, base)` on a `str`: surrounding whitespace is ignored, one sign is
   * allowed, base 16 accepts a `0x` prefix and base 0 reads `0x`/`0o`/`0b`
   * prefixes or a plain decimal; anything else raises ValueError.
   */
  function ParseInt(s: string, base: nat): (r: Result<int>)
    requires base == 0 || base == 10 || base == 16
    ensures r.Err? ==> r.error == ValueError
  {
    ParseStripped(Strip(s), base)
  }

  /** `int(t, base)` for text without surrounding whitespace. */
  function ParseStripped(t: string, base: nat): (r: Result<int>)
    requires base == 0 || base == 10 || base == 16
    ensures r.Err? ==> r.error == ValueError
  {
    var neg := t != [] && t[0] == '-';
    var body := if t != [] && (t[0] == '-' || t[0] == '+') then t[1..] else t;
    match Magnitude(body, base)
    case None => Err(ValueError)
    case Some(m) => Ok(if neg then -(m as int) else m)
  }

  // -------------------------------------------------------------- formatting

  function HexChar(d: nat): (c: char)
    requires d < 16
    ensures DigitValue(c) == Some(d)
    ensures c != 'x' && c != 'X' && !IsSpace(c) && c != '-' && c != '+' && c != ':'
  {
    if d < 10 then ('0' as int + d) as char else ('a' as int + d - 10) as char
  }

  function DecChar(d: nat): (c: char)
    requires d < 10
    ensures DigitValue(c) == Some(d)
    ensures !IsSpace(c) && c != '-' && c != '+' && c != ':'
  {
    ('0' as int + d) as char
  }

  /** Appending one digit multiplies the value by the base and adds the digit. */
  lemma DigitsValueSnoc(s: string, c: char, base: nat)
    requires AllDigits(s, base) && IsDigitIn(c, base)
    ensures AllDigits(s + [c], base)
    ensures DigitsValue(s + [c], base) == DigitsValue(s, base) * base + DigitValue(c).value
  {
    assert (s + [c])[..|s|] == s;
  }

  /** `'%x' % n`: lowercase hex digits without leading zeros, which read back as `n`. */
  function Hex(n: nat): (r: string)
    ensures r != [] && AllDigits(r, 16) && DigitsValue(r, 16) == n
    ensures r[0] == '0' ==> n == 0
    ensures forall i :: 0 <= i < |r| ==> r[i] != 'x' && r[i] != 'X' && !IsSpace(r[i]) && r[i] != ':'
  {
    if n < 16 then [HexChar(n)]
    else
      var h := Hex(n / 16);
      DigitsValueSnoc(h, HexChar(n % 16), 16);
      h + [HexChar(n % 16)]
  }

  /** `str(n)` for a non-negative `n`: decimal digits without leading zeros. */
  function Dec(n: nat): (r: string)
    ensures r != [] && AllDigits(r, 10) && DigitsValue(r, 10) == n
    ensures r[0] == '0' ==> n == 0 && r == "0"
    ensures forall i :: 0 <= i < |r| ==> '0' <= r[i] <= '9'
  {
    if n < 10 then [DecChar(n)]
    else
      var h := Dec(n / 10);
      DigitsValueSnoc(h, DecChar(n % 10), 10);
      h + [DecChar(n % 10)]
  }

  /** `str(i)`. */
  function IntStr(i: int): string
  {
    if i < 0 then "-" + Dec(-i) else Dec(i)
  }

  /** `s` with `'0'`s in front up to `width` characters. */
  function PadZeros(s: string, width: nat): (r: string)
    ensures |r| == if |s| >= width then |s| else width
    ensures r[|r| - |s|..] == s
    ensures forall i :: 0 <= i < |r| - |s| ==> r[i] == '0'
    decreases width - |s|
  {
    if |s| >= width then s else PadZeros("0" + s, width)
  }

  /** `'%0{width}x' % i`: the sign, when there is one, takes one column of the width. */
  function FormatHex(i: int, width: nat): string
  {
    if i < 0 then "-" + PadZeros(Hex(-i), if width > 0 then width - 1 else 0)
    else PadZeros(Hex(i), width)
  }

  /** `hex(i)`. */
  function PyHex(i: int): string
  {
    if i < 0 then "-0x" + Hex(-i) else "0x" + Hex(i)
  }

  // ---------------------------------------------------------------- round trips

  /** Leading zeros do not change the value of a digit string. */
  lemma {:induction false} PadZerosValue(s: string, width: nat, base: nat)
    requires 2 <= base && AllDigits(s, base)
    ensures AllDigits(PadZeros(s, width), base)
    ensures DigitsValue(PadZeros(s, width), base) == DigitsValue(s, base)
    decreases width - |s|
  {
    if |s| < width {
      ZeroPrefixValue(s, base);
      PadZerosValue("0" + s, width, base);
    }
  }

  lemma {:induction false} ZeroPrefixValue(s: string, base: nat)
    requires 2 <= base && AllDigits(s, base)
    ensures AllDigits("0" + s, base)
    ensures DigitsValue("0" + s, base) == DigitsValue(s, base)
    decreases |s|
  {
    if s != [] {
      var t := "0" + s;
      assert t[..|t| - 1] == "0" + s[..|s| - 1];
      ZeroPrefixValue(s[..|s| - 1], base);
    }
  }

  /** A string of digits has nothing for `strip()` to remove. */
  lemma StripDigits(s: string)
    requires s != [] && !IsSpace(s[0]) && !IsSpace(s[|s| - 1])
    ensures Strip(s) == s
  {
    StripPadded([], s, []);
    assert [] + s + [] == s;
  }

  /** A hex digit string with no sign, space or `x` in it parses as its value in base 16. */
  lemma ParsePlainHex(s: string)
    requires s != [] && AllDigits(s, 16)
    requires forall i :: 0 <= i < |s| ==> PlainDigit(s[i])
    ensures ParseInt(s, 16) == Ok(DigitsValue(s, 16))
  {
    StripDigits(s);
    assert !HasPrefix(s, 'x', 'X') by {
      if |s| >= 2 { assert PlainDigit(s[1]); }
    }
  }

  predicate PlainDigit(c: char)
  {
    c != 'x' && c != 'X' && !IsSpace(c) && c != '-' && c != '+'
  }

  /** Padding hex digits with zeros keeps them plain digits. */
  lemma PaddedHexPlain(n: nat, width: nat)
    ensures forall i :: 0 <= i < |PadZeros(Hex(n), width)| ==> PlainDigit(PadZeros(Hex(n), width)[i])
  {
    var h := Hex(n);
    var s := PadZeros(h, width);
    forall i | 0 <= i < |s| ensures PlainDigit(s[i]) {
      if i >= |s| - |h| {
        assert s[i] == s[|s| - |h|..][i - (|s| - |h|)];
      }
    }
  }

  /** `int('%0{w}x' % n, 16) == n`. */
  lemma ParseHexOfPadded(n: nat, width: nat)
    ensures ParseInt(PadZeros(Hex(n), width), 16) == Ok(n)
  {
    PadZerosValue(Hex(n), width, 16);
    PaddedHexPlain(n, width);
    ParsePlainHex(PadZeros(Hex(n), width));
  }

  /** A plain hex digit string after a `0x` prefix parses as its value in base 16. */
  lemma ParsePrefixedHex(d: string)
    requires d != [] && AllDigits(d, 16)
    requires forall i :: 0 <= i < |d| ==> PlainDigit(d[i])
    ensures ParseInt("0x" + d, 16) == Ok(DigitsValue(d, 16))
  {
    var s := "0x" + d;
    assert PlainDigit(d[|d| - 1]);
    assert s[|s| - 1] == d[|d| - 1];
    StripDigits(s);
    PrefixedMagnitude(s, d);
  }

  lemma PrefixedMagnitude(s: string, d: string)
    requires d != [] && AllDigits(d, 16) && s == "0x" + d
    ensures ParseStripped(s, 16) == Ok(DigitsValue(d, 16))
  {
    assert s[0] == '0' && s[1] == 'x';
    assert s[2..] == d;
  }

  /** `int('0x' + '%0{w}x' % n, 16) == n`: the prefix is allowed in base 16. */
  lemma ParseHexOfPrefixed(n: nat, width: nat)
    ensures ParseInt("0x" + PadZeros(Hex(n), width), 16) == Ok(n)
  {
    PadZerosValue(Hex(n), width, 16);
    PaddedHexPlain(n, width);
    ParsePrefixedHex(PadZeros(Hex(n), width));
  }

  /** `int(str(n), 0) == n`: a decimal without leading zeros is accepted in base 0. */
  lemma ParseBase0OfDec(n: nat)
    ensures ParseInt(Dec(n), 0) == Ok(n)
  {
    var s := Dec(n);
    StripDigits(s);
    DecMagnitude(n);
    assert s[0] != '-' && s[0] != '+';
  }

  /** A decimal without leading zeros has no base prefix, so base 0 reads it in base 10. */
  lemma DecMagnitude(n: nat)
    ensures Magnitude(Dec(n), 0) == Some(n)
  {
    var s := Dec(n);
    if n == 0 {
      assert s == "0";
    } else {
      assert s[0] != '0';
      assert !HasPrefix(s, 'x', 'X') && !HasPrefix(s, 'o', 'O') && !HasPrefix(s, 'b', 'B');
    }
  }

  /** `int(str(n), 0) == n` for a non-negative `n`. */
  lemma ParseBase0OfIntStr(n: nat)
    ensures ParseInt(IntStr(n), 0) == Ok(n)
  {
    ParseBase0OfDec(n);
  }

  /** `int('%0{w}x' % n, 16) == n` for a non-negative `n`. */
  lemma ParseHexOfFormatHex(n: nat, width: nat)
    ensures ParseInt(FormatHex(n, width), 16) == Ok(n)
  {
    ParseHexOfPadded(n, width);
  }

  /** `int(str(i)) == i`. */
  lemma ParseDecOfIntStr(i: int)
    ensures ParseInt(IntStr(i), 10) == Ok(i)
  {
    var s := IntStr(i);
    var d := Dec(if i < 0 then -i else i);
    assert Strip(s) == s by {
      assert s[|s| - 1] == d[|d| - 1];
      StripDigits(s);
    }
    if i < 0 {
      NegativeDecBody(s, d);
    }
  }

  /** The body of a negative decimal after its sign is the decimal of its magnitude. */
  lemma NegativeDecBody(s: string, d: string)
    requires s == "-" + d
    ensures s != [] && s[0] == '-' && s[1..] == d
  {
  }

  // ------------------------------------------------------------ digit strings as numbers

  function Pow(b: nat, n: nat): nat
  {
    if n == 0 then 1 else b * Pow(b, n - 1)
  }

  lemma PowPositive(b: nat, n: nat)
    requires b >= 1
    ensures Pow(b, n) >= 1
  {
    if n > 0 {
      PowPositive(b, n - 1);
      MulAtLeast(b, Pow(b, n - 1));
    }
  }

  lemma MulAtLeast(x: nat, y: nat)
    requires x >= 1 && y >= 1
    ensures x * y >= y
  {
  }

  /** `x*b + d` with `d < b` determines `x` and `d`. */
  lemma {:induction false} MulAddUnique(x: nat, d: nat, y: nat, e: nat, b: nat)
    requires d < b && e < b && x * b + d == y * b + e
    ensures x == y && d == e
  {
    if x < y {
      MulLess(x, y, b);
      assert false;
    } else if y < x {
      MulLess(y, x, b);
      assert false;
    }
  }

  lemma MulLess(x: nat, y: nat, b: nat)
    requires x < y
    ensures x * b + b <= y * b
  {
    assert y * b == x * b + (y - x) * b;
    if b > 0 { MulAtLeast(y - x, b); }
  }

  lemma ShiftStep(x: int, p: int, y: int, b: int, d: int)
    ensures (x * p + y) * b + d == x * (b * p) + (y * b + d)
  {
    assert (x * p + y) * b == x * p * b + y * b;
    assert x * p * b == x * (b * p);
  }

  lemma {:induction false} DigitsValueSnocAll(s: string, base: nat)
    requires s != [] && AllDigits(s, base)
    ensures AllDigits(s[..|s| - 1], base)
    ensures DigitsValue(s, base) == DigitsValue(s[..|s| - 1], base) * base + DigitValue(s[|s| - 1]).value
  {
  }

  /** Digits written after `a` shift its value up by one place each. */
  lemma {:induction false} DigitsValueConcat(a: string, b: string, base: nat)
    requires AllDigits(a, base) && AllDigits(b, base)
    ensures AllDigits(a + b, base)
    ensures DigitsValue(a + b, base) == DigitsValue(a, base) * Pow(base, |b|) + DigitsValue(b, base)
    decreases |b|
  {
    if b == [] {
      assert a + b == a;
    } else {
      var b' := b[..|b| - 1];
      var ab := a + b;
      assert AllDigits(ab, base) by {
        forall i | 0 <= i < |ab| ensures IsDigitIn(ab[i], base) {
          if i < |a| { assert ab[i] == a[i]; } else { assert ab[i] == b[i - |a|]; }
        }
      }
      assert ab[..|ab| - 1] == a + b';
      assert ab[|ab| - 1] == b[|b| - 1];
      DigitsValueSnocAll(ab, base);
      DigitsValueSnocAll(b, base);
      DigitsValueConcat(a, b', base);
      ShiftStep(DigitsValue(a, base), Pow(base, |b'|), DigitsValue(b', base), base, DigitValue(b[|b| - 1]).value);
    }
  }

  lemma BoundStep(x: nat, p: nat, d: nat, b: nat)
    requires x < p && d < b
    ensures x * b + d < b * p
  {
    MulLess(x, p, b);
  }

  /** `n` digits of `base` are worth less than `base` to the `n`. */
  lemma {:induction false} DigitsValueBound(s: string, base: nat)
    requires base >= 1 && AllDigits(s, base)
    ensures DigitsValue(s, base) < Pow(base, |s|)
    decreases |s|
  {
    if s != [] {
      var s' := s[..|s| - 1];
      DigitsValueSnocAll(s, base);
      DigitsValueBound(s', base);
      BoundStep(DigitsValue(s', base), Pow(base, |s'|), DigitValue(s[|s| - 1]).value, base);
    }
  }

  /** Two digit strings of one length and one value have the same digit values, place by place. */
  lemma {:induction false} DigitsUnique(a: string, b: string, base: nat)
    requires base >= 1 && |a| == |b| && AllDigits(a, base) && AllDigits(b, base)
    requires DigitsValue(a, base) == DigitsValue(b, base)
    ensures forall k :: 0 <= k < |a| ==> DigitValue(a[k]) == DigitValue(b[k])
    decreases |a|
  {
    if a != [] {
      var a', b' := a[..|a| - 1], b[..|b| - 1];
      MulAddUnique(DigitsValue(a', base), DigitValue(a[|a| - 1]).value,
                   DigitsValue(b', base), DigitValue(b[|b| - 1]).value, base);
      DigitsUnique(a', b', base);
      forall k | 0 <= k < |a| ensures DigitValue(a[k]) == DigitValue(b[k]) {
        if k < |a| - 1 { assert a[k] == a'[k] && b[k] == b'[k]; }
      }
    }
  }

  /** A number below `16^n` takes at most `n` hex digits. */
  lemma {:induction false} HexLength(v: nat, n: nat)
    requires n >= 1 && v < Pow(16, n)
    ensures |Hex(v)| <= n
    decreases v
  {
    if v >= 16 {
      assert n >= 2;
      assert Pow(16, n) == 16 * Pow(16, n - 1);
      HexLength(v / 16, n - 1);
    }
  }

  /** `'%0{n}x' % v` for `v < 16^n`: exactly `n` digits worth `v`. */
  lemma PaddedHex(v: nat, n: nat)
    requires n >= 1 && v < Pow(16, n)
    ensures |PadZeros(Hex(v), n)| == n
    ensures AllDigits(PadZeros(Hex(v), n), 16) && DigitsValue(PadZeros(Hex(v), n), 16) == v
  {
    HexLength(v, n);
    PadZerosValue(Hex(v), n, 16);
  }

  // ------------------------------------------------------------ bits of Python ints

  lemma PowTwoPositive(k: nat)
    ensures Pow(2, k) >= 1
  {
    PowPositive(2, k);
  }

  /** Bit `k` of `x`, as `(x >> k) & 1` reads it: floor division, so two's complement for a negative `x`. */
  predicate BitSet(x: int, k: nat)
  {
    PowTwoPositive(k);
    (x / Pow(2, k)) % 2 == 1
  }

  /** `x | (1 << k)`. */
  function SetBit(x: int, k: nat): int
  {
    if BitSet(x, k) then x else x + Pow(2, k)
  }

  /** `x & ~(1 << k)`. */
  function ClearBit(x: int, k: nat): int
  {
    if BitSet(x, k) then x - Pow(2, k) else x
  }

  /** Euclidean division is determined by a quotient and a remainder in range. */
  lemma DivUnique(x: int, q: int, r: int, m: int)
    requires m > 0 && 0 <= r < m && x == q * m + r
    ensures x / m == q && x % m == r
  {
    var q', r' := x / m, x % m;
    assert x == q' * m + r';
    if q > q' {
      MulAtLeast(q - q', m);
      assert false;
    } else if q < q' {
      MulAtLeast(q' - q, m);
      assert false;
    }
  }

  /** Adding `2^k` flips bit `k` and leaves the bits above it to the carry. */
  lemma AddBitFlips(x: int, k: nat)
    ensures BitSet(x + Pow(2, k), k) <==> !BitSet(x, k)
  {
    var m := Pow(2, k);
    PowTwoPositive(k);
    DivUnique(x + m, x / m + 1, x % m, m);
  }

  /** Setting a bit and then clearing it is clearing it. */
  lemma ClearAfterSet(x: int, k: nat)
    ensures ClearBit(SetBit(x, k), k) == ClearBit(x, k)
  {
    AddBitFlips(x, k);
  }
}
