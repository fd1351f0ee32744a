/**
 * `int(float(s))` on a `str`, the way `ConfigParser.getfloat` followed by
 * `int()` reads a number: surrounding whitespace is ignored, one sign is
 * allowed, the text is a decimal literal with an optional fraction and
 * exponent, or one of the words `inf`, `infinity` and `nan` in any case.
 * The result is the value truncated toward zero; infinity raises
 * OverflowError and not-a-number ValueError.
 *
 * The literal is read exactly, as a decimal, not rounded to the nearest
 * double first.
 */
module PyFloat {
  import opened PyCore
  import opened PyInt

  function LowerChar(c: char): char
  {
    if 'A' <= c <= 'Z' then (c as int + 32) as char else c
  }

  /** `s.lower() == word` for an all-lower-case ASCII `word`. */
  predicate Spelled(s: string, word: string)
  {
    |s| == |word| && forall i :: 0 <= i < |s| ==> LowerChar(s[i]) == word[i]
  }

  /** The index of the first `c` or `C2` in `s`, or `|s|` when there is none. */
  function FirstOf(s: string, c: char, c2: char): (n: nat)
    ensures n <= |s|
    ensures forall i :: 0 <= i < n ==> s[i] != c && s[i] != c2
    ensures n < |s| ==> s[n] == c || s[n] == c2
  {
    if s == [] then 0
    else if s[0] == c || s[0] == c2 then 0
    else 1 + FirstOf(s[1..], c, c2)
  }

  /** An exponent: one optional sign and a non-empty run of decimal digits. */
  function Exponent(t: string): Option<int>
  {
    var body := if t != [] && (t[0] == '-' || t[0] == '+') then t[1..] else t;
    match Digits(body, 10)
    case None => None
    case Some(d) => Some(if t != [] && t[0] == '-' then -(d as int) else d)
  }

  /**
   * An unsigned decimal literal `whole[.frac][e exp]` with at least one
   * digit before the exponent, as the integer of its digits and the power
   * of ten it is scaled by.
   */
  function Decimal(body: string): Option<(nat, int)>
  {
    var e := FirstOf(body, 'e', 'E');
    var exp := if e == |body| then Some(0) else Exponent(body[e + 1..]);
    var mant := body[..e];
    var dot := FirstOf(mant, '.', '.');
    var whole := mant[..dot];
    var frac := if dot < |mant| then mant[dot + 1..] else [];
    if whole + frac == [] || !AllDigits(whole + frac, 10) || exp.None? then None
    else Some((DigitsValue(whole + frac, 10), exp.value - |frac|))
  }

  /** `n` times ten to the `e`, truncated toward zero. */
  function Scaled(n: nat, e: int): nat
  {
    if e >= 0 then n * Pow(10, e) else PowPositive(10, -e); n / Pow(10, -e)
  }

  /** `abs(int(float(body)))` for the text after the sign. */
  function FloatMagnitude(body: string): (r: Result<nat>)
    ensures r.Err? ==> r.error == ValueError || r.error == OverflowError
  {
    if Spelled(body, "inf") || Spelled(body, "infinity") then Err(OverflowError)
    else if Spelled(body, "nan") then Err(ValueError)
    else match Decimal(body)
      case None => Err(ValueError)
      case Some((n, e)) => Ok(Scaled(n, e))
  }

  /** `int(float(s))`. */
  function FloatToInt(s: string): (r: Result<int>)
    ensures r.Err? ==> r.error == ValueError || r.error == OverflowError
  {
    Stripped(Strip(s))
  }

  /** `int(float(t))` for text without surrounding whitespace. */
  function Stripped(t: string): (r: Result<int>)
    ensures r.Err? ==> r.error == ValueError || r.error == OverflowError
  {
    var neg := t != [] && t[0] == '-';
    var body := if t != [] && (t[0] == '-' || t[0] == '+') then t[1..] else t;
    match FloatMagnitude(body)
    case Err(e) => Err(e)
    case Ok(m) => Ok(if neg then -(m as int) else m)
  }

  /** Truncation: the scaled value is the largest whole number not above the exact one. */
  lemma ScaledTruncates(n: nat, k: nat)
    ensures Scaled(n, -(k as int)) * Pow(10, k) <= n < (Scaled(n, -(k as int)) + 1) * Pow(10, k)
  {
    PowPositive(10, k);
    var p := Pow(10, k);
    assert n == (n / p) * p + n % p;
  }

  /** Text `int()` reads as a decimal integer reads the same through `float()`. */
  lemma FloatOfInteger(s: string)
    requires ParseInt(s, 10).Ok?
    ensures FloatToInt(s) == ParseInt(s, 10)
  {
    SignedInteger(Strip(s));
  }

  /** Signed decimal digits read the same through `float()` as through `int()`. */
  lemma SignedInteger(t: string)
    requires ParseStripped(t, 10).Ok?
    ensures Stripped(t) == ParseStripped(t, 10)
  {
    var body := if t != [] && (t[0] == '-' || t[0] == '+') then t[1..] else t;
    DigitsMagnitude(body);
  }

  /** A run of decimal digits is its own value through `float()`. */
  lemma DigitsMagnitude(body: string)
    requires Digits(body, 10).Some?
    ensures FloatMagnitude(body) == Ok(Digits(body, 10).value)
  {
    assert IsDigitIn(body[0], 10);
    NotSpelled(body, "inf");
    NotSpelled(body, "infinity");
    NotSpelled(body, "nan");
    NoMarkIn(body, 'e', 'E');
    NoMarkIn(body, '.', '.');
    assert body[..|body|] == body;
    assert body + [] == body;
  }

  /** Text starting with a digit is none of the special words. */
  lemma NotSpelled(body: string, word: string)
    requires body != [] && '0' <= body[0] <= '9' && word != [] && 'a' <= word[0] <= 'z'
    ensures !Spelled(body, word)
  {
    assert LowerChar(body[0]) == body[0];
  }

  /** A string of decimal digits holds neither of two non-digit marks. */
  lemma NoMarkIn(s: string, c: char, c2: char)
    requires AllDigits(s, 10) && !IsDigitIn(c, 10) && !IsDigitIn(c2, 10)
    ensures FirstOf(s, c, c2) == |s|
  {
  }

  /** `int(float('2.7'))` is 2: the fraction is cut off. */
  lemma FloatFractionExample()
    ensures FloatToInt("2.7") == Ok(2)
  {
    FractionMagnitude('2', '7');
    PlainStrip("2.7");
  }

  /** `int(float('-2.7'))` is -2: the cut is toward zero. */
  lemma FloatNegativeExample()
    ensures FloatToInt("-2.7") == Ok(-2)
  {
    FractionMagnitude('2', '7');
    PlainStrip("-2.7");
    assert "-2.7"[1..] == "2.7";
  }

  /** `int(float('1e1'))` is 10. */
  lemma FloatExponentExample()
    ensures FloatToInt("1e1") == Ok(10)
  {
    ExponentMagnitude('1', '1');
    PlainStrip("1e1");
  }

  /** `int(float('inf'))` and `int(float('-Infinity'))` raise OverflowError. */
  lemma FloatInfinityExample()
    ensures FloatToInt("inf") == Err(OverflowError)
    ensures FloatToInt("-Infinity") == Err(OverflowError)
  {
    assert Spelled("inf", "inf");
    assert Spelled("Infinity", "infinity");
    PlainStrip("inf");
    PlainStrip("-Infinity");
    assert "-Infinity"[1..] == "Infinity";
  }

  /** `int(float('nan'))` raises ValueError. */
  lemma FloatNanExample()
    ensures FloatToInt("nan") == Err(ValueError)
  {
    assert !Spelled("nan", "inf") by { assert LowerChar('n') != 'i'; }
    assert Spelled("nan", "nan");
    PlainStrip("nan");
  }

  /** One digit, a point and one digit: the whole part. */
  lemma FractionMagnitude(a: char, b: char)
    requires '0' <= a <= '9' && '0' <= b <= '9'
    ensures FloatMagnitude([a, '.', b]) == Ok(a as int - '0' as int)
  {
    var body := [a, '.', b];
    NotSpelled(body, "inf");
    NotSpelled(body, "infinity");
    NotSpelled(body, "nan");
    assert FirstOf(body, 'e', 'E') == 3 by {
      assert FirstOf(body[2..], 'e', 'E') == 1;
      assert FirstOf(body[1..], 'e', 'E') == 2;
    }
    assert FirstOf(body, '.', '.') == 1;
    assert body[..3][..1] + body[..3][2..] == [a, b];
    DigitsTwo(a, b);
    var n: nat := 10 * (a as int - '0' as int) + (b as int - '0' as int);
    assert Decimal(body) == Some((n, -1));
    assert Scaled(n, -1) == a as int - '0' as int by {
      assert Pow(10, 1) == 10;
      DivUnique(n, a as int - '0' as int, b as int - '0' as int, 10);
    }
  }

  /** One digit, `e` and one digit: the digit times that power of ten. */
  lemma ExponentMagnitude(a: char, b: char)
    requires '0' <= a <= '9' && '0' <= b <= '9'
    ensures FloatMagnitude([a, 'e', b]) == Ok((a as int - '0' as int) * Pow(10, b as int - '0' as int))
  {
    var body := [a, 'e', b];
    NotSpelled(body, "inf");
    NotSpelled(body, "infinity");
    NotSpelled(body, "nan");
    assert FirstOf(body, 'e', 'E') == 1;
    assert body[2..] == [b];
    DigitOne(a);
    DigitOne(b);
    assert body[..1] == [a];
    assert FirstOf([a], '.', '.') == 1;
    assert [a][..1] + [] == [a];
  }

  lemma DigitOne(a: char)
    requires '0' <= a <= '9'
    ensures AllDigits([a], 10) && Digits([a], 10) == Some(a as int - '0' as int)
  {
    assert IsDigitIn(a, 10);
    assert [a][..0] == [];
    assert DigitsValue([a], 10) == DigitsValue([a][..0], 10) * 10 + DigitValue(a).value;
  }

  lemma DigitsTwo(a: char, b: char)
    requires '0' <= a <= '9' && '0' <= b <= '9'
    ensures AllDigits([a, b], 10)
    ensures DigitsValue([a, b], 10) == 10 * (a as int - '0' as int) + (b as int - '0' as int)
  {
    DigitOne(a);
    assert IsDigitIn(b, 10);
    assert [a, b][..1] == [a];
  }

  /** Text with no whitespace at either end is its own strip. */
  lemma PlainStrip(s: string)
    requires s != [] && !IsSpace(s[0]) && !IsSpace(s[|s| - 1])
    ensures Strip(s) == s
  {
    assert SpaceRun(s) == 0;
    assert LStrip(s) == s;
  }
}
