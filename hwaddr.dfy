/**
 * EUI-64 text from an interface identifier (silk/postprocessing/hwaddr.py).
 *
 * `hwaddr_plain_add_colons` reads the digits one at a time with
 * `int(c, 16)`, clears the bit worth 2 of the second digit (the
 * universal/local bit of a modified EUI-64, RFC 4291 Appendix A), prints
 * each digit back with `'%x'`, puts a `:` after every second digit but the
 * last, and upper-cases the result.
 */
module HwAddr {
  import opened PyCore
  import opened PyInt

  /** `int(c, 16)` for a one-character string: its value as a hex digit, or ValueError. */
  function NibbleValue(c: char): (r: Result<int>)
    ensures r.Ok? <==> IsDigitIn(c, 16)
    ensures r.Ok? ==> 0 <= r.value < 16 && r.value == DigitValue(c).value
    ensures r.Err? ==> r.error == ValueError
  {
    if IsDigitIn(c, 16) then Ok(DigitValue(c).value) else Err(ValueError)
  }

  /** Python's `int(c, 16)` on one character is `NibbleValue`: blanks, signs and other letters raise. */
  lemma NibbleIsInt(c: char)
    ensures ParseInt([c], 16) == NibbleValue(c)
  {
    if IsSpace(c) {
      assert SpaceRun([c]) == 1;
      assert Strip([c]) == [];
    } else {
      StripDigits([c]);
      if IsDigitIn(c, 16) {
        assert AllDigits([c], 16);
        assert [c][..0] == [];
        assert DigitsValue([c], 16) == DigitValue(c).value;
      } else {
        assert !AllDigits([c], 16);
      }
    }
  }

  /** The value the loop prints for digit `i`: the second digit loses its bit worth 2. */
  function NibbleAt(plain: string, i: nat): (d: nat)
    requires i < |plain| && IsDigitIn(plain[i], 16)
    ensures d < 16
    ensures i != 1 ==> d == DigitValue(plain[i]).value
  {
    var v := DigitValue(plain[i]).value;
    if i == 1 then ClearBit(v, 1) else v
  }

  /** The separator the loop writes after digit `i` of `n`. */
  function Sep(i: nat, n: nat): string
  {
    if (i + 1) % 2 == 0 && i != n - 1 then ":" else ""
  }

  predicate HexPrefix(plain: string, k: nat)
  {
    k <= |plain| && forall j :: 0 <= j < k ==> IsDigitIn(plain[j], 16)
  }

  /** The text the loop has built after `k` digits, before upper-casing. */
  function EuiText(plain: string, k: nat): string
    requires HexPrefix(plain, k)
  {
    if k == 0 then "" else EuiText(plain, k - 1) + Hex(NibbleAt(plain, k - 1)) + Sep(k - 1, |plain|)
  }

  /** What `hwaddr_plain_add_colons(plain)` returns or raises. */
  function Eui(plain: string): Result<string>
  {
    if HexPrefix(plain, |plain|) then Ok(Upper(Upper(EuiText(plain, |plain|)))) else Err(ValueError)
  }

  /** `hwaddr_plain_add_colons`: the loop of the source, proved to compute `Eui`. */
  method HwaddrPlainAddColons(plain: string) returns (r: Result<string>)
    ensures r == Eui(plain)
  {
    var eui := "";
    for i := 0 to |plain|
      invariant HexPrefix(plain, i)
      invariant eui == EuiText(plain, i)
    {
      NibbleIsInt(plain[i]);
      var parsed := ParseInt([plain[i]], 16);
      if parsed.Err? {
        assert !IsDigitIn(plain[i], 16) && !HexPrefix(plain, |plain|);
        return Err(parsed.error);
      }
      var c := parsed.value;
      if i == 1 {
        c := ClearBit(c, 1);
      }
      assert HexPrefix(plain, i + 1) && c == NibbleAt(plain, i);
      EuiTextAppend(plain, i, c);
      eui := eui + Hex(c);
      if (i + 1) % 2 == 0 && i != |plain| - 1 {
        eui := eui + ":";
      }
    }
    eui := Upper(eui);
    return Ok(Upper(eui));
  }

  /** `hwaddr_from_iid`: the colons of the identifier go, then the digits are laid out again. */
  function HwaddrFromIid(iid: string): Result<string>
  {
    var h :- Eui(Without(iid, ':'));
    Ok(Upper(h))
  }

  // ------------------------------------------------------------ lemmas

  /** One more digit appends its text and its separator. */
  lemma EuiTextAppend(plain: string, i: nat, c: nat)
    requires HexPrefix(plain, i + 1) && c == NibbleAt(plain, i)
    ensures EuiText(plain, i + 1) == EuiText(plain, i) + Hex(c) + Sep(i, |plain|)
  {
  }

  /** One more digit appends its one-character text and its separator. */
  lemma EuiTextStep(plain: string, k: nat)
    requires HexPrefix(plain, k) && k > 0
    ensures EuiText(plain, k) == EuiText(plain, k - 1) + [HexChar(NibbleAt(plain, k - 1))] + Sep(k - 1, |plain|)
    ensures Hex(NibbleAt(plain, k - 1)) == [HexChar(NibbleAt(plain, k - 1))]
  {
  }

  /** After `k` digits the text holds `k` digits and a colon after every second one but the last. */
  lemma {:induction false} EuiTextLength(plain: string, k: nat)
    requires HexPrefix(plain, k)
    ensures |EuiText(plain, k)| == k + k / 2 - (if k == |plain| && k % 2 == 0 && k > 0 then 1 else 0)
    decreases k
  {
    if k > 0 {
      EuiTextLength(plain, k - 1);
    }
  }

  /** After `k` digits, digit `i` sits at `i + i/2`. */
  lemma {:induction false} EuiTextDigitAt(plain: string, k: nat, i: nat)
    requires HexPrefix(plain, k) && i < k
    ensures i + i / 2 < |EuiText(plain, k)| && EuiText(plain, k)[i + i / 2] == HexChar(NibbleAt(plain, i))
    decreases k
  {
    EuiTextLength(plain, k - 1);
    EuiTextStep(plain, k);
    if i < k - 1 {
      EuiTextDigitAt(plain, k - 1, i);
    }
  }

  /** After `k` digits, a colon follows every odd digit but the last. */
  lemma {:induction false} EuiTextColonAt(plain: string, k: nat, i: nat)
    requires HexPrefix(plain, k) && i < k && i % 2 == 1 && i != |plain| - 1
    ensures i + i / 2 + 1 < |EuiText(plain, k)| && EuiText(plain, k)[i + i / 2 + 1] == ':'
    decreases k
  {
    EuiTextStep(plain, k);
    if i < k - 1 {
      EuiTextColonAt(plain, k - 1, i);
    } else {
      EuiTextLength(plain, k - 1);
      assert (i + 1) % 2 == 0;
      assert Sep(i, |plain|) == ":";
    }
  }

  /** Upper-casing a hex digit keeps its value. */
  lemma UpperHexChar(d: nat)
    requires d < 16
    ensures DigitValue(UpperChar(HexChar(d))) == Some(d)
    ensures !('a' <= UpperChar(HexChar(d)) <= 'z')
  {
  }

  /** Upper-casing twice keeps the positions of the text. */
  lemma UpperTwiceAt(t: string, j: nat)
    requires j < |t|
    ensures |Upper(Upper(t))| == |t| && Upper(Upper(t))[j] == UpperChar(UpperChar(t[j]))
  {
  }

  /** Digit `i` of the result is the value the loop printed for it. */
  lemma EuiDigitAt(plain: string, i: nat)
    requires HexPrefix(plain, |plain|) && i < |plain|
    ensures Eui(plain).Ok? && i + i / 2 < |Eui(plain).value|
    ensures DigitValue(Eui(plain).value[i + i / 2]) == Some(NibbleAt(plain, i))
  {
    EuiTextDigitAt(plain, |plain|, i);
    var t := EuiText(plain, |plain|);
    UpperTwiceAt(t, i + i / 2);
    UpperHexChar(NibbleAt(plain, i));
    assert UpperChar(UpperChar(HexChar(NibbleAt(plain, i)))) == UpperChar(HexChar(NibbleAt(plain, i)));
  }

  /** A colon follows every odd digit but the last. */
  lemma EuiColonAt(plain: string, i: nat)
    requires HexPrefix(plain, |plain|) && i < |plain| && i % 2 == 1 && i != |plain| - 1
    ensures Eui(plain).Ok? && i + i / 2 + 1 < |Eui(plain).value|
    ensures Eui(plain).value[i + i / 2 + 1] == ':'
  {
    EuiTextColonAt(plain, |plain|, i);
    UpperTwiceAt(EuiText(plain, |plain|), i + i / 2 + 1);
  }

  /**
   * `hwaddr_plain_add_colons` on hex digits: a colon after every second
   * digit but the last, the digits upper-case and unchanged but for the
   * second, whose bit worth 2 is cleared.
   */
  lemma EuiLayout(plain: string)
    requires HexPrefix(plain, |plain|)
    ensures Eui(plain).Ok?
    ensures |Eui(plain).value| == |plain| + |plain| / 2 - (if |plain| % 2 == 0 && |plain| > 0 then 1 else 0)
    ensures forall i :: 0 <= i < |plain| && i != 1 ==> DigitValue(Eui(plain).value[i + i / 2]) == DigitValue(plain[i])
    ensures |plain| > 1 ==> DigitValue(Eui(plain).value[1]) == Some(ClearBit(DigitValue(plain[1]).value, 1))
    ensures forall i :: 0 <= i < |plain| && i % 2 == 1 && i != |plain| - 1 ==> Eui(plain).value[i + i / 2 + 1] == ':'
  {
    EuiDigits(plain);
    if |plain| > 1 {
      EuiDigitAt(plain, 1);
    }
    EuiColons(plain);
  }

  /** Every digit but the second is printed as read, at its place in the layout. */
  lemma EuiDigits(plain: string)
    requires HexPrefix(plain, |plain|)
    ensures Eui(plain).Ok?
    ensures |Eui(plain).value| == |plain| + |plain| / 2 - (if |plain| % 2 == 0 && |plain| > 0 then 1 else 0)
    ensures forall i :: 0 <= i < |plain| && i != 1 ==> DigitValue(Eui(plain).value[i + i / 2]) == DigitValue(plain[i])
  {
    EuiTextLength(plain, |plain|);
    forall i | 0 <= i < |plain| && i != 1
      ensures DigitValue(Eui(plain).value[i + i / 2]) == DigitValue(plain[i])
    {
      EuiDigitAt(plain, i);
    }
  }

  /** A colon follows every second digit but the last. */
  lemma EuiColons(plain: string)
    requires HexPrefix(plain, |plain|)
    ensures Eui(plain).Ok?
    ensures |Eui(plain).value| == |plain| + |plain| / 2 - (if |plain| % 2 == 0 && |plain| > 0 then 1 else 0)
    ensures forall i :: 0 <= i < |plain| && i % 2 == 1 && i != |plain| - 1 ==> Eui(plain).value[i + i / 2 + 1] == ':'
  {
    EuiTextLength(plain, |plain|);
    forall i | 0 <= i < |plain| && i % 2 == 1 && i != |plain| - 1
      ensures Eui(plain).value[i + i / 2 + 1] == ':'
    {
      EuiColonAt(plain, i);
    }
  }


  /** The result holds no lower-case letter. */
  lemma EuiUpper(plain: string)
    requires Eui(plain).Ok?
    ensures forall j :: 0 <= j < |Eui(plain).value| ==> !('a' <= Eui(plain).value[j] <= 'z')
  {
  }

  /** Sixteen digits give the 23 characters of `XX:XX:XX:XX:XX:XX:XX:XX`. */
  lemma EuiOfSixteen(plain: string)
    requires |plain| == 16 && HexPrefix(plain, 16)
    ensures Eui(plain).Ok? && |Eui(plain).value| == 23
  {
    EuiLayout(plain);
  }

  /** Any character that is not a hex digit makes the call raise ValueError. */
  lemma EuiRejects(plain: string, i: nat)
    requires i < |plain| && !IsDigitIn(plain[i], 16)
    ensures Eui(plain) == Err(ValueError)
  {
  }

  /** Two digit strings whose printed values agree digit by digit give the same text. */
  lemma {:induction false} EuiTextSameNibbles(a: string, b: string, k: nat)
    requires |a| == |b| && HexPrefix(a, k) && HexPrefix(b, k)
    requires forall i :: 0 <= i < k ==> NibbleAt(a, i) == NibbleAt(b, i)
    ensures EuiText(a, k) == EuiText(b, k)
    decreases k
  {
    if k > 0 {
      EuiTextSameNibbles(a, b, k - 1);
    }
  }

  /** `hwaddr_from_iid` ignores the colons of the identifier and lays its digits out as above. */
  lemma HwaddrFromIidLayout(iid: string)
    requires HexPrefix(Without(iid, ':'), |Without(iid, ':')|)
    ensures HwaddrFromIid(iid) == Eui(Without(iid, ':'))
  {
    var t := Eui(Without(iid, ':')).value;
    assert Upper(t) == t by {
      forall j | 0 <= j < |t| ensures UpperChar(t[j]) == t[j] {
        EuiUpper(Without(iid, ':'));
      }
    }
  }
}
