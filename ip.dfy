/**
 * IPv6 address strings (silk/postprocessing/ip.py; the src/ copy is the
 * same code written for Python 2).
 *
 * `ipv6_assemble` builds a full address from a 48-bit prefix, a 16-bit
 * subnet and a 64-bit interface identifier, setting bit 57 of the
 * identifier (the universal/local bit of a modified EUI-64, RFC 4291
 * Appendix A), and regroups the 32 hex digits as eight colon-separated
 * groups of four. The getters cut such a 39-character address back into
 * its parts, and `lla_to_hwaddr` turns the identifier of a link-local
 * address back into a hardware address.
 */
module Ip {
  import opened PyCore
  import opened PyInt
  import HwAddr

  /** `re.findall(r"[0-9A-Fa-f]{4}", s)`: leftmost non-overlapping runs of four hex digits. */
  function FindAllHex4(s: string): (r: seq<string>)
    ensures forall j :: 0 <= j < |r| ==> |r[j]| == 4 && AllDigits(r[j], 16)
    decreases |s|
  {
    if |s| < 4 then []
    else if AllDigits(s[..4], 16) then [s[..4]] + FindAllHex4(s[4..])
    else FindAllHex4(s[1..])
  }

  /** `x.strip().replace('0x', '')` followed by `.replace(':', '')`. */
  function Clean(x: string): string
  {
    Without(Replace(Strip(x), "0x", ""), ':')
  }

  /** `ipv6_assemble(prefix, subnet, iid)`; `s.replace(':', '')` is `Without(s, ':')`. */
  function Ipv6Assemble(prefix: string, subnet: string, iid: string): (r: Result<string>)
    ensures |Without(prefix, ':')| != 12 || |subnet| != 4 || |Without(iid, ':')| != 16 ==> r == Err(ValueError)
    ensures r.Err? ==> r.error == ValueError
  {
    var p := Without(prefix, ':');
    var i := Without(iid, ':');
    if |p| != 12 then Err(ValueError)
    else if |subnet| != 4 then Err(ValueError)
    else if |i| != 16 then Err(ValueError)
    else
      var v :- ParseInt(i, 16);
      var lower64 := SetBit(v, 57);
      var addr := [Clean(p), Clean(subnet), Clean(FormatHex(lower64, 16))];
      Ok(Join(":", FindAllHex4(Join("", addr))))
  }

  /** `assemble(fabric_id, subnet, iid)`: the prefix is `fd` followed by the fabric id. */
  function Assemble(fabricId: string, subnet: string, iid: string): (r: Result<string>)
    ensures |Without(fabricId, ':')| != 10 ==> r == Err(ValueError)
  {
    WithoutConcat("fd", fabricId, ':');
    WithoutFree("fd", ':');
    Ipv6Assemble("fd" + fabricId, subnet, iid)
  }

  /** `ipv6_address_get_prefix`: the first three groups and the colon after them. */
  function GetPrefix(addr: string): (r: Option<string>)
    ensures r.Some? <==> |addr| == 39
    ensures r.Some? ==> |r.value| == 15 && addr == r.value + addr[15..]
  {
    if |addr| == 39 then Some(addr[..15]) else None
  }

  /** `ipv6_address_get_subnet`: the fourth group. */
  function GetSubnet(addr: string): (r: Option<string>)
    ensures r.Some? <==> |addr| == 39
    ensures r.Some? ==> |r.value| == 4 && addr == addr[..15] + r.value + addr[19..]
  {
    if |addr| == 39 then Some(addr[15..19]) else None
  }

  /** `ipv6_address_get_iid`: the last four groups. */
  function GetIid(addr: string): (r: Option<string>)
    ensures r.Some? <==> |addr| == 39
    ensures r.Some? ==> |r.value| == 19 && addr == addr[..20] + r.value
  {
    if |addr| == 39 then Some(addr[20..]) else None
  }

  /** `lla_to_hwaddr`: `None` unless the address has 39 characters. */
  function LlaToHwaddr(lla: string): (r: Result<Option<string>>)
    ensures |lla| != 39 ==> r == Ok(None)
    ensures |lla| == 39 ==> r.Ok? == HwAddr.HwaddrFromIid(lla[20..]).Ok?
  {
    match GetIid(lla)
    case None => Ok(None)
    case Some(iid) =>
      // a 19-character string is always truthy
      var h :- HwAddr.HwaddrFromIid(iid);
      Ok(Some(h))
  }

  // ------------------------------------------------------------ reference definitions

  /** A string cut into groups of four characters. */
  function Chunks4(s: string): (r: seq<string>)
    requires |s| % 4 == 0
    ensures |r| == |s| / 4
    ensures forall j :: 0 <= j < |r| ==> |r[j]| == 4
    decreases |s|
  {
    if s == [] then [] else [s[..4]] + Chunks4(s[4..])
  }

  /** The identifier `'%016x' % (int(iid, 16) | (1 << 57))` prints. */
  function Lower64(iid: string): (l: string)
    requires HexString(iid, 16)
    ensures HexString(l, 16) && DigitsValue(l, 16) == SetBit(DigitsValue(iid, 16), 57)
  {
    Lower64Value(iid);
    PaddedHex(SetBit(DigitsValue(iid, 16), 57), 16);
    PadZeros(Hex(SetBit(DigitsValue(iid, 16), 57)), 16)
  }

  predicate HexString(s: string, n: nat)
  {
    |s| == n && AllDigits(s, 16)
  }

  // ------------------------------------------------------------ strings

  lemma HexPlain(c: char)
    requires IsDigitIn(c, 16)
    ensures PlainDigit(c) && c != ':'
  {
  }

  /** Cleaning leaves a string of hex digits alone. */
  lemma CleanHex(x: string)
    requires x != [] && AllDigits(x, 16)
    ensures Clean(x) == x
  {
    HexPlain(x[0]);
    HexPlain(x[|x| - 1]);
    StripDigits(x);
    forall i | 0 <= i <= |x| ensures !At(x, i, "0x") {
      if At(x, i, "0x") {
        assert x[i + 1] == x[i..i + 2][1];
        HexPlain(x[i + 1]);
        assert false;
      }
    }
    ReplaceAbsent(x, "0x", "");
    forall i | 0 <= i < |x| ensures x[i] != ':' { HexPlain(x[i]); }
    WithoutFree(x, ':');
  }

  lemma JoinNothing3(a: string, b: string, c: string)
    ensures Join("", [a, b, c]) == a + b + c
  {
    assert [a, b, c][1..] == [b, c];
    assert [b, c][1..] == [c];
    assert Join("", [c]) == c;
    assert Join("", [b, c]) == b + c;
  }

  lemma {:induction false} FindAllConcat(a: string, b: string)
    requires |a| % 4 == 0 && AllDigits(a, 16)
    ensures FindAllHex4(a + b) == Chunks4(a) + FindAllHex4(b)
    decreases |a|
  {
    if a != [] {
      FindAllStep(a, b);
      FindAllConcat(a[4..], b);
    } else {
      assert a + b == b;
    }
  }

  lemma FindAllStep(a: string, b: string)
    requires |a| >= 4 && AllDigits(a[..4], 16)
    ensures FindAllHex4(a + b) == [a[..4]] + FindAllHex4(a[4..] + b)
  {
    var ab := a + b;
    assert ab[..4] == a[..4];
    assert ab[4..] == a[4..] + b;
  }

  /** Scanning a string of hex digits cuts it into groups of four. */
  lemma FindAllOfHex(s: string)
    requires |s| % 4 == 0 && AllDigits(s, 16)
    ensures FindAllHex4(s) == Chunks4(s)
  {
    FindAllConcat(s, []);
    assert s + [] == s;
  }

  lemma {:induction false} Chunks4Concat(a: string, b: string)
    requires |a| % 4 == 0 && |b| % 4 == 0
    ensures Chunks4(a + b) == Chunks4(a) + Chunks4(b)
    decreases |a|
  {
    if a != [] {
      var ab := a + b;
      assert ab[..4] == a[..4];
      assert ab[4..] == a[4..] + b;
      Chunks4Concat(a[4..], b);
    } else {
      assert a + b == b;
    }
  }

  lemma {:induction false} JoinConcat(sep: string, a: seq<string>, b: seq<string>)
    requires a != [] && b != []
    ensures Join(sep, a + b) == Join(sep, a) + sep + Join(sep, b)
    decreases |a|
  {
    if |a| == 1 {
      assert (a + b)[1..] == b;
    } else {
      assert (a + b)[1..] == a[1..] + b;
      JoinConcat(sep, a[1..], b);
    }
  }

  /** The groups of a non-empty string, joined by colons: one colon fewer than groups. */
  lemma {:induction false} JoinChunksLength(x: string)
    requires |x| % 4 == 0 && x != []
    ensures |Join(":", Chunks4(x))| == |x| + |x| / 4 - 1
    decreases |x|
  {
    if |x| > 4 {
      JoinChunksLength(x[4..]);
    }
  }

  /** Taking the colons out of the regrouped string gives the string back. */
  lemma {:induction false} WithoutJoinChunks(x: string)
    requires |x| % 4 == 0 && Free(x, ':')
    ensures Without(Join(":", Chunks4(x)), ':') == x
    decreases |x|
  {
    if |x| == 4 {
      assert x[..4] == x && x[4..] == [];
      assert Chunks4(x) == [x];
      WithoutFree(x, ':');
    } else if |x| > 4 {
      var h, t := x[..4], x[4..];
      WithoutJoinChunks(t);
      WithoutFree(h, ':');
      WithoutConcat(h + ":", Join(":", Chunks4(t)), ':');
      WithoutConcat(h, ":", ':');
      assert x == h + t;
    }
  }

  // ------------------------------------------------------------ arithmetic of the UL bit

  lemma {:induction false} PowTwoSixteen(k: nat)
    ensures Pow(2, 4 * k) == Pow(16, k)
  {
    if k > 0 {
      PowTwoSixteen(k - 1);
      assert Pow(2, 4 * k) == 2 * Pow(2, 4 * k - 1);
      assert Pow(2, 4 * k - 1) == 2 * Pow(2, 4 * k - 2);
      assert Pow(2, 4 * k - 2) == 2 * Pow(2, 4 * k - 3);
      assert Pow(2, 4 * k - 3) == 2 * Pow(2, 4 * (k - 1));
    }
  }

  lemma PowSucc(b: nat, n: nat)
    ensures Pow(b, n + 1) == b * Pow(b, n)
  {
  }

  /** Bit 57 is the bit worth 2 of the second of sixteen hex digits. */
  lemma UlPlace()
    ensures Pow(2, 57) == 2 * Pow(16, 14)
    ensures Pow(16, 16) == 256 * Pow(16, 14)
  {
    PowTwoSixteen(14);
    PowSucc(2, 56);
    PowSucc(16, 15);
    PowSucc(16, 14);
  }

  /** Setting bit `k` of `h * P + r` with `2^k == 2P` sets bit 1 of `h`. */
  lemma HighBit(h: nat, r: nat, p: nat, k: nat)
    requires r < p && Pow(2, k) == 2 * p
    ensures SetBit(h * p + r, k) == SetBit(h, 1) * p + r
  {
    var x := h * p + r;
    var q, b := h / 2, h % 2;
    assert h * p == q * (2 * p) + b * p;
    DivUnique(x, q, b * p + r, 2 * p);
    assert Pow(2, 1) == 2;
    if !BitSet(x, k) {
      assert (h + 2) * p == h * p + 2 * p;
    }
  }

  /** Bit 1 of a two-digit hex number is bit 1 of its low digit. */
  lemma NibbleBit(d0: nat, d1: nat)
    requires d1 < 16
    ensures SetBit(16 * d0 + d1, 1) == 16 * d0 + SetBit(d1, 1)
    ensures SetBit(d1, 1) < 16
  {
    assert Pow(2, 1) == 2;
    DivUnique(16 * d0 + d1, 8 * d0 + d1 / 2, d1 % 2, 2);
    DivUnique(8 * d0 + d1 / 2, 4 * d0 + d1 / 4, (d1 / 2) % 2, 2);
  }

  /** A digit string split after its first two digits, `h` being their value and `n` the count of the rest. */
  lemma SplitTwo(s: string, n: nat) returns (h: nat)
    requires |s| == n + 2 && AllDigits(s, 16)
    ensures h == 16 * DigitValue(s[0]).value + DigitValue(s[1]).value
    ensures AllDigits(s[2..], 16)
    ensures DigitsValue(s, 16) == h * Pow(16, n) + DigitsValue(s[2..], 16)
    ensures DigitsValue(s[2..], 16) < Pow(16, n)
  {
    h := 16 * DigitValue(s[0]).value + DigitValue(s[1]).value;
    var a, b := s[..2], s[2..];
    assert s == a + b && |b| == n;
    assert a[..1] == [s[0]] && a[1] == s[1];
    assert [s[0]][..0] == [];
    assert DigitsValue([s[0]], 16) == DigitValue(s[0]).value;
    assert DigitsValue(a, 16) == h;
    DigitsValueConcat(a, b, 16);
    DigitsValueBound(b, 16);
  }

  /** The value `'%016x'` prints: the identifier's, with bit 57 set, below `16^16`. */
  lemma Lower64Value(iid: string)
    requires HexString(iid, 16)
    ensures SetBit(DigitsValue(iid, 16), 57) ==
      (16 * DigitValue(iid[0]).value + SetBit(DigitValue(iid[1]).value, 1)) * Pow(16, 14) + DigitsValue(iid[2..], 16)
    ensures 0 <= SetBit(DigitsValue(iid, 16), 57) < Pow(16, 16)
  {
    var d0, d1 := DigitValue(iid[0]).value, DigitValue(iid[1]).value;
    var p := Pow(16, 14);
    var h := SplitTwo(iid, 14);
    UlPlace();
    HighBit(h, DigitsValue(iid[2..], 16), p, 57);
    NibbleBit(d0, d1);
    assert SetBit(h, 1) == 16 * d0 + SetBit(d1, 1);
    BoundStep(16 * d0 + SetBit(d1, 1), 256, DigitsValue(iid[2..], 16), p);
  }

  /** `Lower64Value` with the two leading digits' value named `h`. */
  lemma Lower64Head(iid: string) returns (h: nat)
    requires HexString(iid, 16)
    ensures h == 16 * DigitValue(iid[0]).value + SetBit(DigitValue(iid[1]).value, 1)
    ensures SetBit(DigitsValue(iid, 16), 57) == h * Pow(16, 14) + DigitsValue(iid[2..], 16)
  {
    Lower64Value(iid);
    h := 16 * DigitValue(iid[0]).value + SetBit(DigitValue(iid[1]).value, 1);
  }

  /** Two digit strings of one length whose values split alike after the second digit agree digit by digit. */
  lemma DigitsMatch(l: string, iid: string, d1: nat, h: nat, n: nat)
    requires |l| == |iid| == n + 2
    requires AllDigits(l, 16)
    requires AllDigits(iid, 16)
    requires d1 < 16 && h == 16 * DigitValue(iid[0]).value + d1
    requires DigitsValue(l, 16) == h * Pow(16, n) + DigitsValue(iid[2..], 16)
    ensures DigitValue(l[0]) == DigitValue(iid[0]) && DigitValue(l[1]) == Some(d1)
    ensures forall k :: 2 <= k < |l| ==> DigitValue(l[k]) == DigitValue(iid[k])
  {
    var hl := SplitTwo(l, n);
    var hi := SplitTwo(iid, n);
    MulAddUnique(hl, DigitsValue(l[2..], 16), h, DigitsValue(iid[2..], 16), Pow(16, n));
    MulAddUnique(DigitValue(l[0]).value, DigitValue(l[1]).value, DigitValue(iid[0]).value, d1, 16);
    DigitsUnique(l[2..], iid[2..], 16);
    forall k | 2 <= k < |l| ensures DigitValue(l[k]) == DigitValue(iid[k]) {
      assert l[k] == l[2..][k - 2] && iid[k] == iid[2..][k - 2];
    }
  }

  /** Sixteen digits worth the identifier's value with bit 57 set: the identifier's digits, the second with bit 1 set. */
  lemma UlDigits(l: string, iid: string)
    requires HexString(l, 16) && HexString(iid, 16)
    requires DigitsValue(l, 16) == SetBit(DigitsValue(iid, 16), 57)
    ensures DigitValue(l[1]) == Some(SetBit(DigitValue(iid[1]).value, 1))
    ensures forall k :: 0 <= k < 16 && k != 1 ==> DigitValue(l[k]) == DigitValue(iid[k])
  {
    var d1 := DigitValue(iid[1]).value;
    var h := Lower64Head(iid);
    NibbleBit(DigitValue(iid[0]).value, d1);
    DigitsMatch(l, iid, SetBit(d1, 1), h, 14);
    forall k | 0 <= k < 16 && k != 1 ensures DigitValue(l[k]) == DigitValue(iid[k]) {
      if k >= 2 { assert 2 <= k < |l|; }
    }
  }

  /**
   * `'%016x' % (int(iid, 16) | (1 << 57))` for sixteen hex digits: sixteen
   * digits again, the second with its bit worth 2 set, all others unchanged.
   */
  lemma Lower64Digits(iid: string)
    requires HexString(iid, 16)
    ensures DigitValue(Lower64(iid)[1]) == Some(SetBit(DigitValue(iid[1]).value, 1))
    ensures forall k :: 0 <= k < 16 && k != 1 ==> DigitValue(Lower64(iid)[k]) == DigitValue(iid[k])
  {
    UlDigits(Lower64(iid), iid);
  }

  /** `hwaddr_from_iid` undoes the UL bit: it reads the printed identifier as the original one. */
  lemma Lower64Eui(iid: string)
    requires HexString(iid, 16)
    ensures HwAddr.Eui(Lower64(iid)) == HwAddr.Eui(iid)
  {
    var l := Lower64(iid);
    assert HwAddr.HexPrefix(l, 16) && HwAddr.HexPrefix(iid, 16);
    Lower64Digits(iid);
    assert forall i :: 0 <= i < 16 ==> HwAddr.NibbleAt(l, i) == HwAddr.NibbleAt(iid, i) by {
      forall i | 0 <= i < 16 ensures HwAddr.NibbleAt(l, i) == HwAddr.NibbleAt(iid, i) {
        if i == 1 {
          ClearAfterSet(DigitValue(iid[1]).value, 1);
        }
      }
    }
    HwAddr.EuiTextSameNibbles(l, iid, 16);
  }

  // ------------------------------------------------------------ the assembled address

  /** The steps of `ipv6_assemble` on hex digits: nothing is raised and nothing is cleaned away. */
  lemma AssembleSteps(prefix: string, subnet: string, iid: string)
    requires HexString(Without(prefix, ':'), 12) && HexString(subnet, 4) && HexString(Without(iid, ':'), 16)
    ensures Ipv6Assemble(prefix, subnet, iid) ==
      Ok(Join(":", Chunks4(Without(prefix, ':') + subnet + Lower64(Without(iid, ':')))))
  {
    var p, i := Without(prefix, ':'), Without(iid, ':');
    var l := Lower64(i);
    forall k | 0 <= k < |i| ensures PlainDigit(i[k]) { HexPlain(i[k]); }
    ParsePlainHex(i);
    Lower64Digits(i);
    CleanHex(p);
    CleanHex(subnet);
    CleanHex(l);
    JoinNothing3(p, subnet, l);
    HexConcat3(p, subnet, l);
    FindAllOfHex(p + subnet + l);
  }

  /** Three runs of hex digits in a row are one run of hex digits. */
  lemma HexConcat3(a: string, b: string, c: string)
    requires AllDigits(a, 16) && AllDigits(b, 16) && AllDigits(c, 16)
    ensures AllDigits(a + b + c, 16)
  {
    var s := a + b + c;
    forall k | 0 <= k < |s| ensures IsDigitIn(s[k], 16) {
      if k < |a| { assert s[k] == a[k]; }
      else if k < |a| + |b| { assert s[k] == b[k - |a|]; }
      else { assert s[k] == c[k - |a| - |b|]; }
    }
  }

  /** The regrouped address is the prefix's groups, the subnet and the identifier's groups. */
  lemma AddressShape(p: string, subnet: string, l: string)
    requires |p| == 12 && |subnet| == 4 && |l| == 16
    ensures Join(":", Chunks4(p + subnet + l)) ==
      Join(":", Chunks4(p)) + ":" + subnet + ":" + Join(":", Chunks4(l))
    ensures |Join(":", Chunks4(p))| == 14 && |Join(":", Chunks4(l))| == 19
  {
    Chunks4Concat(p, subnet);
    Chunks4Concat(p + subnet, l);
    assert subnet[..4] == subnet && subnet[4..] == [];
    assert Chunks4(subnet) == [subnet];
    JoinConcat(":", Chunks4(p), [subnet]);
    JoinConcat(":", Chunks4(p) + [subnet], Chunks4(l));
    JoinChunksLength(p);
    JoinChunksLength(l);
  }

  /** What the getters read from an address built of prefix `p`, `subnet` and identifier `l`. */
  predicate Regrouped(addr: string, p: string, subnet: string, l: string)
    requires |p| == 12 && |subnet| == 4 && |l| == 16
  {
    && |addr| == 39
    && GetPrefix(addr) == Some(Join(":", Chunks4(p)) + ":")
    && GetSubnet(addr) == Some(subnet)
    && GetIid(addr) == Some(Join(":", Chunks4(l)))
  }

  /** The getters cut the regrouped address back into its three parts. */
  lemma AddressParts(p: string, subnet: string, l: string)
    requires |p| == 12 && |subnet| == 4 && |l| == 16
    ensures Regrouped(Join(":", Chunks4(p + subnet + l)), p, subnet, l)
  {
    AddressShape(p, subnet, l);
    CutThree(Join(":", Chunks4(p)), subnet, Join(":", Chunks4(l)));
  }

  /** Where the three parts of `a:subnet:b` sit, for parts of 14, 4 and 19 characters. */
  lemma CutThree(a: string, subnet: string, b: string)
    requires |a| == 14 && |subnet| == 4 && |b| == 19
    ensures var addr := a + ":" + subnet + ":" + b;
      |addr| == 39 && addr[..15] == a + ":" && addr[15..19] == subnet && addr[20..] == b
  {
    var addr := a + ":" + subnet + ":" + b;
    assert addr[..15] == a + ":";
    assert addr[15..19] == subnet;
    assert addr[20..] == b;
  }

  /**
   * `ipv6_assemble` on hex digits: 39 characters, from which the getters
   * read back the prefix's groups, the subnet and the identifier's groups
   * with bit 57 set.
   */
  lemma AssembleLayout(prefix: string, subnet: string, iid: string)
    requires HexString(Without(prefix, ':'), 12) && HexString(subnet, 4) && HexString(Without(iid, ':'), 16)
    ensures Ipv6Assemble(prefix, subnet, iid).Ok?
    ensures Regrouped(Ipv6Assemble(prefix, subnet, iid).value, Without(prefix, ':'), subnet, Lower64(Without(iid, ':')))
  {
    AssembleSteps(prefix, subnet, iid);
    AddressParts(Without(prefix, ':'), subnet, Lower64(Without(iid, ':')));
  }

  /** `ipv6_address_get_subnet(ipv6_assemble(p, s, i)) == s`. */
  lemma SubnetRoundTrip(prefix: string, subnet: string, iid: string)
    requires HexString(Without(prefix, ':'), 12) && HexString(subnet, 4) && HexString(Without(iid, ':'), 16)
    ensures Ipv6Assemble(prefix, subnet, iid).Ok?
    ensures GetSubnet(Ipv6Assemble(prefix, subnet, iid).value) == Some(subnet)
  {
    AssembleLayout(prefix, subnet, iid);
  }

  /** The prefix read back from an assembled address, colons removed, is the prefix given. */
  lemma PrefixRoundTrip(prefix: string, subnet: string, iid: string)
    requires HexString(Without(prefix, ':'), 12) && HexString(subnet, 4) && HexString(Without(iid, ':'), 16)
    ensures Ipv6Assemble(prefix, subnet, iid).Ok? && |Ipv6Assemble(prefix, subnet, iid).value| == 39
    ensures Without(GetPrefix(Ipv6Assemble(prefix, subnet, iid).value).value, ':') == Without(prefix, ':')
  {
    var p := Without(prefix, ':');
    AssembleLayout(prefix, subnet, iid);
    forall k | 0 <= k < |p| ensures p[k] != ':' { HexPlain(p[k]); }
    WithoutJoinChunks(p);
    WithoutConcat(Join(":", Chunks4(p)), ":", ':');
    assert p + [] == p;
  }

  /**
   * `hwaddr_from_iid` on the identifier of an assembled address gives
   * what it gives on the identifier passed in: the bit set by
   * `ipv6_assemble` is the bit `hwaddr_from_iid` clears.
   */
  lemma IidRoundTrip(prefix: string, subnet: string, iid: string)
    requires HexString(Without(prefix, ':'), 12) && HexString(subnet, 4) && HexString(Without(iid, ':'), 16)
    ensures Ipv6Assemble(prefix, subnet, iid).Ok?
    ensures GetIid(Ipv6Assemble(prefix, subnet, iid).value).Some?
    ensures HwAddr.HwaddrFromIid(GetIid(Ipv6Assemble(prefix, subnet, iid).value).value) == HwAddr.HwaddrFromIid(iid)
    ensures HwAddr.HwaddrFromIid(iid).Ok?
  {
    var i := Without(iid, ':');
    var l := Lower64(i);
    AssembleLayout(prefix, subnet, iid);
    Lower64Digits(i);
    forall k | 0 <= k < |l| ensures l[k] != ':' { HexPlain(l[k]); }
    WithoutJoinChunks(l);
    var b := Join(":", Chunks4(l));
    HwAddr.HwaddrFromIidLayout(b);
    HwAddr.HwaddrFromIidLayout(iid);
    Lower64Eui(i);
  }

  /** `lla_to_hwaddr` on an assembled address is `hwaddr_from_iid` of the identifier it was built from. */
  lemma LlaOfAssembled(prefix: string, subnet: string, iid: string)
    requires HexString(Without(prefix, ':'), 12) && HexString(subnet, 4) && HexString(Without(iid, ':'), 16)
    ensures Ipv6Assemble(prefix, subnet, iid).Ok? && HwAddr.HwaddrFromIid(iid).Ok?
    ensures LlaToHwaddr(Ipv6Assemble(prefix, subnet, iid).value) == Ok(Some(HwAddr.HwaddrFromIid(iid).value))
  {
    IidRoundTrip(prefix, subnet, iid);
  }

  /** `assemble` puts `fd` in front of the fabric id: a ten-digit fabric id gives a prefix starting `fd`. */
  lemma AssembleFabric(fabricId: string, subnet: string, iid: string)
    requires HexString(Without(fabricId, ':'), 10) && HexString(subnet, 4) && HexString(Without(iid, ':'), 16)
    ensures Assemble(fabricId, subnet, iid).Ok? && |Assemble(fabricId, subnet, iid).value| == 39
    ensures GetPrefix(Assemble(fabricId, subnet, iid).value).value[..2] == "fd"
  {
    FabricPrefix(fabricId);
    AssembleLayout("fd" + fabricId, subnet, iid);
    PrefixHead(Without("fd" + fabricId, ':'));
  }

  lemma FabricPrefix(fabricId: string)
    requires HexString(Without(fabricId, ':'), 10)
    ensures HexString(Without("fd" + fabricId, ':'), 12) && Without("fd" + fabricId, ':')[..2] == "fd"
  {
    var f := Without(fabricId, ':');
    WithoutConcat("fd", fabricId, ':');
    WithoutFree("fd", ':');
    var p := "fd" + f;
    assert AllDigits(p, 16) by {
      forall k | 0 <= k < |p| ensures IsDigitIn(p[k], 16) {
        if k >= 2 { assert p[k] == f[k - 2]; }
      }
    }
  }

  lemma PrefixHead(p: string)
    requires |p| == 12
    ensures |Join(":", Chunks4(p))| >= 2 && Join(":", Chunks4(p))[..2] == p[..2]
  {
    JoinChunksLength(p);
    assert Chunks4(p)[0] == p[..4];
  }
}
