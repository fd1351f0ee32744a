/**
 * The test helpers of silk/unit_tests/test_utils.py: comparing two
 * commands while letting their numbers differ by a tolerance (how the OTNS
 * tests compare the commands a node sent with the ones expected), and
 * building a random string of letters.
 */
module TestUtils {
  import opened PyCore
  import opened PyInt

  function Abs(x: int): nat
  {
    if x < 0 then -x else x
  }

  /** Two tokens agree: they are equal, or both read as integers at most `delta` apart. */
  predicate TokensClose(a: string, b: string, delta: real)
  {
    a == b ||
    (ParseInt(a, 10).Ok? && ParseInt(b, 10).Ok? &&
     (Abs(ParseInt(a, 10).value - ParseInt(b, 10).value) as real) <= delta)
  }

  /** Same number of whitespace-separated tokens, agreeing pairwise. */
  predicate TokenwiseClose(p1: seq<string>, p2: seq<string>, delta: real)
  {
    |p1| == |p2| && forall i :: 0 <= i < |p1| ==> TokensClose(p1[i], p2[i], delta)
  }

  /** What `commands_almost_equal` decides: identical commands, or tokens that agree pairwise. */
  predicate AlmostEqual(command1: string, command2: string, delta: real)
  {
    command1 == command2 || TokenwiseClose(SplitWs(command1), SplitWs(command2), delta)
  }

  /**
   * `commands_almost_equal(command1, command2, delta)`: true at once for
   * identical commands, false for different token counts; otherwise the
   * tokens are compared in order and the first pair that is neither equal
   * nor two integers within `delta` makes the result false.
   */
  method CommandsAlmostEqual(command1: string, command2: string, delta: real) returns (r: bool)
    ensures r <==> AlmostEqual(command1, command2, delta)
  {
    if command1 == command2 {
      return true;
    }
    var parts1, parts2 := SplitWs(command1), SplitWs(command2);
    if |parts1| != |parts2| {
      return false;
    }
    r := PartsAgree(parts1, parts2, delta);
  }

  /** The loop of `commands_almost_equal`: the first pair of parts that disagrees makes it false. */
  method PartsAgree(parts1: seq<string>, parts2: seq<string>, delta: real) returns (r: bool)
    requires |parts1| == |parts2|
    ensures r <==> TokenwiseClose(parts1, parts2, delta)
  {
    var i := 0;
    while i < |parts1|
      invariant 0 <= i <= |parts1|
      invariant forall j :: 0 <= j < i ==> TokensClose(parts1[j], parts2[j], delta)
    {
      var close := PartsClose(parts1[i], parts2[i], delta);
      if !close {
        return false;
      }
      i := i + 1;
    }
    return true;
  }

  /** One step of the loop: equal parts pass; others must both read as integers within `delta`. */
  method PartsClose(part1: string, part2: string, delta: real) returns (ok: bool)
    ensures ok <==> TokensClose(part1, part2, delta)
  {
    if part1 == part2 {
      return true;
    }
    var n1, n2 := ParseInt(part1, 10), ParseInt(part2, 10);
    if n1.Err? || n2.Err? {
      return false;
    }
    ok := (Abs(n1.value - n2.value) as real) <= delta;
  }

  // ------------------------------------------------------------ lemmas

  /** The comparison does not depend on the order of the two commands. */
  lemma AlmostEqualSymmetric(command1: string, command2: string, delta: real)
    ensures AlmostEqual(command1, command2, delta) <==> AlmostEqual(command2, command1, delta)
  {
    var p1, p2 := SplitWs(command1), SplitWs(command2);
    if TokenwiseClose(p1, p2, delta) {
      assert forall i :: 0 <= i < |p2| ==> TokensClose(p2[i], p1[i], delta) by {
        forall i | 0 <= i < |p2| ensures TokensClose(p2[i], p1[i], delta) {
          assert TokensClose(p1[i], p2[i], delta);
        }
      }
    }
    if TokenwiseClose(p2, p1, delta) {
      assert forall i :: 0 <= i < |p1| ==> TokensClose(p1[i], p2[i], delta) by {
        forall i | 0 <= i < |p1| ensures TokensClose(p1[i], p2[i], delta) {
          assert TokensClose(p2[i], p1[i], delta);
        }
      }
    }
  }

  /** Different commands with different numbers of tokens are never almost equal. */
  lemma TokenCountsDiffer(command1: string, command2: string, delta: real)
    requires command1 != command2 && |SplitWs(command1)| != |SplitWs(command2)|
    ensures !AlmostEqual(command1, command2, delta)
  {
  }

  /** Two numbers written in decimal agree as tokens iff they are equal or at most `delta` apart. */
  lemma NumbersClose(x: int, y: int, delta: real)
    ensures TokensClose(IntStr(x), IntStr(y), delta) <==> x == y || (Abs(x - y) as real) <= delta
  {
    ParseDecOfIntStr(x);
    ParseDecOfIntStr(y);
  }

  /**
   * Commands written as words joined by single spaces are almost equal when
   * their words agree pairwise: a command whose numbers were shifted by at
   * most `delta` passes.
   */
  lemma JoinedClose(words1: seq<string>, words2: seq<string>, delta: real)
    requires forall k :: 0 <= k < |words1| ==> IsWord(words1[k])
    requires forall k :: 0 <= k < |words2| ==> IsWord(words2[k])
    requires TokenwiseClose(words1, words2, delta)
    ensures AlmostEqual(Join(" ", words1), Join(" ", words2), delta)
  {
    SplitWsJoin(words1);
    SplitWsJoin(words2);
  }

  /**
   * A word that is not an integer must match exactly: changing it makes the
   * commands differ, whatever the tolerance.
   */
  lemma WordMismatch(words1: seq<string>, words2: seq<string>, k: nat, delta: real)
    requires forall j :: 0 <= j < |words1| ==> IsWord(words1[j])
    requires forall j :: 0 <= j < |words2| ==> IsWord(words2[j])
    requires |words1| == |words2| && k < |words1|
    requires words1[k] != words2[k] && ParseInt(words1[k], 10).Err?
    ensures !AlmostEqual(Join(" ", words1), Join(" ", words2), delta)
  {
    SplitWsJoin(words1);
    SplitWsJoin(words2);
    assert !TokensClose(words1[k], words2[k], delta);
  }

  // ------------------------------------------------------- random strings

  /** `string.ascii_letters[k]`: the lower-case letters, then the upper-case ones. */
  function AsciiLetter(k: nat): (c: char)
    requires k < 52
    ensures 'a' <= c <= 'z' || 'A' <= c <= 'Z'
  {
    if k < 26 then ('a' as int + k) as char else ('A' as int + k - 26) as char
  }

  predicate IsAsciiLetter(c: char)
  {
    'a' <= c <= 'z' || 'A' <= c <= 'Z'
  }

  /**
   * `random_string(length)`: `length` letters, each `random.choice` of the
   * letters; the generator's draws are a parameter, `draw(i)` picking the
   * i-th letter. A negative length gives the empty string, as `range` does.
   */
  function RandomString(length: int, draw: nat -> nat): (r: string)
    ensures |r| == if length < 0 then 0 else length
    ensures forall i :: 0 <= i < |r| ==> IsAsciiLetter(r[i])
  {
    var n := if length < 0 then 0 else length;
    var r := seq(n, i requires 0 <= i < n => AsciiLetter(draw(i) % 52));
    assert forall i :: 0 <= i < n ==> r[i] == AsciiLetter(draw(i) % 52);
    r
  }
}
