/** The few string operations the source relies on: lower-casing,
    whitespace stripping, substring tests and character counting. */
module Text {

  /** Lower-cases one character. Only the ASCII letters A-Z change; every
      other character (digits, punctuation, CJK) is its own lower case. */
  function LowerChar(c: char): char
  {
    if 'A' <= c <= 'Z' then (c as int + 32) as char else c
  }

  /** `s.lower()`, character by character. */
  function Lower(s: string): (r: string)
    ensures |r| == |s|
    ensures forall i :: 0 <= i < |s| ==> r[i] == LowerChar(s[i])
  {
    seq(|s|, i requires 0 <= i < |s| => LowerChar(s[i]))
  }

  /** Lower-casing twice is lower-casing once. */
  lemma LowerIdempotent(s: string)
    ensures Lower(Lower(s)) == Lower(s)
  {
  }

  /** The whitespace that `str.strip()` removes (ASCII subset). */
  predicate IsWhitespace(c: char)
  {
    c == ' ' || c == '\t' || c == '\n' || c == '\r' || c == '\U{000B}' || c == '\U{000C}'
  }

  function StripLeft(s: string): (r: string)
    ensures |r| <= |s|
    ensures r == s[|s| - |r|..]
    ensures |r| > 0 ==> !IsWhitespace(r[0])
    ensures forall i :: 0 <= i < |s| - |r| ==> IsWhitespace(s[i])
  {
    if |s| > 0 && IsWhitespace(s[0]) then StripLeft(s[1..]) else s
  }

  function StripRight(s: string): (r: string)
    ensures |r| <= |s|
    ensures r == s[..|r|]
    ensures |r| > 0 ==> !IsWhitespace(r[|r| - 1])
    ensures forall i :: |r| <= i < |s| ==> IsWhitespace(s[i])
  {
    if |s| > 0 && IsWhitespace(s[|s| - 1]) then StripRight(s[..|s| - 1]) else s
  }

  /** `s.strip()`: no leading or trailing whitespace survives, and only
      whitespace is removed. */
  function Strip(s: string): (r: string)
    ensures |r| <= |s|
    ensures |r| > 0 ==> !IsWhitespace(r[0]) && !IsWhitespace(r[|r| - 1])
  {
    StripRight(StripLeft(s))
  }

  /** A string made of whitespace only strips to the empty string. */
  lemma {:induction false} StripBlank(s: string)
    requires forall i :: 0 <= i < |s| ==> IsWhitespace(s[i])
    ensures Strip(s) == ""
  {
    assert StripLeft(s) == "";
  }

  /** A string without whitespace at either end strips to itself. */
  lemma StripTrimmed(s: string)
    requires |s| > 0 ==> !IsWhitespace(s[0]) && !IsWhitespace(s[|s| - 1])
    ensures Strip(s) == s
  {
  }

  /** Lower-casing leaves whitespace in place. */
  lemma LowerKeepsBlank(s: string)
    requires forall i :: 0 <= i < |s| ==> IsWhitespace(s[i])
    ensures forall i :: 0 <= i < |Lower(s)| ==> IsWhitespace(Lower(s)[i])
  {
  }

  /** `s.startswith(p)`. */
  predicate StartsWith(s: string, p: string)
  {
    |p| <= |s| && s[..|p|] == p
  }

  /** Python's `sub in s`: `sub` occurs at some offset of `s`. */
  predicate Contains(s: string, sub: string)
    decreases |s|
  {
    StartsWith(s, sub) || (|s| > 0 && Contains(s[1..], sub))
  }

  /** The recursive definition agrees with "there is an offset at which
      `sub` occurs". */
  lemma {:induction false} ContainsAt(s: string, sub: string, k: nat)
    requires k + |sub| <= |s| && s[k..k + |sub|] == sub
    ensures Contains(s, sub)
    decreases k
  {
    if k == 0 {
      assert s[..|sub|] == s[0..|sub|];
    } else {
      assert s[1..][k - 1..k - 1 + |sub|] == s[k..k + |sub|];
      ContainsAt(s[1..], sub, k - 1);
    }
  }

  lemma {:induction false} ContainsWitness(s: string, sub: string) returns (k: nat)
    requires Contains(s, sub)
    ensures k + |sub| <= |s| && s[k..k + |sub|] == sub
    decreases |s|
  {
    if StartsWith(s, sub) {
      k := 0;
      assert s[0..|sub|] == s[..|sub|];
    } else {
      var k' := ContainsWitness(s[1..], sub);
      k := k' + 1;
      assert s[1..][k'..k' + |sub|] == s[k..k + |sub|];
    }
  }

  /** Every string contains the empty string, and itself. */
  lemma ContainsEmptyAndSelf(s: string)
    ensures Contains(s, "")
    ensures Contains(s, s)
  {
    assert StartsWith(s, "");
    assert s[..|s|] == s;
  }

  /** A string that contains `p + q` contains `p`. */
  lemma {:induction false} ContainsPrefixOf(s: string, p: string, q: string)
    requires Contains(s, p + q)
    ensures Contains(s, p)
  {
    var k := ContainsWitness(s, p + q);
    assert s[k..k + |p|] == (p + q)[..|p|] == p;
    ContainsAt(s, p, k);
  }

  /** A string cannot contain something longer than itself. */
  lemma {:induction false} ContainsShorter(s: string, sub: string)
    requires Contains(s, sub)
    ensures |sub| <= |s|
  {
    var k := ContainsWitness(s, sub);
  }

  /** A string in which the first two characters of `sub` never occur side
      by side does not contain `sub`. */
  lemma {:induction false} NoLeadingPairNoMatch(s: string, sub: string)
    requires |sub| >= 2
    requires forall p :: 0 <= p < |s| - 1 ==> !(s[p] == sub[0] && s[p + 1] == sub[1])
    ensures !Contains(s, sub)
    decreases |s|
  {
    if |sub| <= |s| {
      assert s[..|sub|][0] == s[0] && s[..|sub|][1] == s[1];
    }
    if |s| > 0 {
      var t := s[1..];
      forall p | 0 <= p < |t| - 1
        ensures !(t[p] == sub[0] && t[p + 1] == sub[1])
      {
        assert t[p] == s[p + 1] && t[p + 1] == s[p + 2];
      }
      NoLeadingPairNoMatch(t, sub);
    }
  }

  /** Number of occurrences of character `c` in `s` (`s.count(c)`). */
  function CountChar(s: string, c: char): (n: nat)
    ensures n <= |s|
  {
    if |s| == 0 then 0 else CountChar(s[..|s| - 1], c) + (if s[|s| - 1] == c then 1 else 0)
  }

  lemma {:induction false} CountCharAppend(a: string, b: string, c: char)
    ensures CountChar(a + b, c) == CountChar(a, c) + CountChar(b, c)
    decreases |b|
  {
    if |b| == 0 {
      assert a + b == a;
    } else {
      assert (a + b)[..|a + b| - 1] == a + b[..|b| - 1];
      CountCharAppend(a, b[..|b| - 1], c);
    }
  }

  lemma {:induction false} CountCharAbsent(s: string, c: char)
    requires forall i :: 0 <= i < |s| ==> s[i] != c
    ensures CountChar(s, c) == 0
    decreases |s|
  {
    if |s| > 0 {
      CountCharAbsent(s[..|s| - 1], c);
    }
  }
}
