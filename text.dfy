/**
 * String operations of the JavaScript and Python runtimes that the
 * application relies on: trimming, lower-casing, substring search,
 * character removal and decimal integer conversion.
 */
module Text {

  predicate IsAsciiDigit(c: char) { '0' <= c <= '9' }

  predicate AllDigits(s: string) { forall i :: 0 <= i < |s| ==> IsAsciiDigit(s[i]) }

  /** The characters removed by JavaScript's `String.prototype.trim`
    * (WhiteSpace and LineTerminator of ECMAScript). */
  predicate IsJsWhitespace(c: char) {
    c == '\t' || c == '\U{000B}' || c == '\U{000C}' || c == ' ' || c == '\U{00A0}' || c == '\U{FEFF}'
    || c == '\n' || c == '\r' || c == '\U{2028}' || c == '\U{2029}'
    || c == '\U{1680}' || ('\U{2000}' <= c <= '\U{200A}') || c == '\U{202F}' || c == '\U{205F}' || c == '\U{3000}'
  }

  /** The characters removed by Python's `str.strip()` without arguments. */
  predicate IsPyWhitespace(c: char) {
    ('\t' <= c <= '\r') || ('\U{001C}' <= c <= '\U{001F}') || c == ' ' || c == '\U{0085}' || c == '\U{00A0}'
    || c == '\U{1680}' || ('\U{2000}' <= c <= '\U{200A}') || c == '\U{2028}' || c == '\U{2029}'
    || c == '\U{202F}' || c == '\U{205F}' || c == '\U{3000}'
  }

  /** The number of leading characters satisfying `isSpace`. */
  function LeadingSpaces(s: string, isSpace: char -> bool): (k: nat)
    ensures k <= |s|
    ensures forall i :: 0 <= i < k ==> isSpace(s[i])
    ensures k < |s| ==> !isSpace(s[k])
  {
    if s == [] || !isSpace(s[0]) then 0 else 1 + LeadingSpaces(s[1..], isSpace)
  }

  /** The length left once the trailing characters satisfying `isSpace` are cut. */
  function UntrailedLength(s: string, isSpace: char -> bool): (k: nat)
    ensures k <= |s|
    ensures forall i :: k <= i < |s| ==> isSpace(s[i])
    ensures k > 0 ==> !isSpace(s[k - 1])
  {
    if s == [] || !isSpace(s[|s| - 1]) then |s| else UntrailedLength(s[..|s| - 1], isSpace)
  }

  function TrimStart(s: string, isSpace: char -> bool): string {
    s[LeadingSpaces(s, isSpace)..]
  }

  function TrimEnd(s: string, isSpace: char -> bool): string {
    s[..UntrailedLength(s, isSpace)]
  }

  /** Removes leading and trailing characters satisfying `isSpace`. */
  function Trim(s: string, isSpace: char -> bool): string {
    TrimEnd(TrimStart(s, isSpace), isSpace)
  }

  /** JavaScript `s.trim()`. */
  function JsTrim(s: string): string { Trim(s, IsJsWhitespace) }

  /** Python `s.strip()`. */
  function PyStrip(s: string): string { Trim(s, IsPyWhitespace) }

  /** A string that neither starts nor ends with a space character is its own trim. */
  lemma TrimNoop(s: string, isSpace: char -> bool)
    requires s != [] ==> !isSpace(s[0]) && !isSpace(s[|s| - 1])
    ensures Trim(s, isSpace) == s
  {
    assert LeadingSpaces(s, isSpace) == 0;
    assert TrimStart(s, isSpace) == s;
    assert UntrailedLength(s, isSpace) == |s|;
  }

  /** Trimming removes a prefix and a suffix made of space characters. */
  lemma TrimParts(s: string, isSpace: char -> bool) returns (head: string, tail: string)
    ensures s == head + Trim(s, isSpace) + tail
    ensures forall i :: 0 <= i < |head| ==> isSpace(head[i])
    ensures forall i :: 0 <= i < |tail| ==> isSpace(tail[i])
  {
    var a := LeadingSpaces(s, isSpace);
    var t := s[a..];
    var b := UntrailedLength(t, isSpace);
    head, tail := s[..a], t[b..];
    assert Trim(s, isSpace) == t[..b];
    ThreeParts(s, a, b);
    forall i | 0 <= i < |head| ensures isSpace(head[i]) {
      assert head[i] == s[i];
    }
    forall i | 0 <= i < |tail| ensures isSpace(tail[i]) {
      assert tail[i] == t[b + i];
    }
  }

  lemma ThreeParts(s: string, a: nat, b: nat)
    requires a <= |s| && b <= |s| - a
    ensures s == s[..a] + s[a..][..b] + s[a..][b..]
  {
    var t := s[a..];
    assert t == t[..b] + t[b..];
    assert s == s[..a] + t;
  }

  /** When every space character of `s` is `c`, trimming before removing `c`
    * changes nothing. */
  lemma TrimThenRemove(s: string, isSpace: char -> bool, c: char)
    requires forall i :: 0 <= i < |s| && isSpace(s[i]) ==> s[i] == c
    ensures RemoveAll(Trim(s, isSpace), c) == RemoveAll(s, c)
  {
    var u := Trim(s, isSpace);
    var head, tail := TrimParts(s, isSpace);
    forall i | 0 <= i < |head| ensures head[i] == c {
      assert head[i] == s[i];
    }
    forall i | 0 <= i < |tail| ensures tail[i] == c {
      assert tail[i] == s[|head| + |u| + i];
    }
    assert s == head + (u + tail);
    RemoveAllAppend(head, u + tail, c);
    RemoveAllAppend(u, tail, c);
    RemoveAllOnly(head, c);
    RemoveAllOnly(tail, c);
  }

  /** `JsTrim` leaves a string alone that neither starts nor ends with JavaScript whitespace. */
  lemma JsTrimNoop(s: string)
    requires s != [] ==> !IsJsWhitespace(s[0]) && !IsJsWhitespace(s[|s| - 1])
    ensures JsTrim(s) == s
  {
    TrimNoop(s, IsJsWhitespace);
  }

  /** Trimming never removes an inner character: the result is a slice of the input. */
  lemma TrimIsSlice(s: string, isSpace: char -> bool)
    ensures exists i, j :: 0 <= i <= j <= |s| && Trim(s, isSpace) == s[i..j]
  {
    var a := LeadingSpaces(s, isSpace);
    var b := UntrailedLength(s[a..], isSpace);
    assert Trim(s, isSpace) == s[a..][..b] == s[a..a + b];
  }

  function LowerChar(c: char): char {
    if 'A' <= c <= 'Z' then (c as int + 32) as char else c
  }

  /** `toLowerCase()` restricted to the ASCII letters. */
  function Lower(s: string): (r: string)
    ensures |r| == |s|
    ensures forall i :: 0 <= i < |s| ==> r[i] == LowerChar(s[i])
  {
    if s == [] then [] else [LowerChar(s[0])] + Lower(s[1..])
  }

  /** A string without upper-case ASCII letters is its own lower case. */
  lemma LowerNoUpper(s: string)
    requires forall i :: 0 <= i < |s| ==> !('A' <= s[i] <= 'Z')
    ensures Lower(s) == s
  {
    assert forall i :: 0 <= i < |s| ==> Lower(s)[i] == s[i];
  }

  /** Lower-casing works character by character, so it maps prefixes to prefixes. */
  lemma LowerPrefix(s: string, p: string)
    requires |p| <= |s| && forall i :: 0 <= i < |p| ==> LowerChar(s[i]) == p[i]
    ensures Lower(s)[..|p|] == p
  {
  }

  lemma LowerOfDigits(s: string)
    requires AllDigits(s)
    ensures Lower(s) == s
  {
  }

  /** JavaScript `hay.includes(needle)`: `needle` occurs in `hay` at some offset. */
  predicate Contains(hay: string, needle: string) {
    exists i | 0 <= i <= |hay| :: OccursAt(hay, needle, i)
  }

  /** `needle` is found in `hay` starting at offset `i`. */
  predicate OccursAt(hay: string, needle: string, i: int) {
    0 <= i <= |hay| - |needle| && hay[i..i + |needle|] == needle
  }

  lemma ContainsEmpty(hay: string)
    ensures Contains(hay, "")
  {
    assert OccursAt(hay, "", 0);
  }

  lemma ContainsItself(s: string)
    ensures Contains(s, s)
  {
    assert OccursAt(s, s, 0);
  }

  /** Texts built around a common prefix and suffix are equal only when
    * their middles are. */
  lemma ConcatCancel(p: string, x: string, y: string, q: string)
    ensures p + x + q == p + y + q ==> x == y
  {
    if p + x + q == p + y + q {
      assert |x| == |y|;
      assert x == (p + x + q)[|p|..|p| + |x|];
      assert y == (p + y + q)[|p|..|p| + |y|];
    }
  }

  /** Python `s.replace(c, "")`: every occurrence of `c` removed. */
  function RemoveAll(s: string, c: char): (r: string)
    ensures |r| <= |s|
    ensures c !in r
    ensures forall x :: x in r ==> x in s
  {
    if s == [] then [] else (if s[0] == c then [] else [s[0]]) + RemoveAll(s[1..], c)
  }

  lemma RemoveAllAbsent(s: string, c: char)
    requires c !in s
    ensures RemoveAll(s, c) == s
  {
  }

  /** The characters other than `c` keep their order and multiplicity. */
  lemma {:induction false} RemoveAllKeepsOthers(s: string, c: char)
    ensures multiset(RemoveAll(s, c)) == multiset(s)[c := 0]
  {
    if s != [] {
      var rest := RemoveAll(s[1..], c);
      RemoveAllKeepsOthers(s[1..], c);
      assert multiset(s) == multiset{s[0]} + multiset(s[1..]) by {
        assert s == [s[0]] + s[1..];
      }
      if s[0] == c {
        assert RemoveAll(s, c) == rest;
      } else {
        assert RemoveAll(s, c) == [s[0]] + rest;
        assert multiset(RemoveAll(s, c)) == multiset{s[0]} + multiset(rest);
      }
    }
  }

  /** Removal distributes over concatenation. */
  lemma {:induction false} RemoveAllAppend(a: string, b: string, c: char)
    ensures RemoveAll(a + b, c) == RemoveAll(a, c) + RemoveAll(b, c)
  {
    if a == [] {
      assert a + b == b;
    } else {
      assert (a + b)[0] == a[0] && (a + b)[1..] == a[1..] + b;
      RemoveAllAppend(a[1..], b, c);
    }
  }

  /** A string made only of `c` disappears entirely. */
  lemma {:induction false} RemoveAllOnly(a: string, c: char)
    requires forall i :: 0 <= i < |a| ==> a[i] == c
    ensures RemoveAll(a, c) == []
  {
    if a != [] {
      RemoveAllOnly(a[1..], c);
    }
  }

  /** The position of the first `c` in `s`, as `s.indexOf(c)` gives it. */
  function FirstIndex(s: string, c: char): (i: nat)
    requires c in s
    ensures i < |s| && s[i] == c && forall k :: 0 <= k < i ==> s[k] != c
  {
    if s[0] == c then 0
    else
      assert c in s[1..] by { assert s == [s[0]] + s[1..]; }
      FirstIndex(s[1..], c) + 1
  }

  /** JavaScript `s.replace(c, '')` with a one-character string pattern:
    * only the first occurrence of `c` is removed. */
  function RemoveFirst(s: string, c: char): (r: string)
    ensures c !in s ==> r == s
    ensures c in s ==> |r| == |s| - 1
  {
    if s == [] then [] else if s[0] == c then s[1..] else [s[0]] + RemoveFirst(s[1..], c)
  }

  /** The character removed is the first `c`: what precedes it is kept, and
    * so is everything after it. */
  lemma {:induction false} RemoveFirstSplices(s: string, c: char)
    requires c in s
    ensures RemoveFirst(s, c) == s[..FirstIndex(s, c)] + s[FirstIndex(s, c) + 1..]
  {
    if s[0] != c {
      var t := s[1..];
      assert c in t by { assert s == [s[0]] + t; }
      RemoveFirstSplices(t, c);
      SpliceCons(s, FirstIndex(t, c));
    }
  }

  /** Cutting position `i + 1` out of `s` keeps its head in front of cutting
    * position `i` out of its tail. */
  lemma SpliceCons(s: string, i: nat)
    requires i + 1 < |s|
    ensures [s[0]] + (s[1..][..i] + s[1..][i + 1..]) == s[..i + 1] + s[i + 2..]
  {
    assert s[..i + 1] == [s[0]] + s[1..][..i];
    assert s[i + 2..] == s[1..][i + 1..];
  }

  function DigitChar(d: int): (c: char)
    requires 0 <= d < 10
    ensures IsAsciiDigit(c)
  {
    ('0' as int + d) as char
  }

  function DigitValue(c: char): (d: int)
    requires IsAsciiDigit(c)
    ensures 0 <= d < 10
  {
    c as int - '0' as int
  }

  /** Decimal rendering of a natural number, without leading zeros. */
  function NatToString(n: nat): (s: string)
    ensures |s| >= 1 && AllDigits(s)
    ensures n >= 10 <==> |s| >= 2
  {
    if n < 10 then [DigitChar(n)] else NatToString(n / 10) + [DigitChar(n % 10)]
  }

  /** JavaScript `String(i)` and Python `str(i)` for an integer. */
  function IntToString(i: int): (s: string)
    ensures |s| >= 1
  {
    if i < 0 then "-" + NatToString(-i) else NatToString(i)
  }

  /** Value of a string of decimal digits. */
  function ParseDigits(s: string): (n: nat)
    requires AllDigits(s)
  {
    if s == [] then 0 else 10 * ParseDigits(s[..|s| - 1]) + DigitValue(s[|s| - 1])
  }

  lemma {:induction false} ParseNatToString(n: nat)
    ensures ParseDigits(NatToString(n)) == n
  {
    if n >= 10 {
      var s := NatToString(n);
      assert s[..|s| - 1] == NatToString(n / 10);
      ParseNatToString(n / 10);
    }
  }

  lemma NatToStringInjective(a: nat, b: nat)
    requires NatToString(a) == NatToString(b)
    ensures a == b
  {
    ParseNatToString(a);
    ParseNatToString(b);
  }

  /** Different integers are rendered differently. */
  lemma IntToStringInjective(a: int, b: int)
    requires IntToString(a) == IntToString(b)
    ensures a == b
  {
    if a < 0 && b < 0 {
      assert IntToString(a)[1..] == NatToString(-a);
      assert IntToString(b)[1..] == NatToString(-b);
      NatToStringInjective(-a, -b);
    } else if a >= 0 && b >= 0 {
      NatToStringInjective(a, b);
    } else {
      NonNegativeHasNoSign(if a < 0 then b else a);
      assert false;
    }
  }

  lemma NonNegativeHasNoSign(i: int)
    requires i >= 0
    ensures IntToString(i)[0] != '-'
  {
  }

  lemma IntToStringNonNegDigits(i: int)
    requires i >= 0
    ensures AllDigits(IntToString(i))
  {
  }
}
