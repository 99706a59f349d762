/**
 * The string operations the Java and TypeScript code relies on: case mapping,
 * whitespace tests, trimming, substring search and joining.
 * Case mapping covers ASCII letters only.
 */
module Text {
  /** Character.isWhitespace of Java, which String.isBlank uses. */
  predicate IsJavaWhitespace(c: char) {
    ('\t' <= c <= '\r') || ('\U{1C}' <= c <= '\U{1F}') || c == ' '
    || c == '\U{1680}' || ('\U{2000}' <= c <= '\U{2006}') || ('\U{2008}' <= c <= '\U{200A}')
    || c == '\U{2028}' || c == '\U{2029}' || c == '\U{205F}' || c == '\U{3000}'
  }

  /** The white space and line terminators that String.prototype.trim removes in JavaScript. */
  predicate IsJsWhitespace(c: char) {
    ('\t' <= c <= '\r') || c == ' ' || c == '\U{A0}' || c == '\U{1680}'
    || ('\U{2000}' <= c <= '\U{200A}') || c == '\U{2028}' || c == '\U{2029}'
    || c == '\U{202F}' || c == '\U{205F}' || c == '\U{3000}' || c == '\U{FEFF}'
  }

  /** Java's String.isBlank: empty or only white space. */
  predicate IsBlank(s: string) {
    forall i | 0 <= i < |s| :: IsJavaWhitespace(s[i])
  }

  predicate IsLowerAscii(c: char) { 'a' <= c <= 'z' }

  predicate IsUpperAscii(c: char) { 'A' <= c <= 'Z' }

  function UpperChar(c: char): char {
    if IsLowerAscii(c) then (c as int - 32) as char else c
  }

  function LowerChar(c: char): char {
    if IsUpperAscii(c) then (c as int + 32) as char else c
  }

  /** toUpperCase (Java) / toUpperCase (JavaScript), restricted to ASCII letters. */
  function ToUpper(s: string): (r: string)
    ensures |r| == |s|
    ensures forall i | 0 <= i < |s| :: r[i] == UpperChar(s[i])
  {
    seq(|s|, i requires 0 <= i < |s| => UpperChar(s[i]))
  }

  /** toLowerCase, restricted to ASCII letters. */
  function ToLower(s: string): (r: string)
    ensures |r| == |s|
    ensures forall i | 0 <= i < |s| :: r[i] == LowerChar(s[i])
  {
    seq(|s|, i requires 0 <= i < |s| => LowerChar(s[i]))
  }

  lemma ToUpperIdempotent(s: string)
    ensures ToUpper(ToUpper(s)) == ToUpper(s)
    ensures forall i | 0 <= i < |s| :: !IsLowerAscii(ToUpper(s)[i])
  {
  }

  lemma ToLowerIdempotent(s: string)
    ensures ToLower(ToLower(s)) == ToLower(s)
    ensures forall i | 0 <= i < |s| :: !IsUpperAscii(ToLower(s)[i])
  {
  }

  /** Java's equalsIgnoreCase on an ASCII alphabet. */
  predicate EqualsIgnoreCase(a: string, b: string) {
    ToLower(a) == ToLower(b)
  }

  /** The number of white-space characters s starts with. */
  function LeadingSpace(s: string): (k: nat)
    ensures k <= |s|
    ensures forall i | 0 <= i < k :: IsJsWhitespace(s[i])
    ensures k < |s| ==> !IsJsWhitespace(s[k])
  {
    if |s| > 0 && IsJsWhitespace(s[0]) then 1 + LeadingSpace(s[1..]) else 0
  }

  /** The length of s without its trailing white space. */
  function TrailingStart(s: string): (k: nat)
    ensures k <= |s|
    ensures forall i | k <= i < |s| :: IsJsWhitespace(s[i])
    ensures k > 0 ==> !IsJsWhitespace(s[k - 1])
  {
    if |s| > 0 && IsJsWhitespace(s[|s| - 1]) then TrailingStart(s[..|s| - 1]) else |s|
  }

  /** JavaScript trimStart: drops the leading white space and nothing else. */
  function TrimStart(s: string): (r: string)
    ensures r == [] || !IsJsWhitespace(r[0])
  {
    s[LeadingSpace(s)..]
  }

  /** JavaScript trimEnd: drops the trailing white space and nothing else. */
  function TrimEnd(s: string): (r: string)
    ensures r == [] || !IsJsWhitespace(r[|r| - 1])
  {
    s[..TrailingStart(s)]
  }

  /** JavaScript String.prototype.trim. */
  function Trim(s: string): string {
    TrimEnd(TrimStart(s))
  }

  /** A string trims to empty exactly when every character is white space. */
  lemma TrimEmptyIff(s: string)
    ensures Trim(s) == [] <==> forall i | 0 <= i < |s| :: IsJsWhitespace(s[i])
  {
    var k := LeadingSpace(s);
    var t := s[k..];
    var m := TrailingStart(t);
    if m == 0 {
      assert t == [];
    }
    if m > 0 {
      assert !IsJsWhitespace(t[m - 1]);
    }
  }

  /** sub sits in s at position i. */
  predicate OccursAt(s: string, sub: string, i: int) {
    0 <= i && i + |sub| <= |s| && s[i..i + |sub|] == sub
  }

  /** Java String.contains / JavaScript String.prototype.includes: a case-sensitive substring test. */
  predicate Contains(s: string, sub: string) {
    exists i | 0 <= i <= |s| :: OccursAt(s, sub, i)
  }

  /** A string has no occurrence of sub when its first two characters never appear side by side. */
  lemma NotContainsByPair(s: string, sub: string)
    requires |sub| >= 2
    requires forall i | 0 <= i < |s| - 1 :: !(s[i] == sub[0] && s[i + 1] == sub[1])
    ensures !Contains(s, sub)
  {
    forall i | 0 <= i <= |s| ensures !OccursAt(s, sub, i) {
      if i + |sub| <= |s| {
        assert s[i..i + |sub|][0] == s[i] && s[i..i + |sub|][1] == s[i + 1];
      }
    }
  }

  /** As NotContainsByPair, looking at the first four characters of sub. */
  lemma NotContainsByQuad(s: string, sub: string)
    requires |sub| >= 4
    requires forall i | 0 <= i < |s| - 3 :: !(s[i] == sub[0] && s[i + 1] == sub[1] && s[i + 2] == sub[2] && s[i + 3] == sub[3])
    ensures !Contains(s, sub)
  {
    forall i | 0 <= i <= |s| ensures !OccursAt(s, sub, i) {
      if i + |sub| <= |s| {
        var w := s[i..i + |sub|];
        assert w[0] == s[i] && w[1] == s[i + 1] && w[2] == s[i + 2] && w[3] == s[i + 3];
      }
    }
  }

  /**
   * Appending text without lower-case ASCII letters cannot create a match of a
   * word that ends in a lower-case letter.
   */
  lemma NotContainsUpperTail(p: string, x: string, sub: string)
    requires |sub| > 0 && IsLowerAscii(sub[|sub| - 1])
    requires forall i | 0 <= i < |x| :: !IsLowerAscii(x[i])
    requires !Contains(p, sub)
    ensures !Contains(p + x, sub)
  {
    var s := p + x;
    forall i | 0 <= i <= |s| ensures !OccursAt(s, sub, i) {
      if i + |sub| <= |s| {
        var w := s[i..i + |sub|];
        if i + |sub| <= |p| {
          assert w == p[i..i + |sub|];
          assert !OccursAt(p, sub, i);
        } else {
          assert w[|sub| - 1] == x[i + |sub| - 1 - |p|];
        }
      }
    }
  }

  /** A concatenation contains sub only in one of its parts or across the seam. */
  lemma NotContainsJoin(a: string, b: string, sub: string)
    requires !Contains(a, sub) && !Contains(b, sub)
    requires forall i | 0 <= i < |a| < i + |sub| <= |a| + |b| :: !OccursAt(a + b, sub, i)
    ensures !Contains(a + b, sub)
  {
    var s := a + b;
    forall i | 0 <= i <= |s| ensures !OccursAt(s, sub, i) {
      if i + |sub| <= |s| {
        if i + |sub| <= |a| {
          assert s[i..i + |sub|] == a[i..i + |sub|];
          assert !OccursAt(a, sub, i);
        } else if i >= |a| {
          assert s[i..i + |sub|] == b[i - |a|..i - |a| + |sub|];
          assert !OccursAt(b, sub, i - |a|);
        }
      }
    }
  }

  /** A match in a prefix is a match in the whole string. */
  lemma ContainsPrefix(s: string, t: string, sub: string)
    requires Contains(s, sub)
    ensures Contains(s + t, sub)
  {
    var i :| 0 <= i <= |s| && OccursAt(s, sub, i);
    assert (s + t)[i..i + |sub|] == s[i..i + |sub|];
    assert OccursAt(s + t, sub, i);
  }

  /** Array.prototype.join. */
  function Join(parts: seq<string>, sep: string): string {
    if |parts| == 0 then ""
    else if |parts| == 1 then parts[0]
    else parts[0] + sep + Join(parts[1..], sep)
  }

  function DigitChar(d: int): char
    requires 0 <= d < 10
  {
    "0123456789"[d]
  }

  function NatToString(n: nat): string
    decreases n
  {
    if n < 10 then [DigitChar(n)] else NatToString(n / 10) + [DigitChar(n % 10)]
  }

  /** Long.toString / String concatenation of a long. */
  function IntToString(n: int): string {
    if n < 0 then "-" + NatToString(-n) else NatToString(n)
  }

  /**
   * A total order on strings by character code, first difference deciding and
   * a proper prefix first; it stands in for String.prototype.localeCompare.
   */
  function CompareText(a: string, b: string): (r: int)
    ensures -1 <= r <= 1
    ensures r == 0 <==> a == b
    decreases |a|
  {
    if a == [] then (if b == [] then 0 else -1)
    else if b == [] then 1
    else if a[0] < b[0] then -1
    else if b[0] < a[0] then 1
    else
      assert a == [a[0]] + a[1..] && b == [b[0]] + b[1..];
      CompareText(a[1..], b[1..])
  }

  lemma {:induction false} CompareTextAntisymmetric(a: string, b: string)
    ensures CompareText(a, b) == -CompareText(b, a)
    decreases |a|
  {
    if a != [] && b != [] && a[0] == b[0] {
      CompareTextAntisymmetric(a[1..], b[1..]);
    }
  }

  lemma {:induction false} CompareTextTransitive(a: string, b: string, c: string)
    requires CompareText(a, b) <= 0 && CompareText(b, c) <= 0
    ensures CompareText(a, c) <= 0
    decreases |a|
  {
    if a != [] && b != [] && c != [] && a[0] == b[0] && b[0] == c[0] {
      CompareTextTransitive(a[1..], b[1..], c[1..]);
    }
  }
}
