/** The JavaScript string operations the extension relies on (`trim`, `split`, `join`,
    `replace` with a global pattern, `slice`, `startsWith`, number-to-text), written
    out on `seq<char>`. */
module Text {

  /** The characters `String.prototype.trim` removes: ECMAScript WhiteSpace and LineTerminator. */
  predicate IsWhitespace(c: char) {
    c == ' ' || c == '\t' || c == '\n' || c == '\r' || c == '\U{000B}' || c == '\U{000C}'
    || c == '\U{00A0}' || c == '\U{FEFF}' || c == '\U{1680}'
    || ('\U{2000}' <= c <= '\U{200A}')
    || c == '\U{2028}' || c == '\U{2029}' || c == '\U{202F}' || c == '\U{205F}' || c == '\U{3000}'
  }

  /** The characters a regular-expression `.` does not match. */
  predicate IsLineTerminator(c: char) {
    c == '\n' || c == '\r' || c == '\U{2028}' || c == '\U{2029}'
  }

  predicate AllWhitespace(s: string) {
    forall i :: 0 <= i < |s| ==> IsWhitespace(s[i])
  }

  /** How many whitespace characters `s` starts with. */
  function LeadingWhitespace(s: string): (n: nat)
    ensures n <= |s| && AllWhitespace(s[..n])
    ensures n < |s| ==> !IsWhitespace(s[n])
  {
    if |s| > 0 && IsWhitespace(s[0]) then
      var n := 1 + LeadingWhitespace(s[1..]);
      assert s[1..][..n - 1] == s[1..n];
      n
    else 0
  }

  /** Where the whitespace `s` ends with begins. */
  function TrailingWhitespace(s: string): (n: nat)
    ensures n <= |s| && AllWhitespace(s[n..])
    ensures n > 0 ==> !IsWhitespace(s[n - 1])
  {
    if |s| > 0 && IsWhitespace(s[|s| - 1]) then
      var n := TrailingWhitespace(s[..|s| - 1]);
      assert s[..|s| - 1][n..] == s[n..|s| - 1];
      n
    else |s|
  }

  /** `trimStart`: drops the leading whitespace and nothing else. */
  function TrimStart(s: string): (r: string)
    ensures |r| <= |s| && r == s[|s| - |r|..]
    ensures AllWhitespace(s[..|s| - |r|])
    ensures r == [] || !IsWhitespace(r[0])
  {
    s[LeadingWhitespace(s)..]
  }

  /** `trimEnd`: drops the trailing whitespace and nothing else. */
  function TrimEnd(s: string): (r: string)
    ensures |r| <= |s| && r == s[..|r|]
    ensures AllWhitespace(s[|r|..])
    ensures r == [] || !IsWhitespace(r[|r| - 1])
  {
    s[..TrailingWhitespace(s)]
  }

  /** `trim`: whitespace removed from both ends. */
  function Trim(s: string): (r: string)
    ensures r == [] || (!IsWhitespace(r[0]) && !IsWhitespace(r[|r| - 1]))
  {
    TrimEnd(TrimStart(s))
  }

  /** `trim` keeps one infix of its input and removes only whitespace around it;
      it yields the empty string exactly for all-whitespace input. */
  lemma TrimIsInfix(s: string)
    ensures exists i :: 0 <= i <= |s| - |Trim(s)| && Trim(s) == s[i..i + |Trim(s)|]
                        && AllWhitespace(s[..i]) && AllWhitespace(s[i + |Trim(s)|..])
    ensures Trim(s) == [] <==> AllWhitespace(s)
  {
    var i := |s| - |TrimStart(s)|;
    TrimAt(s);
    assert 0 <= i <= |s| - |Trim(s)| && Trim(s) == s[i..i + |Trim(s)|]
           && AllWhitespace(s[..i]) && AllWhitespace(s[i + |Trim(s)|..]);
    TrimEmpty(s);
  }

  /** Where `trim` cuts: after the leading whitespace `trimStart` drops. */
  lemma TrimAt(s: string)
    ensures var i := |s| - |TrimStart(s)|;
            0 <= i <= |s| - |Trim(s)| && Trim(s) == s[i..i + |Trim(s)|]
            && AllWhitespace(s[..i]) && AllWhitespace(s[i + |Trim(s)|..])
  {
    var a := TrimStart(s);
    var r := TrimEnd(a);
    SuffixPrefix(s, a, r);
  }

  /** A prefix `r` of a suffix `a` of `s` is an infix of `s`, and what follows `r` in `a`
      is what follows it in `s`. */
  lemma SuffixPrefix<T>(s: seq<T>, a: seq<T>, r: seq<T>)
    requires |a| <= |s| && a == s[|s| - |a|..] && |r| <= |a| && r == a[..|r|]
    ensures var i := |s| - |a|;
            r == s[i..i + |r|] && s[i + |r|..] == a[|r|..]
  {
  }

  lemma TrimEmpty(s: string)
    ensures Trim(s) == [] <==> AllWhitespace(s)
  {
    var a := TrimStart(s);
    var r := TrimEnd(a);
    var i := |s| - |a|;
    if r == [] {
      if a != [] { assert false; }
      assert s[..i] == s;
    } else {
      assert a == s[i..];
      assert s[i] == r[0];
    }
  }

  /** `trim` introduces no character. */
  lemma TrimExcludes(s: string, c: char)
    requires c !in s
    ensures c !in Trim(s)
  {
    var a := TrimStart(s);
    var r := TrimEnd(a);
    assert c !in a;
  }

  /** `s.split(c)[0]`: the text before the first `c`, or all of `s`. */
  function Before(s: string, c: char): (r: string)
    ensures |r| <= |s| && r == s[..|r|] && c !in r
    ensures |r| < |s| ==> s[|r|] == c
  {
    if |s| == 0 then ""
    else if s[0] == c then ""
    else [s[0]] + Before(s[1..], c)
  }

  /** `s.split(c)` for a one-character separator: never empty, splits at every `c`. */
  function Split(s: string, c: char): (parts: seq<string>)
    ensures |parts| >= 1
    ensures forall k :: 0 <= k < |parts| ==> c !in parts[k]
  {
    if |s| == 0 then [""]
    else
      var rest := Split(s[1..], c);
      if s[0] == c then [""] + rest
      else [[s[0]] + rest[0]] + rest[1..]
  }

  /** Concatenation regroups freely; stated once so that loops building text by appending
      need not prove it element by element. */
  lemma AppendAssoc<T>(a: seq<T>, b: seq<T>, c: seq<T>)
    ensures (a + b) + c == a + (b + c)
  {
  }

  /** `parts.join(sep)`. */
  function Join(parts: seq<string>, sep: string): string {
    if |parts| == 0 then ""
    else if |parts| == 1 then parts[0]
    else parts[0] + sep + Join(parts[1..], sep)
  }

  /** Every `c` of `s` replaced by `d`; the reference meaning of split-then-join. */
  function ReplaceChar(s: string, c: char, d: char): (r: string)
    ensures |r| == |s|
    ensures forall k :: 0 <= k < |s| ==> r[k] == (if s[k] == c then d else s[k])
  {
    if |s| == 0 then "" else [if s[0] == c then d else s[0]] + ReplaceChar(s[1..], c, d)
  }

  lemma {:induction false} SplitHead(s: string, c: char)
    requires |s| > 0
    ensures Split(s, c)[0] == Before(s, c)
  {
    if s[0] != c && |s| > 1 {
      SplitHead(s[1..], c);
    }
  }

  /** Splitting on `c` and joining with `d` replaces each `c` by `d`. */
  lemma {:induction false} JoinSplit(s: string, c: char, d: char)
    ensures Join(Split(s, c), [d]) == ReplaceChar(s, c, d)
  {
    if |s| > 0 {
      JoinSplit(s[1..], c, d);
      var rest := Split(s[1..], c);
      if s[0] == c {
        assert ([""] + rest)[1..] == rest;
      } else if |rest| > 1 {
        assert ([[s[0]] + rest[0]] + rest[1..])[1..] == rest[1..];
      }
    }
  }

  /** `s.replace(/c/g, rep)` for a single character `c`. */
  function ReplaceCharBy(s: string, c: char, rep: string): string {
    if |s| == 0 then "" else (if s[0] == c then rep else [s[0]]) + ReplaceCharBy(s[1..], c, rep)
  }

  lemma {:induction false} ReplaceCharByAppend(a: string, b: string, c: char, rep: string)
    ensures ReplaceCharBy(a + b, c, rep) == ReplaceCharBy(a, c, rep) + ReplaceCharBy(b, c, rep)
  {
    if |a| > 0 {
      assert (a + b)[1..] == a[1..] + b;
      ReplaceCharByAppend(a[1..], b, c, rep);
    } else {
      assert a + b == b;
    }
  }

  lemma {:induction false} ReplaceCharByAbsent(s: string, c: char, rep: string)
    requires c !in s
    ensures ReplaceCharBy(s, c, rep) == s
  {
    if |s| > 0 {
      ReplaceCharByAbsent(s[1..], c, rep);
    }
  }

  /** `s.replace(/pat/g, rep)`: every non-overlapping match, left to right. */
  function ReplaceAll(s: string, pat: string, rep: string): string
    requires |pat| > 0
    decreases |s|
  {
    if |s| < |pat| then s
    else if s[..|pat|] == pat then rep + ReplaceAll(s[|pat|..], pat, rep)
    else [s[0]] + ReplaceAll(s[1..], pat, rep)
  }

  /** Replacing a pattern by itself gives back the input. */
  lemma {:induction false} ReplaceAllBySelf(s: string, pat: string)
    requires |pat| > 0
    ensures ReplaceAll(s, pat, pat) == s
    decreases |s|
  {
    if |s| >= |pat| {
      if s[..|pat|] == pat {
        ReplaceAllBySelf(s[|pat|..], pat);
        assert s == s[..|pat|] + s[|pat|..];
      } else {
        ReplaceAllBySelf(s[1..], pat);
        assert s == [s[0]] + s[1..];
      }
    }
  }

  predicate StartsWith(s: string, prefix: string) {
    |prefix| <= |s| && s[..|prefix|] == prefix
  }

  /** JavaScript truthiness of a string: the empty string is falsy. */
  predicate Truthy(s: string) {
    s != ""
  }

  /** `s.slice(0, end)`: a negative `end` counts from the end of `s`. */
  function SlicePrefix(s: string, end: int): (r: string)
    ensures |r| <= |s| && r == s[..|r|]
    ensures |r| == if end < 0 then (if |s| + end < 0 then 0 else |s| + end)
                   else (if end < |s| then end else |s|)
  {
    var k := if end < 0 then (if |s| + end < 0 then 0 else |s| + end)
             else (if end < |s| then end else |s|);
    s[..k]
  }

  predicate IsDigit(c: char) {
    '0' <= c <= '9'
  }

  function DigitChar(d: nat): (c: char)
    requires d < 10
    ensures IsDigit(c)
  {
    ['0', '1', '2', '3', '4', '5', '6', '7', '8', '9'][d]
  }

  function DigitValue(c: char): nat
    requires IsDigit(c)
  {
    (c as int - '0' as int) as nat
  }

  /** The decimal text of a natural number, as JavaScript prints it. */
  function NatToString(n: nat): (r: string)
    ensures |r| > 0 && forall k :: 0 <= k < |r| ==> IsDigit(r[k])
    decreases n
  {
    if n < 10 then [DigitChar(n)] else NatToString(n / 10) + [DigitChar(n % 10)]
  }

  /** The number a decimal text denotes; the partner of `NatToString`. */
  function DecimalValue(s: string): nat
    requires forall k :: 0 <= k < |s| ==> IsDigit(s[k])
  {
    if |s| == 0 then 0 else 10 * DecimalValue(s[..|s| - 1]) + DigitValue(s[|s| - 1])
  }

  lemma {:induction false} DecimalOfNatToString(n: nat)
    ensures DecimalValue(NatToString(n)) == n
    decreases n
  {
    var r := NatToString(n);
    if n < 10 {
      assert r[..0] == "";
    } else {
      DecimalOfNatToString(n / 10);
      assert r[..|r| - 1] == NatToString(n / 10);
    }
  }

  /** Decimal printing is injective. */
  lemma NatToStringInjective(m: nat, n: nat)
    requires NatToString(m) == NatToString(n)
    ensures m == n
  {
    DecimalOfNatToString(m);
    DecimalOfNatToString(n);
  }

  /** The decimal text of an integer, with a leading `-` when negative. */
  function IntToString(i: int): string {
    if i < 0 then "-" + NatToString(-i) else NatToString(i)
  }

  function Repeat(c: char, n: nat): (r: string)
    ensures |r| == n && forall k :: 0 <= k < n ==> r[k] == c
  {
    if n == 0 then "" else [c] + Repeat(c, n - 1)
  }

  /** No two adjacent characters of `s` are both `c`. */
  predicate NoDoubleChar(s: string, c: char) {
    forall k :: 0 <= k < |s| - 1 ==> !(s[k] == c && s[k + 1] == c)
  }
}
