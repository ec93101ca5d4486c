/**
 * The JavaScript string operations the application relies on, over `seq<char>`:
 * `startsWith`, `includes`, `toLowerCase`, `trim`, `slice(0, n)` and `Number.prototype.toString`.
 */
module Strings {

  /** `s.startsWith(p)`: `p` is no longer than `s` and agrees with it character by character. */
  predicate StartsWith(s: string, p: string)
    ensures StartsWith(s, p) <==> |p| <= |s| && forall i :: 0 <= i < |p| ==> s[i] == p[i]
  {
    |p| <= |s| && s[..|p|] == p
  }

  /** True when `k` occurs in `s` starting at index `i`. */
  predicate OccursAt(s: string, k: string, i: nat)
  {
    i + |k| <= |s| && s[i..i + |k|] == k
  }

  /** Occurrences in the tail of `s` are the occurrences in `s` after its first position. */
  lemma OccursInTail(s: string, k: string)
    requires |s| > 0
    ensures StartsWith(s, k) <==> OccursAt(s, k, 0)
    ensures (exists i: nat :: OccursAt(s[1..], k, i)) <==> (exists i: nat :: 0 < i && OccursAt(s, k, i))
  {
    assert StartsWith(s, k) <==> OccursAt(s, k, 0) by {
      assert |k| > |s| || s[..|k|] == s[0..|k|];
    }
    if exists i: nat :: OccursAt(s[1..], k, i) {
      var i: nat :| OccursAt(s[1..], k, i);
      assert s[i + 1..i + 1 + |k|] == s[1..][i..i + |k|];
      assert OccursAt(s, k, i + 1);
    }
    if exists i: nat :: 0 < i && OccursAt(s, k, i) {
      var i: nat :| 0 < i && OccursAt(s, k, i);
      assert s[1..][i - 1..i - 1 + |k|] == s[i..i + |k|];
      assert OccursAt(s[1..], k, i - 1);
    }
  }

  /** `s.includes(k)`: a raw substring test, scanning from the left; it holds exactly when `k` occurs somewhere. */
  predicate Includes(s: string, k: string)
    ensures Includes(s, k) <==> exists i: nat :: OccursAt(s, k, i)
    decreases |s|
  {
    if |s| == 0 then
      assert forall i: nat :: OccursAt(s, k, i) ==> i == 0 && k == [];
      assert k == [] ==> OccursAt(s, k, 0);
      StartsWith(s, k)
    else
      OccursInTail(s, k);
      StartsWith(s, k) || Includes(s[1..], k)
  }

  /** An occurrence anywhere, even inside a longer word, makes `includes` true. */
  lemma IncludesAt(s: string, k: string, i: nat)
    requires OccursAt(s, k, i)
    ensures Includes(s, k)
  {
  }

  /** Upper-case ASCII letters map to lower case; every other character is kept. */
  function LowerChar(c: char): (r: char)
    ensures 'A' <= c <= 'Z' ==> r as int == c as int - 'A' as int + 'a' as int
    ensures !('A' <= c <= 'Z') ==> r == c
    ensures !('A' <= r <= 'Z')
  {
    if 'A' <= c <= 'Z' then (c as int - 'A' as int + 'a' as int) as char else c
  }

  /** `s.toLowerCase()`, restricted to the ASCII letters. */
  function ToLower(s: string): (r: string)
    ensures |r| == |s|
    ensures forall i :: 0 <= i < |s| ==> r[i] == LowerChar(s[i])
  {
    seq(|s|, i requires 0 <= i < |s| => LowerChar(s[i]))
  }

  /** Lower-casing twice is lower-casing once. */
  lemma ToLowerIdempotent(s: string)
    ensures ToLower(ToLower(s)) == ToLower(s)
  {
  }

  /** The characters `String.prototype.trim` removes: white space and line terminators. */
  predicate IsWhitespace(c: char)
  {
    c == ' ' || c == '\t' || c == '\n' || c == '\r' || c == '\U{B}' || c == '\U{C}'
    || c == '\U{A0}' || c == '\U{1680}' || ('\U{2000}' <= c <= '\U{200A}')
    || c == '\U{2028}' || c == '\U{2029}' || c == '\U{202F}' || c == '\U{205F}'
    || c == '\U{3000}' || c == '\U{FEFF}'
  }

  predicate IsBlank(s: string)
  {
    forall i :: 0 <= i < |s| ==> IsWhitespace(s[i])
  }

  function TrimStart(s: string): (r: string)
    ensures |r| <= |s|
    ensures r == s[|s| - |r|..]
    ensures |r| > 0 ==> !IsWhitespace(r[0])
    ensures IsBlank(s[..|s| - |r|])
    decreases |s|
  {
    if |s| > 0 && IsWhitespace(s[0]) then
      var t := TrimStart(s[1..]);
      var cut := |s| - |t|;
      assert forall i :: 1 <= i < cut ==> s[i] == s[1..][..cut - 1][i - 1];
      assert IsBlank(s[..cut]) by {
        forall i | 0 <= i < cut
          ensures IsWhitespace(s[..cut][i])
        {
          if i > 0 { assert s[..cut][i] == s[1..][..cut - 1][i - 1]; }
        }
      }
      t
    else s
  }

  function TrimEnd(s: string): (r: string)
    ensures |r| <= |s|
    ensures r == s[..|r|]
    ensures |r| > 0 ==> !IsWhitespace(r[|r| - 1])
    ensures IsBlank(s[|r|..])
    decreases |s|
  {
    if |s| > 0 && IsWhitespace(s[|s| - 1]) then
      var t := TrimEnd(s[..|s| - 1]);
      assert s[|t|..] == s[..|s| - 1][|t|..] + [s[|s| - 1]];
      t
    else s
  }

  /** A string of white space alone trims to nothing from the left. */
  lemma {:induction false} BlankTrimStart(s: string)
    requires IsBlank(s)
    ensures TrimStart(s) == []
    decreases |s|
  {
    if |s| > 0 {
      BlankTrimStart(s[1..]);
    }
  }

  /** Two blank strings concatenate to a blank string. */
  lemma BlankConcat(x: string, y: string)
    requires IsBlank(x) && IsBlank(y)
    ensures IsBlank(x + y)
  {
  }

  /** A string whose right trim is empty was white space throughout. */
  lemma TrimEndEmptyIsBlank(s: string)
    requires TrimEnd(s) == []
    ensures IsBlank(s)
  {
    assert s[0..] == s;
  }

  /** The left trim only removes white space, so a blank left trim means a blank string. */
  lemma BlankBeforeTrimStart(s: string)
    requires IsBlank(TrimStart(s))
    ensures IsBlank(s)
  {
    var a := TrimStart(s);
    var cut := |s| - |a|;
    assert s == s[..cut] + a;
    BlankConcat(s[..cut], a);
  }

  /** White space alone trims to nothing. */
  lemma BlankTrimsToEmpty(s: string)
    requires IsBlank(s)
    ensures TrimEnd(TrimStart(s)) == []
  {
    BlankTrimStart(s);
    assert |TrimEnd([])| <= 0;
  }

  /** Trimming both ends leaves nothing exactly when every character is white space. */
  lemma TrimBothEmptyIffBlank(s: string)
    ensures TrimEnd(TrimStart(s)) == [] <==> IsBlank(s)
  {
    if IsBlank(s) {
      BlankTrimsToEmpty(s);
    }
    if TrimEnd(TrimStart(s)) == [] {
      TrimEndEmptyIsBlank(TrimStart(s));
      BlankBeforeTrimStart(s);
    }
  }

  /**
   * `s.trim()`: a piece of `s` that neither starts nor ends with white space; it is empty exactly
   * when `s` is all white space, so `!s.trim()` tests for blank input.
   */
  function Trim(s: string): (r: string)
    ensures |r| <= |s|
    ensures |r| > 0 ==> !IsWhitespace(r[0]) && !IsWhitespace(r[|r| - 1])
    ensures r == [] <==> IsBlank(s)
  {
    TrimBothEmptyIffBlank(s);
    TrimEnd(TrimStart(s))
  }

  /** `s.slice(0, n)`: at most the first `n` characters. */
  function Take(s: string, n: nat): (r: string)
    ensures |r| == if |s| < n then |s| else n
    ensures r <= s
  {
    if |s| <= n then s else s[..n]
  }

  /** The decimal digit for `d`. */
  function DigitChar(d: nat): (c: char)
    requires d < 10
    ensures '0' <= c <= '9'
  {
    ('0' as int + d) as char
  }

  /** `n.toString()` for a non-negative integer: decimal digits, most significant first, no leading zero. */
  function NatToString(n: nat): (r: string)
    ensures |r| > 0
    ensures forall i :: 0 <= i < |r| ==> '0' <= r[i] <= '9'
    ensures r[0] == '0' ==> n == 0
    decreases n
  {
    if n < 10 then [DigitChar(n)] else NatToString(n / 10) + [DigitChar(n % 10)]
  }

  /** Reads a string of decimal digits back into the number it denotes. */
  function ParseDigits(s: string): nat
    requires forall i :: 0 <= i < |s| ==> '0' <= s[i] <= '9'
    decreases |s|
  {
    if |s| == 0 then 0
    else 10 * ParseDigits(s[..|s| - 1]) + (s[|s| - 1] as int - '0' as int)
  }

  /** `toString` is injective on sizes: reading the digits back gives the number. */
  lemma {:induction false} NatToStringRoundTrip(n: nat)
    ensures ParseDigits(NatToString(n)) == n
    decreases n
  {
    if n >= 10 {
      var s := NatToString(n);
      NatToStringRoundTrip(n / 10);
      assert s[..|s| - 1] == NatToString(n / 10);
    }
  }
}
