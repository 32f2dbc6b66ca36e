/** The few JavaScript string operations the core relies on: `trim` and the
    regular-expression class `\s`, `toLowerCase`, `startsWith`, `endsWith` and
    `includes`, written out on `seq<char>`. */
module Text {

  /** The characters that `String.prototype.trim` strips and that `\s` matches:
      ECMAScript WhiteSpace and LineTerminator. */
  predicate IsSpace(c: char) {
    c == ' ' || c == '\t' || c == '\n' || c == '\r' || c == '\U{000B}' || c == '\U{000C}'
    || c == '\U{00A0}' || c == '\U{1680}' || ('\U{2000}' <= c <= '\U{200A}')
    || c == '\U{2028}' || c == '\U{2029}' || c == '\U{202F}' || c == '\U{205F}'
    || c == '\U{3000}' || c == '\U{FEFF}'
  }

  predicate AllSpace(s: string) {
    forall i :: 0 <= i < |s| ==> IsSpace(s[i])
  }

  /** Neither starts nor ends with white space. */
  predicate Trimmed(s: string) {
    s == [] || (!IsSpace(s[0]) && !IsSpace(s[|s| - 1]))
  }

  /** The length of the longest all-white-space prefix of `s`. */
  function LeadingSpace(s: string): (n: nat)
    ensures n <= |s| && AllSpace(s[..n]) && (n < |s| ==> !IsSpace(s[n]))
  {
    if s != [] && IsSpace(s[0]) then
      var m := LeadingSpace(s[1..]);
      var a, b := s[..m + 1], s[1..][..m];
      assert forall i :: 1 <= i < m + 1 ==> a[i] == b[i - 1];
      m + 1
    else 0
  }

  /** The length of the longest all-white-space suffix of `s`. */
  function TrailingSpace(s: string): (n: nat)
    ensures n <= |s| && AllSpace(s[|s| - n..]) && (n < |s| ==> !IsSpace(s[|s| - n - 1]))
  {
    if s != [] && IsSpace(s[|s| - 1]) then
      var m := TrailingSpace(s[..|s| - 1]);
      var a, b := s[|s| - m - 1..], s[..|s| - 1][|s| - 1 - m..];
      assert forall i :: 0 <= i < m ==> a[i] == b[i];
      m + 1
    else 0
  }

  /** Drops the longest all-white-space prefix (what `\s*` at the start of a match removes). */
  function TrimStart(s: string): (r: string)
    ensures |r| <= |s| && r == s[|s| - |r|..]
    ensures AllSpace(s[..|s| - |r|])
    ensures r == [] || !IsSpace(r[0])
  {
    s[LeadingSpace(s)..]
  }

  /** Drops the longest all-white-space suffix. */
  function TrimEnd(s: string): (r: string)
    ensures |r| <= |s| && r == s[..|r|]
    ensures AllSpace(s[|r|..])
    ensures r == [] || !IsSpace(r[|r| - 1])
  {
    s[..|s| - TrailingSpace(s)]
  }

  /** `String.prototype.trim`: the result is a slice of `s` with only white space
      around it and none at its own ends. */
  function Trim(s: string): (r: string)
    ensures Trimmed(r)
    ensures exists i :: OccursAt(s, r, i) && AllSpace(s[..i]) && AllSpace(s[i + |r|..])
    ensures Trimmed(s) ==> r == s
  {
    TrimOccurs(s);
    TrimLeadIsSpace(s);
    TrimTrailIsSpace(s);
    TrimIsTrimmed(s);
    TrimStart(TrimEnd(s))
  }

  // The facts behind Trim's contract, one lemma each: proved together they
  // make the solver's sequence reasoning much more expensive.

  lemma TrimOccurs(s: string)
    ensures var e := TrimEnd(s); OccursAt(s, TrimStart(e), |e| - |TrimStart(e)|)
  {
    var e := TrimEnd(s);
    var r := TrimStart(e);
    assert s[|e| - |r|..|e|] == r;
  }

  lemma TrimLeadIsSpace(s: string)
    ensures var e := TrimEnd(s); AllSpace(s[..|e| - |TrimStart(e)|])
  {
    var e := TrimEnd(s);
    var i := |e| - |TrimStart(e)|;
    assert s[..i] == e[..i];
  }

  lemma TrimTrailIsSpace(s: string)
    ensures var e := TrimEnd(s); AllSpace(s[|e|..])
  {
  }

  lemma TrimIsTrimmed(s: string)
    ensures Trimmed(TrimStart(TrimEnd(s)))
    ensures Trimmed(s) ==> TrimStart(TrimEnd(s)) == s
  {
    var e := TrimEnd(s);
    var r := TrimStart(e);
    assert r != [] ==> r[|r| - 1] == e[|e| - 1];
  }

  lemma SuffixOfSuffix(s: string, n: int, m: int)
    requires 0 <= n <= |s| && 0 <= m <= |s| - n
    ensures s[n..][|s| - n - m..] == s[|s| - m..]
  {
    var a, b := s[n..][|s| - n - m..], s[|s| - m..];
    forall k | 0 <= k < m
      ensures a[k] == b[k]
    {
    }
  }

  lemma PrefixOfPrefix(s: string, n: int, m: int)
    requires 0 <= m <= n <= |s|
    ensures s[..n][..m] == s[..m]
  {
    var a, b := s[..n][..m], s[..m];
    forall k | 0 <= k < m
      ensures a[k] == b[k]
    {
    }
  }

  predicate StartsWith(s: string, prefix: string) {
    |prefix| <= |s| && s[..|prefix|] == prefix
  }

  predicate EndsWith(s: string, suffix: string) {
    |suffix| <= |s| && s[|s| - |suffix|..] == suffix
  }

  /** `toLowerCase` on the ASCII letters; every other character is kept. */
  function LowerChar(c: char): char {
    if 'A' <= c <= 'Z' then (c as int + 32) as char else c
  }

  function Lower(s: string): (r: string)
    ensures |r| == |s|
    ensures forall i {:trigger r[i]} :: 0 <= i < |s| ==> r[i] == LowerChar(s[i])
  {
    seq(|s|, i requires 0 <= i < |s| => LowerChar(s[i]))
  }

  /** Text without capital letters is its own lower-case form. */
  lemma LowerOfLowerCase(k: string)
    requires forall i :: 0 <= i < |k| ==> !('A' <= k[i] <= 'Z')
    ensures Lower(k) == k
  {
    var r := Lower(k);
    forall i | 0 <= i < |k|
      ensures r[i] == k[i]
    {
    }
  }

  /** `String.prototype.includes`, by scanning start positions left to right. */
  predicate Contains(s: string, k: string)
    decreases |s|
  {
    StartsWith(s, k) || (s != [] && Contains(s[1..], k))
  }

  /** `k` occurs in `s` at position `i`. */
  predicate OccursAt(s: string, k: string, i: int) {
    0 <= i && i + |k| <= |s| && s[i..i + |k|] == k
  }

  /** `k` occurs in `s` at position `i` once both are lower-cased. */
  predicate OccursIgnoringCaseAt(s: string, k: string, i: int) {
    0 <= i && i + |k| <= |s| && Lower(s[i..i + |k|]) == Lower(k)
  }

  /** The meaning of `s.toLowerCase().includes(k)` for a lower-case keyword `k`:
      some window of `s` equals `k` up to the case of its letters. */
  ghost predicate ContainsIgnoringCase(s: string, k: string) {
    exists i :: OccursIgnoringCaseAt(s, k, i)
  }

  lemma {:induction false} ContainsIsOccurrence(s: string, k: string)
    ensures Contains(s, k) <==> exists i :: OccursAt(s, k, i)
    decreases |s|
  {
    if StartsWith(s, k) {
      assert OccursAt(s, k, 0);
    } else if s == [] {
    } else {
      ContainsIsOccurrence(s[1..], k);
      if i :| OccursAt(s, k, i) {
        if i != 0 {
          assert s[1..][i - 1..i - 1 + |k|] == s[i..i + |k|];
          assert OccursAt(s[1..], k, i - 1);
        }
      }
      if j :| OccursAt(s[1..], k, j) {
        assert s[j + 1..j + 1 + |k|] == s[1..][j..j + |k|];
        assert OccursAt(s, k, j + 1);
      }
    }
  }

  lemma LowerSlice(s: string, i: int, j: int)
    requires 0 <= i <= j <= |s|
    ensures Lower(s)[i..j] == Lower(s[i..j])
  {
    var a, b := Lower(s)[i..j], Lower(s[i..j]);
    forall k | 0 <= k < j - i
      ensures a[k] == b[k]
    {
      assert a[k] == Lower(s)[i + k];
      assert b[k] == LowerChar(s[i..j][k]);
    }
  }

  /** A piece of a case-insensitive occurrence is a case-insensitive occurrence
      of the matching piece of the keyword. */
  lemma OccursWithinIgnoringCase(s: string, k: string, i: int, a: int, b: int, part: string)
    requires OccursIgnoringCaseAt(s, k, i)
    requires 0 <= a <= b <= |k| && Lower(k)[a..b] == Lower(part)
    ensures OccursIgnoringCaseAt(s, part, i + a)
  {
    var w := s[i..i + |k|];
    assert i + a + |part| == i + b;
    calc {
      Lower(s[i + a..i + a + |part|]);
      Lower(s[i + a..i + b]);
      { SliceWithinSlice(s, i, i + |k|, a, b); }
      Lower(w[a..b]);
      { LowerSlice(w, a, b); }
      Lower(w)[a..b];
      Lower(part);
    }
  }

  lemma SliceWithinSlice(s: string, i: int, j: int, a: int, b: int)
    requires 0 <= i <= j <= |s| && 0 <= a <= b <= j - i
    ensures s[i..j][a..b] == s[i + a..i + b]
  {
    forall n | 0 <= n < b - a
      ensures s[i..j][a..b][n] == s[i + a..i + b][n]
    {
    }
  }

  /** Lower-casing the text and searching for a lower-case keyword finds exactly
      the case-insensitive occurrences of that keyword. */
  lemma LowerContains(s: string, k: string)
    requires Lower(k) == k
    ensures Contains(Lower(s), k) <==> ContainsIgnoringCase(s, k)
  {
    ContainsIsOccurrence(Lower(s), k);
    forall i | 0 <= i && i + |k| <= |s|
      ensures OccursAt(Lower(s), k, i) <==> OccursIgnoringCaseAt(s, k, i)
    {
      LowerSlice(s, i, i + |k|);
    }
  }
}
