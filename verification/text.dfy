/**
  Python's string primitives as the services use them: `str.strip()`,
  `str.splitlines()`, `str.split(sep)`, `sep.join(parts)`, `in` on strings,
  `str.startswith` and `str(int)`.
 */
module Text {

  /** Python's `str.isspace()`: the characters `str.strip()` removes and `\s` matches. */
  predicate IsSpace(c: char) {
    || c == ' ' || c == '\t' || c == '\n' || c == '\r' || c == '\U{000B}' || c == '\U{000C}'
    || ('\U{001C}' <= c <= '\U{001F}')
    || c == '\U{0085}' || c == '\U{00A0}' || c == '\U{1680}'
    || ('\U{2000}' <= c <= '\U{200A}')
    || c == '\U{2028}' || c == '\U{2029}' || c == '\U{202F}' || c == '\U{205F}' || c == '\U{3000}'
  }

  /**
    Python's Unicode character classes `str.isalnum()` and `\d`, which the
    model does not tabulate.
   */
  datatype CharClasses = CharClasses(isAlnum: char -> bool, isDigit: char -> bool)
  {
    /** `\w`: alphanumerics and the underscore. */
    predicate IsWord(c: char) {
      isAlnum(c) || c == '_'
    }
  }

  /** A string that `str.strip()` leaves alone. */
  predicate Stripped(s: string) {
    s == [] || (!IsSpace(s[0]) && !IsSpace(s[|s| - 1]))
  }

  predicate AllSpace(s: string) {
    forall i :: 0 <= i < |s| ==> IsSpace(s[i])
  }

  /** `s.lstrip()`. */
  function TrimStart(s: string): string
    decreases |s|
  {
    if |s| > 0 && IsSpace(s[0]) then TrimStart(s[1..]) else s
  }

  /** `s.rstrip()`. */
  function TrimEnd(s: string): string
    decreases |s|
  {
    if |s| > 0 && IsSpace(s[|s| - 1]) then TrimEnd(s[..|s| - 1]) else s
  }

  /** `lstrip` removes a prefix of whitespace and stops at a non-space. */
  lemma {:induction false} TrimStartSlice(s: string)
    ensures var r := TrimStart(s);
      && |r| <= |s| && r == s[|s| - |r|..]
      && AllSpace(s[..|s| - |r|])
      && (r == [] || !IsSpace(r[0]))
    decreases |s|
  {
    if |s| > 0 && IsSpace(s[0]) {
      TrimStartSlice(s[1..]);
      var r := TrimStart(s);
      var k := |s| - |r|;
      assert s[1..][..k - 1] == s[1..k];
      forall i | 0 <= i < k ensures IsSpace(s[..k][i]) {
        if i > 0 {
          assert s[..k][i] == s[1..][..k - 1][i - 1];
        }
      }
    }
  }

  /** `rstrip` removes a suffix of whitespace and stops at a non-space. */
  lemma {:induction false} TrimEndSlice(s: string)
    ensures var r := TrimEnd(s);
      && |r| <= |s| && r == s[..|r|]
      && AllSpace(s[|r|..])
      && (r == [] || !IsSpace(r[|r| - 1]))
    decreases |s|
  {
    if |s| > 0 && IsSpace(s[|s| - 1]) {
      var t := s[..|s| - 1];
      TrimEndSlice(t);
      var r := TrimEnd(s);
      assert r == t[..|r|];
      forall i | 0 <= i < |s| - |r| ensures IsSpace(s[|r|..][i]) {
        if i < |t| - |r| {
          assert s[|r|..][i] == t[|r|..][i];
        }
      }
    }
  }

  /** Python's `s.strip()`: the longest slice of `s` that neither begins nor ends with whitespace. */
  function Strip(s: string): (r: string)
    ensures Stripped(r)
  {
    TrimStartSlice(s);
    TrimEndSlice(TrimStart(s));
    TrimEnd(TrimStart(s))
  }

  /** `s.strip()` is the slice `s[i..j]` with only whitespace outside it. */
  lemma StripSlice(s: string) returns (i: nat, j: nat)
    ensures i <= j <= |s| && Strip(s) == s[i..j]
    ensures AllSpace(s[..i]) && AllSpace(s[j..])
  {
    var t := TrimStart(s);
    var r := TrimEnd(t);
    TrimStartSlice(s);
    TrimEndSlice(t);
    i, j := |s| - |t|, |s| - |t| + |r|;
    assert r == s[i..j];
    assert s[j..] == t[|r|..];
  }

  lemma StripOfStripped(s: string)
    requires Stripped(s)
    ensures Strip(s) == s
  {
  }

  /** `s.strip()` is empty exactly when `s` is all whitespace. */
  lemma StripEmptyIffAllSpace(s: string)
    ensures Strip(s) == [] <==> AllSpace(s)
  {
    var i, j := StripSlice(s);
    if Strip(s) == [] {
      assert i == j;
      forall k | 0 <= k < |s| ensures IsSpace(s[k]) {
        if k < i { assert s[..i][k] == s[k]; } else { assert s[j..][k - j] == s[k]; }
      }
    }
  }

  /** The line boundaries of Python's `str.splitlines()`. */
  predicate IsLineBreak(c: char) {
    || c == '\n' || c == '\r' || c == '\U{000B}' || c == '\U{000C}'
    || c == '\U{001C}' || c == '\U{001D}' || c == '\U{001E}'
    || c == '\U{0085}' || c == '\U{2028}' || c == '\U{2029}'
  }

  predicate NoLineBreak(s: string) {
    forall i :: 0 <= i < |s| ==> !IsLineBreak(s[i])
  }

  /** Index of the first line boundary in `s`, or `|s|`. */
  function BreakIndex(s: string): (i: nat)
    ensures i <= |s|
    ensures i < |s| ==> IsLineBreak(s[i])
    ensures NoLineBreak(s[..i])
  {
    if s == [] then 0
    else if IsLineBreak(s[0]) then 0
    else
      var k := 1 + BreakIndex(s[1..]);
      assert s[..k] == [s[0]] + s[1..][..k - 1];
      k
  }

  /**
    Python's `s.splitlines()`: the lines without their terminators; a final
    terminator does not open an empty last line, and `"\r\n"` is one boundary.
   */
  function SplitLines(s: string): (r: seq<string>)
    ensures forall k :: 0 <= k < |r| ==> NoLineBreak(r[k])
    ensures r == [] <==> s == []
    ensures |r| <= |s|
    decreases |s|
  {
    if s == [] then []
    else
      var i := BreakIndex(s);
      if i == |s| then [s]
      else
        var next := if s[i] == '\r' && i + 1 < |s| && s[i + 1] == '\n' then i + 2 else i + 1;
        [s[..i]] + SplitLines(s[next..])
  }

  /** A non-empty string without line boundaries is one line. */
  lemma SingleLine(s: string)
    requires s != [] && NoLineBreak(s)
    ensures SplitLines(s) == [s]
  {
    NoBreakIndex(s);
  }

  lemma {:induction false} NoBreakIndex(s: string)
    requires NoLineBreak(s)
    ensures BreakIndex(s) == |s|
    decreases |s|
  {
    if s != [] {
      NoBreakIndex(s[1..]);
    }
  }

  /** `a` is obtained from `b` by deleting elements. */
  predicate Subsequence(a: seq<string>, b: seq<string>)
    decreases |b|
  {
    if b == [] then a == []
    else (a != [] && a[0] == b[0] && Subsequence(a[1..], b[1..])) || Subsequence(a, b[1..])
  }

  /** Index of the first `c` in `s`, or `|s|`. */
  function IndexOf(s: string, c: char): (i: nat)
    ensures i <= |s|
    ensures i < |s| ==> s[i] == c
    ensures c !in s[..i]
  {
    if s == [] then 0
    else if s[0] == c then 0
    else
      var k := 1 + IndexOf(s[1..], c);
      assert s[..k] == [s[0]] + s[1..][..k - 1];
      k
  }

  /** Python's `s.split(sep)` for a one-character separator: always at least one part. */
  function SplitOn(s: string, sep: char): (r: seq<string>)
    ensures |r| >= 1
    ensures forall k :: 0 <= k < |r| ==> sep !in r[k]
    decreases |s|
  {
    var i := IndexOf(s, sep);
    if i == |s| then [s] else [s[..i]] + SplitOn(s[i + 1..], sep)
  }

  /** Splitting never introduces a character. */
  lemma {:induction false} SplitOnKeepsAbsent(s: string, sep: char, c: char)
    requires c !in s
    ensures forall k :: 0 <= k < |SplitOn(s, sep)| ==> c !in SplitOn(s, sep)[k]
    decreases |s|
  {
    var i := IndexOf(s, sep);
    if i < |s| {
      SplitOnKeepsAbsent(s[i + 1..], sep, c);
      assert forall ch :: ch in s[..i] ==> ch in s;
    }
  }

  /** Python's `sep.join(parts)` for a one-character separator. */
  function Join(parts: seq<string>, sep: char): string
  {
    if |parts| == 0 then []
    else if |parts| == 1 then parts[0]
    else parts[0] + [sep] + Join(parts[1..], sep)
  }

  /** Parts that are all non-empty join to the empty string only when there are none. */
  lemma JoinEmptyIffNoParts(parts: seq<string>, sep: char)
    requires forall k :: 0 <= k < |parts| ==> parts[k] != []
    ensures Join(parts, sep) == [] <==> parts == []
  {
    if |parts| >= 2 {
      assert Join(parts, sep) == parts[0] + [sep] + Join(parts[1..], sep);
    }
  }

  /** Joining never introduces a character other than the separator. */
  lemma {:induction false} JoinKeepsAbsent(parts: seq<string>, sep: char, c: char)
    requires c != sep
    requires forall k :: 0 <= k < |parts| ==> c !in parts[k]
    ensures c !in Join(parts, sep)
    decreases |parts|
  {
    if |parts| >= 2 {
      JoinKeepsAbsent(parts[1..], sep, c);
    }
  }

  lemma {:induction false} JoinSplitOn(s: string, sep: char)
    ensures Join(SplitOn(s, sep), sep) == s
    decreases |s|
  {
    var i := IndexOf(s, sep);
    if i < |s| {
      var rest := SplitOn(s[i + 1..], sep);
      assert Join(rest, sep) == s[i + 1..] by {
        JoinSplitOn(s[i + 1..], sep);
      }
      assert Join(SplitOn(s, sep), sep) == s[..i] + [sep] + Join(rest, sep) by {
        JoinCons(s[..i], rest, sep);
      }
      assert s == s[..i] + [sep] + s[i + 1..];
    }
  }

  /** Every part appears whole in the joined string, at position `p`. */
  lemma {:induction false} JoinHasPart(parts: seq<string>, sep: char, k: nat) returns (p: nat)
    requires k < |parts|
    ensures p + |parts[k]| <= |Join(parts, sep)| && Join(parts, sep)[p..p + |parts[k]|] == parts[k]
    decreases k
  {
    var joined := Join(parts, sep);
    if |parts| == 1 {
      p := 0;
    } else {
      var rest := Join(parts[1..], sep);
      assert joined == parts[0] + [sep] + rest;
      if k == 0 {
        p := 0;
      } else {
        var q := JoinHasPart(parts[1..], sep, k - 1);
        p := |parts[0]| + 1 + q;
        assert joined[p..p + |parts[k]|] == rest[q..q + |parts[k]|];
      }
    }
  }

  /** The stripped join of some parts contains the stripped content of each part. */
  lemma StripJoinKeepsPart(parts: seq<string>, sep: char, k: nat)
    requires k < |parts|
    ensures Contains(Strip(Join(parts, sep)), Strip(parts[k]))
  {
    var p := JoinHasPart(parts, sep, k);
    StripKeepsSlice(Join(parts, sep), p, p + |parts[k]|);
  }

  /** Stripping a string keeps the stripped content of any slice of it. */
  lemma StripKeepsSlice(s: string, p: nat, q: nat)
    requires p <= q <= |s|
    ensures Contains(Strip(s), Strip(s[p..q]))
  {
    var a, b := StripSlice(s[p..q]);
    var t := Strip(s[p..q]);
    if t == [] {
      assert OccursAt(Strip(s), t, 0);
    } else {
      var i, j := StripSlice(s);
      StrippedSliceBounds(s, p, q, a, b);
      StripKeeps(s, i, j, p + a);
      StripKeeps(s, i, j, p + b - 1);
      SliceOccurs(s, i, j, p + a, p + b);
    }
  }

  lemma SliceOccurs(s: string, i: nat, j: nat, m: nat, n: nat)
    requires i <= m <= n <= j <= |s|
    ensures OccursAt(s[i..j], s[m..n], m - i)
  {
    SliceOfSlice(s, i, j, m, n);
  }

  /** The stripped slice is itself a slice of `s`, and its ends are not whitespace. */
  lemma StrippedSliceBounds(s: string, p: nat, q: nat, a: nat, b: nat)
    requires p <= q <= |s| && a <= b <= q - p && Strip(s[p..q]) == s[p..q][a..b] && a < b
    ensures Strip(s[p..q]) == s[p + a..p + b]
    ensures !IsSpace(s[p + a]) && !IsSpace(s[p + b - 1])
  {
    SliceOfSlice(s, p, q, p + a, p + b);
  }

  lemma SliceOfSlice(s: string, i: nat, j: nat, m: nat, n: nat)
    requires i <= m <= n <= j <= |s|
    ensures s[i..j][m - i..n - i] == s[m..n]
  {
    forall k | 0 <= k < n - m ensures s[i..j][m - i..n - i][k] == s[m..n][k] {
      assert s[i..j][m - i + k] == s[m + k];
    }
  }

  /** A non-space character lies inside the part `strip` keeps. */
  lemma StripKeeps(s: string, i: nat, j: nat, k: nat)
    requires i <= j <= |s| && AllSpace(s[..i]) && AllSpace(s[j..])
    requires k < |s| && !IsSpace(s[k])
    ensures i <= k < j
  {
  }

  lemma JoinCons(p: string, rest: seq<string>, sep: char)
    requires |rest| >= 1
    ensures Join([p] + rest, sep) == p + [sep] + Join(rest, sep)
  {
    assert ([p] + rest)[1..] == rest;
  }

  lemma {:induction false} SplitOnJoin(parts: seq<string>, sep: char)
    requires |parts| >= 1
    requires forall k :: 0 <= k < |parts| ==> sep !in parts[k]
    ensures SplitOn(Join(parts, sep), sep) == parts
    decreases |parts|
  {
    var s := Join(parts, sep);
    if |parts| == 1 {
      IndexOfAbsent(s, sep);
    } else {
      SplitOnJoin(parts[1..], sep);
      var p := parts[0];
      assert s == p + [sep] + Join(parts[1..], sep);
      assert s[..|p|] == p;
      IndexOfAt(s, sep, |p|);
      assert s[|p| + 1..] == Join(parts[1..], sep);
    }
  }

  lemma IndexOfAbsent(s: string, c: char)
    requires c !in s
    ensures IndexOf(s, c) == |s|
  {
  }

  lemma IndexOfAt(s: string, c: char, i: nat)
    requires i < |s| && s[i] == c && c !in s[..i]
    ensures IndexOf(s, c) == i
  {
    assert s[..i + 1][i] == c;
  }

  /** `part` occurs in `s` as a contiguous substring (Python's `part in s`). */
  predicate Contains(s: string, part: string) {
    exists i :: 0 <= i <= |s| - |part| && OccursAt(s, part, i)
  }

  predicate OccursAt(s: string, part: string, i: int)
    requires 0 <= i <= |s| - |part|
  {
    s[i..i + |part|] == part
  }

  /** One differing character rules out an occurrence. */
  lemma Mismatch(s: string, part: string, i: nat, k: nat)
    requires i + |part| <= |s| && k < |part| && s[i + k] != part[k]
    ensures !OccursAt(s, part, i)
  {
    assert s[i..i + |part|][k] == s[i + k];
  }

  /** Python's `s.startswith(prefix)`. */
  predicate StartsWith(s: string, prefix: string) {
    |prefix| <= |s| && s[..|prefix|] == prefix
  }

  function DigitChar(d: nat): (c: char)
    requires d < 10
    ensures '0' <= c <= '9'
  {
    ['0', '1', '2', '3', '4', '5', '6', '7', '8', '9'][d]
  }

  /** Decimal digits of `n` without leading zeros, as Python's `str(n)`. */
  function NatToString(n: nat): (r: string)
    ensures |r| >= 1
    ensures forall k :: 0 <= k < |r| ==> '0' <= r[k] <= '9'
  {
    if n < 10 then [DigitChar(n)] else NatToString(n / 10) + [DigitChar(n % 10)]
  }

  /** Python's `str(i)` for an integer. */
  function IntToString(i: int): (r: string)
    ensures |r| >= 1
  {
    if i < 0 then "-" + NatToString(-i) else NatToString(i)
  }
}
