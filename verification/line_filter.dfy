/**
  The configurable line filter that runs between the cleaner and the
  semantic stage (backend/app/services/preprocess/line_filter.py).

  Regular-expression search is a parameter: `search(pattern, line)` says
  whether the case-insensitive pattern finds a match anywhere in the line.
  The three fixed contact patterns of the module are passed to it by their
  source text. Python's character classes (`str.isalnum`, `\d`) are
  parameters as well.
 */
module LineFilter {
  import opened Text

  const EmailPattern: string := "[A-Za-z0-9._%+-]+@[A-Za-z0-9.-]+\\.[A-Za-z]{2,}"
  const UrlPattern: string := "(https?://|www\\.)|\\bURL\\s*:"
  const PhonePattern: string := "\\d{2,4}-\\d{2,4}-\\d{3,4}"

  /** The filter's settings, as read from the line-filter configuration. */
  datatype Settings = Settings(
    enabled: bool,
    decorationChars: set<char>,
    jobKeywords: seq<string>,
    signatureKeywords: seq<string>,
    companyPrefixes: seq<string>,
    forceDeletePatterns: seq<string>,
    greetingPatterns: seq<string>,
    closingPatterns: seq<string>,
    footerPatterns: seq<string>)

  /** The regex engine and character classes the filter runs on. */
  datatype Engine = Engine(search: (string, string) -> bool, chars: CharClasses)

  /** `_matches_any`: some pattern finds a match in the line. */
  predicate MatchesAny(e: Engine, patterns: seq<string>, line: string) {
    exists k :: 0 <= k < |patterns| && e.search(patterns[k], line)
  }

  /** `_contains_job_keyword`: some job keyword is a substring of the line. */
  predicate ContainsJobKeyword(s: Settings, line: string) {
    exists k :: 0 <= k < |s.jobKeywords| && Contains(line, s.jobKeywords[k])
  }

  /** The line with every whitespace character removed (`re.sub(r"\s+", "", line)`). */
  function Compact(line: string): (r: string)
    ensures forall k :: 0 <= k < |r| ==> !IsSpace(r[k])
    ensures |r| <= |line|
  {
    if line == [] then []
    else (if IsSpace(line[0]) then [] else [line[0]]) + Compact(line[1..])
  }

  /**
    `_is_decorative`: every non-space character is a decoration character, or
    there are at least three non-space characters, all the same
    non-alphanumeric one.
   */
  predicate IsDecorative(s: Settings, e: Engine, line: string) {
    var compact := Compact(line);
    || (compact != [] && forall k :: 0 <= k < |compact| ==> compact[k] in s.decorationChars)
    || (|compact| >= 3 && !e.chars.isAlnum(compact[0])
        && forall k :: 0 <= k < |compact| ==> compact[k] == compact[0])
  }

  /** `_is_short_noise`: at most four characters, all digits, non-word characters or `_` (`^[\d\W_]+$`). */
  predicate IsShortNoise(e: Engine, line: string) {
    && 1 <= |line| <= 4
    && forall k :: 0 <= k < |line| ==>
         e.chars.isDigit(line[k]) || !e.chars.IsWord(line[k]) || line[k] == '_'
  }

  /** `line.startswith(prefixes)` for a tuple of prefixes. */
  predicate StartsWithAny(line: string, prefixes: seq<string>) {
    exists k :: 0 <= k < |prefixes| && StartsWith(line, prefixes[k])
  }

  /** `_looks_like_signature`: contact details, a signature keyword or a company prefix. */
  predicate LooksLikeSignature(s: Settings, e: Engine, line: string) {
    || e.search(EmailPattern, line)
    || e.search(UrlPattern, line)
    || e.search(PhonePattern, line)
    || (exists k :: 0 <= k < |s.signatureKeywords| && Contains(line, s.signatureKeywords[k]))
    || (s.companyPrefixes != [] && StartsWithAny(line, s.companyPrefixes))
  }

  /** `_is_garbage_line`, tested on the stripped line in the source's order. */
  predicate IsGarbage(s: Settings, e: Engine, line: string) {
    var trimmed := Strip(line);
    || trimmed == []
    || IsDecorative(s, e, trimmed)
    || IsShortNoise(e, trimmed)
    || MatchesAny(e, s.greetingPatterns, trimmed)
    || MatchesAny(e, s.closingPatterns, trimmed)
    || LooksLikeSignature(s, e, trimmed)
    || MatchesAny(e, s.footerPatterns, trimmed)
  }

  /** The per-line decision of an enabled filter: force-delete first, then job keyword, then garbage. */
  predicate Keeps(s: Settings, e: Engine, line: string) {
    if MatchesAny(e, s.forceDeletePatterns, line) then false
    else if ContainsJobKeyword(s, line) then true
    else !IsGarbage(s, e, line)
  }

  /** The lines an enabled filter keeps, in input order. */
  function KeptLines(s: Settings, e: Engine, lines: seq<string>): (r: seq<string>)
    ensures |r| <= |lines|
  {
    if lines == [] then []
    else (if Keeps(s, e, lines[0]) then [lines[0]] else []) + KeptLines(s, e, lines[1..])
  }

  lemma KeptLinesStep(s: Settings, e: Engine, lines: seq<string>, i: nat)
    requires i < |lines|
    ensures KeptLines(s, e, lines[i..])
         == (if Keeps(s, e, lines[i]) then [lines[i]] else []) + KeptLines(s, e, lines[i + 1..])
  {
    assert lines[i..][1..] == lines[i + 1..];
  }

  /** One step of the filter loop keeps its invariant. */
  lemma FilterStep(s: Settings, e: Engine, lines: seq<string>, i: nat, kept: seq<string>, keep: bool)
    requires i < |lines| && keep == Keeps(s, e, lines[i])
    requires kept + KeptLines(s, e, lines[i..]) == KeptLines(s, e, lines)
    ensures (if keep then kept + [lines[i]] else kept) + KeptLines(s, e, lines[i + 1..]) == KeptLines(s, e, lines)
  {
    KeptLinesStep(s, e, lines, i);
    var rest := KeptLines(s, e, lines[i + 1..]);
    if keep {
      assert kept + [lines[i]] + rest == kept + ([lines[i]] + rest);
    }
  }

  /** `filter_lines`: a disabled filter returns the lines unchanged, an enabled one keeps the lines `Keeps` accepts. */
  method FilterLines(s: Settings, e: Engine, lines: seq<string>) returns (kept: seq<string>)
    ensures !s.enabled ==> kept == lines
    ensures s.enabled ==> kept == KeptLines(s, e, lines)
  {
    if !s.enabled {
      return lines;
    }
    kept := [];
    var i := 0;
    while i < |lines|
      invariant 0 <= i <= |lines|
      invariant kept + KeptLines(s, e, lines[i..]) == KeptLines(s, e, lines)
    {
      var keep := Keeps(s, e, lines[i]);
      FilterStep(s, e, lines, i, kept, keep);
      if keep {
        kept := kept + [lines[i]];
      }
      i := i + 1;
    }
    assert lines[i..] == [];
  }

  /** The kept lines are an order-preserving selection of the input; no line is rewritten. */
  lemma {:induction false} KeptIsSubsequence(s: Settings, e: Engine, lines: seq<string>)
    ensures Subsequence(KeptLines(s, e, lines), lines)
    decreases |lines|
  {
    if lines != [] {
      KeptIsSubsequence(s, e, lines[1..]);
      var rest := KeptLines(s, e, lines[1..]);
      if Keeps(s, e, lines[0]) {
        assert ([lines[0]] + rest)[1..] == rest;
      } else {
        assert KeptLines(s, e, lines) == rest;
      }
    }
  }

  /**
    Exactly the kept lines survive: a line of the input is in the output iff
    the ordered decision keeps it, and nothing else appears.
   */
  lemma {:induction false} KeptMembership(s: Settings, e: Engine, lines: seq<string>, line: string)
    ensures line in KeptLines(s, e, lines) <==> line in lines && Keeps(s, e, line)
    decreases |lines|
  {
    if lines != [] {
      KeptMembership(s, e, lines[1..], line);
      assert lines == [lines[0]] + lines[1..];
    }
  }

  /** A force-deleted line never survives, even when it carries a job keyword. */
  lemma ForceDeleteWins(s: Settings, e: Engine, lines: seq<string>, line: string)
    requires MatchesAny(e, s.forceDeletePatterns, line)
    ensures line !in KeptLines(s, e, lines)
  {
    KeptMembership(s, e, lines, line);
  }

  /** A line that is not force-deleted and carries a job keyword survives, even if it looks like a signature. */
  lemma JobKeywordKeeps(s: Settings, e: Engine, lines: seq<string>, line: string)
    requires line in lines
    requires !MatchesAny(e, s.forceDeletePatterns, line) && ContainsJobKeyword(s, line)
    ensures line in KeptLines(s, e, lines)
  {
    KeptMembership(s, e, lines, line);
  }

  /** A blank or whitespace-only line without a job keyword is dropped. */
  lemma BlankLineDropped(s: Settings, e: Engine, lines: seq<string>, line: string)
    requires AllSpace(line) && !ContainsJobKeyword(s, line)
    ensures line !in KeptLines(s, e, lines)
  {
    StripEmptyIffAllSpace(line);
    KeptMembership(s, e, lines, line);
  }

  /** Any garbage line (short noise, a greeting, a signature, ...) without a job keyword is dropped. */
  lemma GarbageDropped(s: Settings, e: Engine, lines: seq<string>, line: string)
    requires IsGarbage(s, e, line) && !ContainsJobKeyword(s, line)
    ensures line !in KeptLines(s, e, lines)
  {
    KeptMembership(s, e, lines, line);
  }

  /** Three repeats of one non-alphanumeric character are decorative, whatever the decoration set. */
  lemma RepeatedSymbolIsDecorative(s: Settings, e: Engine, c: char)
    requires !IsSpace(c) && !e.chars.isAlnum(c)
    ensures IsDecorative(s, e, [c, c, c])
  {
    assert Compact([c, c, c]) == [c, c, c] by {
      assert Compact([c]) == [c];
      assert [c, c, c][1..] == [c, c];
      assert [c, c][1..] == [c];
    }
  }
}
