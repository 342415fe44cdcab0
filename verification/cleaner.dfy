/**
  The cleaner's whitespace normaliser and `clean_body`'s choice of input
  (backend/app/services/cleaner.py). The HTML-stripping regexes and
  `html.unescape` that run before the normaliser are a parameter.
 */
module Cleaner {
  import opened Text

  /** The characters of the inline-space class `[ \t\f\v]`. */
  predicate IsInlineSpace(c: char) {
    c == ' ' || c == '\t' || c == '\U{000C}' || c == '\U{000B}'
  }

  /** Characters that never survive normalisation. */
  predicate IsControlSpace(c: char) {
    c == '\r' || c == '\t' || c == '\U{000C}' || c == '\U{000B}'
  }

  predicate NoControlSpace(s: string) {
    forall i :: 0 <= i < |s| ==> !IsControlSpace(s[i])
  }

  /** No two spaces in a row. */
  predicate NoDoubleSpace(s: string) {
    forall i :: 0 <= i < |s| - 1 ==> !(s[i] == ' ' && s[i + 1] == ' ')
  }

  /** The shape of every line of a normalised text. */
  predicate CleanLine(l: string) {
    && l != []
    && (forall k :: 0 <= k < |l| ==> l[k] != '\n')
    && Stripped(l)
    && NoControlSpace(l)
    && NoDoubleSpace(l)
  }

  predicate CleanLines(ls: seq<string>) {
    forall k :: 0 <= k < |ls| ==> CleanLine(ls[k])
  }

  /** `text.replace("\r\n", "\n")`. */
  function ReplaceCrLf(s: string): (r: string)
    ensures '\r' !in s ==> r == s
    ensures forall c :: c in r && c != '\n' ==> c in s
  {
    if s == [] then []
    else if |s| >= 2 && s[0] == '\r' && s[1] == '\n' then "\n" + ReplaceCrLf(s[2..])
    else [s[0]] + ReplaceCrLf(s[1..])
  }

  /** `text.replace("\r", "\n")`. */
  function ReplaceCr(s: string): (r: string)
    ensures '\r' !in r
    ensures '\r' !in s ==> r == s
  {
    if s == [] then []
    else (if s[0] == '\r' then "\n" else [s[0]]) + ReplaceCr(s[1..])
  }

  /** The text after its leading run of inline spaces. */
  function SkipInline(s: string): (r: string)
    ensures |r| <= |s| && r == s[|s| - |r|..]
    ensures r == [] || !IsInlineSpace(r[0])
  {
    if s != [] && IsInlineSpace(s[0]) then SkipInline(s[1..]) else s
  }

  /** `re.sub(r"[ \t\f\v]+", " ", line)`: every maximal run of inline spaces becomes one space. */
  function CollapseInline(s: string): string
    decreases |s|
  {
    if s == [] then []
    else if IsInlineSpace(s[0]) then " " + CollapseInline(SkipInline(s))
    else [s[0]] + CollapseInline(s[1..])
  }

  /**
    Collapsing leaves no tab, form feed, vertical tab or double space, adds
    no character but the space, and starts with a space exactly when the
    line starts with inline space.
   */
  lemma CollapseShape(s: string)
    ensures var r := CollapseInline(s);
      && (r == [] <==> s == [])
      && (r != [] ==> (r[0] == ' ' <==> IsInlineSpace(s[0])))
      && (forall c :: c in r && c != ' ' ==> c in s)
      && NoDoubleSpace(r)
      && (forall i :: 0 <= i < |r| ==> r[i] != '\t' && r[i] != '\U{000C}' && r[i] != '\U{000B}')
  {
    CollapseHead(s);
    CollapseChars(s);
    CollapseNoDouble(s);
    CollapseNoTab(s);
  }

  lemma CollapseHead(s: string)
    ensures var r := CollapseInline(s);
      && (r == [] <==> s == [])
      && (r != [] ==> (r[0] == ' ' <==> IsInlineSpace(s[0])))
  {
  }

  lemma {:induction false} CollapseChars(s: string)
    ensures forall c :: c in CollapseInline(s) && c != ' ' ==> c in s
    decreases |s|
  {
    if s != [] {
      var rest := if IsInlineSpace(s[0]) then SkipInline(s) else s[1..];
      CollapseChars(rest);
      assert CollapseInline(s) == (if IsInlineSpace(s[0]) then " " else [s[0]]) + CollapseInline(rest);
      assert forall c :: c in rest ==> c in s;
    }
  }

  lemma {:induction false} CollapseNoDouble(s: string)
    ensures NoDoubleSpace(CollapseInline(s))
    decreases |s|
  {
    if s != [] {
      var rest := if IsInlineSpace(s[0]) then SkipInline(s) else s[1..];
      var t := CollapseInline(rest);
      CollapseNoDouble(rest);
      CollapseHead(rest);
      var r := CollapseInline(s);
      assert r == (if IsInlineSpace(s[0]) then " " else [s[0]]) + t;
      forall i | 0 <= i < |r| - 1 ensures !(r[i] == ' ' && r[i + 1] == ' ') {
        if i > 0 {
          assert r[i] == t[i - 1] && r[i + 1] == t[i];
        }
      }
    }
  }

  lemma {:induction false} CollapseNoTab(s: string)
    ensures NoTabLike(CollapseInline(s))
    decreases |s|
  {
    if s != [] {
      var rest := if IsInlineSpace(s[0]) then SkipInline(s) else s[1..];
      var t := CollapseInline(rest);
      CollapseNoTab(rest);
      var r := CollapseInline(s);
      assert r == (if IsInlineSpace(s[0]) then " " else [s[0]]) + t;
      forall i | 0 <= i < |r| ensures r[i] != '\t' && r[i] != '\U{000C}' && r[i] != '\U{000B}' {
        if i > 0 {
          assert r[i] == t[i - 1];
        }
      }
    }
  }

  /** No tab, form feed or vertical tab. */
  predicate NoTabLike(r: string) {
    forall i :: 0 <= i < |r| ==> r[i] != '\t' && r[i] != '\U{000C}' && r[i] != '\U{000B}'
  }

  /** One line of `_normalize_whitespace`: collapse inline space, then strip. */
  function NormalizeLine(line: string): string {
    Strip(CollapseInline(line))
  }

  /** The normalised image of every line, blank or not. */
  function Images(lines: seq<string>): (r: seq<string>)
    ensures |r| == |lines|
    ensures forall i :: 0 <= i < |lines| ==> r[i] == NormalizeLine(lines[i])
  {
    seq(|lines|, i requires 0 <= i < |lines| => NormalizeLine(lines[i]))
  }

  /** The non-empty entries, in order. */
  function NonBlank(images: seq<string>): seq<string> {
    if images == [] then []
    else (if images[0] != [] then [images[0]] else []) + NonBlank(images[1..])
  }

  /** The non-empty normalised lines, in order. */
  function NormalizeLines(lines: seq<string>): seq<string> {
    NonBlank(Images(lines))
  }

  /**
    `_normalize_whitespace`: unify line endings to `\n`, collapse inline space
    runs, strip every line, drop the lines left empty and re-join with `\n`.
    Every line of the result has the clean shape.
   */
  function NormalizeWhitespace(text: string): (r: string)
    ensures r == [] || CleanLines(SplitOn(r, '\n'))
  {
    var lines := UnifiedLines(text);
    var kept := NormalizeLines(lines);
    NormalizedLinesAreClean(lines);
    JoinedCleanLines(kept);
    Join(kept, '\n')
  }

  /** The input's lines once `\r\n` and `\r` are unified to `\n`: none holds a line break. */
  function UnifiedLines(text: string): (lines: seq<string>)
    ensures forall k :: 0 <= k < |lines| ==> '\n' !in lines[k] && '\r' !in lines[k]
  {
    var unified := ReplaceCr(ReplaceCrLf(text));
    SplitOnKeepsAbsent(unified, '\n', '\r');
    SplitOn(unified, '\n')
  }

  /** `out[k]` is the non-empty entry at position `idx[k]`. */
  predicate Picks(images: seq<string>, out: seq<string>, idx: seq<int>) {
    && |idx| == |out|
    && forall k :: 0 <= k < |idx| ==> PickAt(images, out, idx, k)
  }

  predicate PickAt(images: seq<string>, out: seq<string>, idx: seq<int>, k: int) {
    0 <= k < |idx| && k < |out| && 0 <= idx[k] < |images| && out[k] == images[idx[k]] != []
  }

  lemma PicksAt(images: seq<string>, out: seq<string>, idx: seq<int>, k: int)
    requires Picks(images, out, idx) && 0 <= k < |idx|
    ensures 0 <= idx[k] < |images| && out[k] == images[idx[k]] != []
  {
    assert PickAt(images, out, idx, k);
  }

  predicate Increasing(idx: seq<int>) {
    forall k, m :: 0 <= k < m < |idx| ==> idx[k] < idx[m]
  }

  /** Every non-empty entry's position is picked. */
  predicate Covers(images: seq<string>, idx: seq<int>) {
    forall i :: 0 <= i < |images| && images[i] != [] ==> i in idx
  }

  /**
    `out` lists the non-empty entries of `images` at the strictly increasing
    positions `idx`, and every non-empty entry is among those positions:
    nothing is reordered and nothing non-blank is lost.
   */
  predicate OrderedSelection(images: seq<string>, out: seq<string>, idx: seq<int>) {
    Picks(images, out, idx) && Increasing(idx) && Covers(images, idx)
  }

  /** `NonBlank` keeps exactly the non-empty entries, in their order. */
  lemma {:induction false} NonBlankSelect(images: seq<string>) returns (idx: seq<int>)
    ensures OrderedSelection(images, NonBlank(images), idx)
    decreases |images|
  {
    if images == [] {
      idx := [];
    } else {
      var h, t := images[0], images[1..];
      var rest := NonBlankSelect(t);
      assert images == [h] + t;
      idx := SelectCons(h, t, rest);
    }
  }

  /** The selection for `[h] + t` from the selection for `t`. */
  lemma SelectCons(h: string, t: seq<string>, rest: seq<int>) returns (idx: seq<int>)
    requires OrderedSelection(t, NonBlank(t), rest)
    ensures OrderedSelection([h] + t, NonBlank([h] + t), idx)
  {
    NonBlankCons(h, t);
    if h != [] {
      idx := [0] + Shift(rest);
      SelectKept(h, t, NonBlank(t), rest);
    } else {
      idx := Shift(rest);
      assert NonBlank([h] + t) == NonBlank(t) && [h] + t == [[]] + t;
      SelectDropped(t, NonBlank(t), rest);
    }
  }

  lemma NonBlankCons(h: string, t: seq<string>)
    ensures NonBlank([h] + t) == (if h != [] then [h] else []) + NonBlank(t)
  {
    assert ([h] + t)[1..] == t;
  }

  /** Every position moved one down. */
  function Shift(xs: seq<int>): (r: seq<int>)
    ensures |r| == |xs|
    ensures forall k :: 0 <= k < |xs| ==> r[k] == xs[k] + 1
  {
    seq(|xs|, k requires 0 <= k < |xs| => xs[k] + 1)
  }

  /** A blank first entry is skipped: the tail's positions move one down. */
  lemma SelectDropped(tail: seq<string>, out: seq<string>, rest: seq<int>)
    requires OrderedSelection(tail, out, rest)
    ensures OrderedSelection([[]] + tail, out, Shift(rest))
  {
    var images: seq<string> := [[]] + tail;
    assert images[1..] == tail;
    PicksShifted(images, out, rest);
    IncreasingShifted(rest);
    var idx := Shift(rest);
    forall i | 0 <= i < |images| && images[i] != [] ensures i in idx {
      assert images[1..][i - 1] == images[i];
      var k :| 0 <= k < |rest| && rest[k] == i - 1;
      assert idx[k] == i;
    }
  }

  /** A non-blank first entry is kept in front of the tail's selection. */
  lemma SelectKept(head: string, tail: seq<string>, out: seq<string>, rest: seq<int>)
    requires head != []
    requires OrderedSelection(tail, out, rest)
    ensures OrderedSelection([head] + tail, [head] + out, [0] + Shift(rest))
  {
    var images := [head] + tail;
    assert images[1..] == tail;
    PicksShifted(images, out, rest);
    IncreasingShifted(rest);
    PicksKept(images, out, Shift(rest));
    forall k | 0 <= k < |rest| ensures Shift(rest)[k] > 0 {
      PicksAt(tail, out, rest, k);
    }
    IncreasingKept(Shift(rest));
    CoversKept(images, rest);
  }

  lemma PicksShifted(images: seq<string>, out: seq<string>, rest: seq<int>)
    requires images != []
    requires Picks(images[1..], out, rest)
    ensures Picks(images, out, Shift(rest))
  {
    var idx := Shift(rest);
    forall k | 0 <= k < |idx| ensures PickAt(images, out, idx, k) {
      PicksAt(images[1..], out, rest, k);
      assert images[1..][rest[k]] == images[idx[k]];
    }
  }

  lemma IncreasingShifted(rest: seq<int>)
    requires Increasing(rest)
    ensures Increasing(Shift(rest))
  {
  }

  lemma PicksKept(images: seq<string>, out: seq<string>, idx: seq<int>)
    requires images != [] && images[0] != []
    requires Picks(images, out, idx)
    ensures Picks(images, [images[0]] + out, [0] + idx)
  {
    var all, pos := [images[0]] + out, [0] + idx;
    forall k | 0 <= k < |pos| ensures PickAt(images, all, pos, k) {
      if k > 0 {
        assert pos[k] == idx[k - 1] && all[k] == out[k - 1];
        PicksAt(images, out, idx, k - 1);
      }
    }
  }

  lemma IncreasingKept(idx: seq<int>)
    requires Increasing(idx)
    requires forall k :: 0 <= k < |idx| ==> idx[k] > 0
    ensures Increasing([0] + idx)
  {
    var pos := [0] + idx;
    forall k, m | 0 <= k < m < |pos| ensures pos[k] < pos[m] {
      assert pos[m] == idx[m - 1];
      if k > 0 {
        assert pos[k] == idx[k - 1];
      }
    }
  }

  lemma CoversKept(images: seq<string>, rest: seq<int>)
    requires images != []
    requires Covers(images[1..], rest)
    ensures Covers(images, [0] + Shift(rest))
  {
    var idx := [0] + Shift(rest);
    forall i | 0 <= i < |images| && images[i] != [] ensures i in idx {
      if i > 0 {
        assert images[1..][i - 1] == images[i];
        var k :| 0 <= k < |rest| && rest[k] == i - 1;
        assert idx[k + 1] == i;
      }
    }
  }

  /**
    The lines of a normalised text are the non-empty images of the input's
    lines: splitting the result at `\n` gives them back, and the result is
    blank exactly when no line has a non-empty image.
   */
  lemma NormalizedLines(text: string)
    ensures var r, kept := NormalizeWhitespace(text), NonBlank(Images(UnifiedLines(text)));
      && (r == [] <==> kept == [])
      && (r != [] ==> SplitOn(r, '\n') == kept)
  {
    NormalizedLinesAreClean(UnifiedLines(text));
    CleanLinesSplitBack(NormalizeLines(UnifiedLines(text)));
  }

  /** Clean lines joined with `\n` split back into themselves; none joins to the empty text. */
  lemma CleanLinesSplitBack(ls: seq<string>)
    requires CleanLines(ls)
    ensures var r := Join(ls, '\n');
      && (r == [] <==> ls == [])
      && (r != [] ==> SplitOn(r, '\n') == ls)
  {
    forall k | 0 <= k < |ls| ensures ls[k] != [] && '\n' !in ls[k] {
      assert CleanLine(ls[k]);
    }
    JoinEmptyIffNoParts(ls, '\n');
    if ls != [] {
      SplitOnJoin(ls, '\n');
    }
  }

  /** Clean lines joined with `\n` split back into themselves. */
  lemma JoinedCleanLines(kept: seq<string>)
    requires CleanLines(kept)
    ensures var r := Join(kept, '\n');
      r == [] || CleanLines(SplitOn(r, '\n'))
  {
    if kept != [] {
      SplitOnJoin(kept, '\n');
    }
  }

  lemma SliceKeepsShape(s: string, i: int, j: int)
    requires 0 <= i <= j <= |s|
    requires NoDoubleSpace(s)
    requires forall k :: 0 <= k < |s| ==> s[k] != '\t' && s[k] != '\U{000C}' && s[k] != '\U{000B}'
    ensures NoDoubleSpace(s[i..j])
    ensures forall k :: 0 <= k < j - i ==> s[i..j][k] != '\t' && s[i..j][k] != '\U{000C}' && s[i..j][k] != '\U{000B}'
  {
    forall k | 0 <= k < j - i - 1 ensures !(s[i..j][k] == ' ' && s[i..j][k + 1] == ' ') {
      assert s[i..j][k] == s[i + k] && s[i..j][k + 1] == s[i + k + 1];
    }
  }

  /** Stripping keeps a line free of newlines, control spaces and double spaces. */
  lemma StripKeepsShape(c: string)
    requires forall k :: 0 <= k < |c| ==> c[k] != '\n' && c[k] != '\r'
    requires NoDoubleSpace(c)
    requires forall k :: 0 <= k < |c| ==> c[k] != '\t' && c[k] != '\U{000C}' && c[k] != '\U{000B}'
    ensures Strip(c) == [] || CleanLine(Strip(c))
  {
    var i, j := StripSlice(c);
    if Strip(c) != [] {
      SliceClean(c, i, j);
    }
  }

  /** A non-empty stripped slice of a line of the right shape is a clean line. */
  lemma SliceClean(c: string, i: nat, j: nat)
    requires i <= j <= |c| && c[i..j] != [] && Stripped(c[i..j])
    requires forall k :: 0 <= k < |c| ==> c[k] != '\n' && c[k] != '\r'
    requires NoDoubleSpace(c)
    requires forall k :: 0 <= k < |c| ==> c[k] != '\t' && c[k] != '\U{000C}' && c[k] != '\U{000B}'
    ensures CleanLine(c[i..j])
  {
    var r := c[i..j];
    SliceKeepsShape(c, i, j);
    forall k | 0 <= k < |r| ensures r[k] != '\n' && r[k] != '\r' {
      assert r[k] == c[i + k];
    }
  }

  /** A line with neither `\n` nor `\r` normalises to a clean line or to nothing. */
  lemma NormalizeLineShape(line: string)
    requires '\n' !in line && '\r' !in line
    ensures NormalizeLine(line) == [] || CleanLine(NormalizeLine(line))
  {
    var c := CollapseInline(line);
    CollapseShape(line);
    assert '\n' !in c && '\r' !in c;
    StripKeepsShape(c);
  }

  lemma NormalizedLinesAreClean(lines: seq<string>)
    requires forall k :: 0 <= k < |lines| ==> '\n' !in lines[k] && '\r' !in lines[k]
    ensures CleanLines(NormalizeLines(lines))
  {
    var images := Images(lines);
    forall i | 0 <= i < |images| ensures images[i] == [] || CleanLine(images[i]) {
      NormalizeLineShape(lines[i]);
    }
    NonBlankClean(images);
  }

  /** The non-empty entries of a list whose entries are blank or clean are clean. */
  lemma {:induction false} NonBlankClean(images: seq<string>)
    requires forall i :: 0 <= i < |images| ==> images[i] == [] || CleanLine(images[i])
    ensures CleanLines(NonBlank(images))
    decreases |images|
  {
    if images != [] {
      var h, t := images[0], images[1..];
      assert forall k :: 0 <= k < |t| ==> t[k] == images[k + 1];
      NonBlankClean(t);
      var head: seq<string> := if h != [] then [h] else [];
      CleanAppend(head, NonBlank(t));
    }
  }

  lemma CleanAppend(a: seq<string>, b: seq<string>)
    requires CleanLines(a) && CleanLines(b)
    ensures CleanLines(a + b)
  {
    forall k | 0 <= k < |a + b| ensures CleanLine((a + b)[k]) {
      if k >= |a| {
        assert (a + b)[k] == b[k - |a|];
      }
    }
  }

  /** No empty line: two line feeds never meet. */
  predicate NoBlankLine(r: string) {
    forall i :: 0 <= i < |r| - 1 ==> !(r[i] == '\n' && r[i + 1] == '\n')
  }

  /** The character-level shape of a non-empty normalised text. */
  predicate TextShape(r: string) {
    && r != []
    && r[0] != '\n'
    && r[|r| - 1] != '\n'
    && NoBlankLine(r)
    && NoControlSpace(r)
    && NoDoubleSpace(r)
  }

  lemma GlueShape(a: string, b: string)
    requires CleanLine(a) && TextShape(b)
    ensures TextShape(a + "\n" + b)
  {
    var r := a + "\n" + b;
    assert forall i :: 0 <= i < |a| ==> r[i] == a[i];
    assert r[|a|] == '\n';
    assert forall i :: |a| < i < |r| ==> r[i] == b[i - |a| - 1];
  }

  lemma {:induction false} JoinShape(ls: seq<string>)
    requires |ls| >= 1
    requires CleanLines(ls)
    ensures TextShape(Join(ls, '\n'))
    decreases |ls|
  {
    if |ls| >= 2 {
      JoinShape(ls[1..]);
      GlueShape(ls[0], Join(ls[1..], '\n'));
    }
  }

  /**
    A normalised text neither starts nor ends with a line feed, has no empty
    line, no `\r`, `\t`, `\f` or `\v`, and no two consecutive spaces.
   */
  lemma NormalizedTextShape(text: string)
    ensures NormalizeWhitespace(text) == [] || TextShape(NormalizeWhitespace(text))
  {
    var r := NormalizeWhitespace(text);
    if r != [] {
      var ls := SplitOn(r, '\n');
      JoinSplitOn(r, '\n');
      JoinShape(ls);
    }
  }

  lemma SkipOneSpace(s: string)
    requires s != [] && IsInlineSpace(s[0])
    requires |s| == 1 || !IsInlineSpace(s[1])
    ensures SkipInline(s) == s[1..]
  {
  }

  /** Collapsing changes nothing on a line without control spaces or double spaces. */
  lemma {:induction false} CollapseOfClean(s: string)
    requires NoDoubleSpace(s) && NoControlSpace(s)
    ensures CollapseInline(s) == s
    decreases |s|
  {
    if s != [] {
      assert NoDoubleSpace(s[1..]) && NoControlSpace(s[1..]) by {
        assert forall i :: 0 <= i < |s| - 1 ==> s[1..][i] == s[i + 1];
      }
      CollapseOfClean(s[1..]);
      if IsInlineSpace(s[0]) {
        assert !IsControlSpace(s[0]);
        assert |s| == 1 || !IsInlineSpace(s[1]) by {
          if |s| > 1 { assert !(s[0] == ' ' && s[1] == ' '); assert !IsControlSpace(s[1]); }
        }
        SkipOneSpace(s);
      }
    }
  }

  lemma NormalizeLineOfClean(l: string)
    requires CleanLine(l)
    ensures NormalizeLine(l) == l
  {
    CollapseOfClean(l);
    StripOfStripped(l);
  }

  lemma NormalizeLinesOfClean(ls: seq<string>)
    requires CleanLines(ls)
    ensures NormalizeLines(ls) == ls
  {
    forall i | 0 <= i < |ls| ensures Images(ls)[i] == ls[i] {
      NormalizeLineOfClean(ls[i]);
    }
    assert Images(ls) == ls;
    NonBlankOfFull(ls);
  }

  /** A list without an empty entry keeps every entry. */
  lemma {:induction false} NonBlankOfFull(xs: seq<string>)
    requires forall k :: 0 <= k < |xs| ==> xs[k] != []
    ensures NonBlank(xs) == xs
    decreases |xs|
  {
    if xs != [] {
      assert forall k :: 0 <= k < |xs| - 1 ==> xs[1..][k] == xs[k + 1];
      NonBlankOfFull(xs[1..]);
    }
  }

  /** A normalised text holds no `\r`. */
  lemma NormalizedHasNoCr(text: string)
    ensures '\r' !in NormalizeWhitespace(text)
  {
    var kept := NormalizeLines(UnifiedLines(text));
    NormalizedLinesAreClean(UnifiedLines(text));
    CleanLinesHaveNoCr(kept);
    JoinKeepsAbsent(kept, '\n', '\r');
  }

  lemma CleanLinesHaveNoCr(ls: seq<string>)
    requires CleanLines(ls)
    ensures forall k :: 0 <= k < |ls| ==> '\r' !in ls[k]
  {
    forall k | 0 <= k < |ls| ensures '\r' !in ls[k] {
      assert NoControlSpace(ls[k]);
    }
  }

  /** `_normalize_whitespace` is idempotent. */
  lemma NormalizeIdempotent(text: string)
    ensures NormalizeWhitespace(NormalizeWhitespace(text)) == NormalizeWhitespace(text)
  {
    NormalizedHasNoCr(text);
    NormalizeFixed(NormalizeWhitespace(text));
  }

  /** The empty text normalises to itself. */
  lemma NormalizeEmpty()
    ensures NormalizeWhitespace([]) == []
  {
    var e: string := [];
    assert SplitOn(e, '\n') == [e];
    assert NormalizeLine(e) == [];
    assert Images([e]) == [e];
    NonBlankCons(e, []);
  }

  /** A text without `\r` whose lines are all clean is left as it is. */
  lemma NormalizeFixed(r: string)
    requires '\r' !in r
    requires r == [] || CleanLines(SplitOn(r, '\n'))
    ensures NormalizeWhitespace(r) == r
  {
    if r == [] {
      NormalizeEmpty();
    } else {
      var ls := SplitOn(r, '\n');
      UnifiedWithoutCr(r);
      NormalizeLinesOfClean(ls);
      JoinSplitOn(r, '\n');
    }
  }

  /** Without `\r` there is nothing to unify. */
  lemma UnifiedWithoutCr(r: string)
    requires '\r' !in r
    ensures UnifiedLines(r) == SplitOn(r, '\n')
  {
  }

  /** Normalising joined lines normalises each line: the `\n`s between them are where the text is split again. */
  lemma NormalizeOfJoin(lines: seq<string>)
    requires |lines| >= 1
    requires forall k :: 0 <= k < |lines| ==> '\n' !in lines[k] && '\r' !in lines[k]
    ensures NormalizeWhitespace(Join(lines, '\n')) == Join(NormalizeLines(lines), '\n')
  {
    var text := Join(lines, '\n');
    JoinKeepsAbsent(lines, '\n', '\r');
    UnifiedWithoutCr(text);
    SplitOnJoin(lines, '\n');
  }

  /** A prefix without inline space is copied as it is. */
  lemma {:induction false} CollapseWordPrefix(a: string, b: string)
    requires forall i :: 0 <= i < |a| ==> !IsInlineSpace(a[i])
    ensures CollapseInline(a + b) == a + CollapseInline(b)
    decreases |a|
  {
    if a != [] {
      var s := a + b;
      assert s[0] == a[0] && s[1..] == a[1..] + b;
      assert CollapseInline(s) == [a[0]] + CollapseInline(s[1..]);
      CollapseWordPrefix(a[1..], b);
      assert a == [a[0]] + a[1..];
    } else {
      assert a + b == b;
    }
  }

  /** A leading run of inline space becomes one space. */
  lemma CollapseLeadingRun(w: string, x: string)
    requires w != [] && forall i :: 0 <= i < |w| ==> IsInlineSpace(w[i])
    requires x == [] || !IsInlineSpace(x[0])
    ensures CollapseInline(w + x) == " " + CollapseInline(x)
  {
    SkipRun(w, x);
  }

  lemma {:induction false} SkipRun(w: string, x: string)
    requires forall i :: 0 <= i < |w| ==> IsInlineSpace(w[i])
    requires x == [] || !IsInlineSpace(x[0])
    ensures SkipInline(w + x) == x
    decreases |w|
  {
    if w != [] {
      assert (w + x)[1..] == w[1..] + x;
      SkipRun(w[1..], x);
    }
  }

  /** One leading space in front of a stripped, non-empty text is stripped away. */
  lemma StripLeadingSpace(s: string)
    requires s != [] && Stripped(s)
    ensures Strip(" " + s) == s
  {
    assert (" " + s)[1..] == s;
    assert TrimStart(" " + s) == TrimStart(s);
    StripOfStripped(s);
  }

  /** A line of two words after an indent, with a run of inline space between them, normalises to the words and one space. */
  lemma IndentedWords(w: string, a: string, t: string, b: string)
    requires w != [] && forall i :: 0 <= i < |w| ==> IsInlineSpace(w[i])
    requires t != [] && forall i :: 0 <= i < |t| ==> IsInlineSpace(t[i])
    requires a != [] && forall i :: 0 <= i < |a| ==> !IsSpace(a[i]) && !IsInlineSpace(a[i])
    requires b != [] && forall i :: 0 <= i < |b| ==> !IsSpace(b[i]) && !IsInlineSpace(b[i])
    ensures NormalizeLine(w + (a + (t + b))) == a + (" " + b)
  {
    CollapseIndentedWords(w, a, t, b);
    var r := a + (" " + b);
    assert Stripped(r);
    StripLeadingSpace(r);
  }

  lemma CollapseIndentedWords(w: string, a: string, t: string, b: string)
    requires w != [] && forall i :: 0 <= i < |w| ==> IsInlineSpace(w[i])
    requires t != [] && forall i :: 0 <= i < |t| ==> IsInlineSpace(t[i])
    requires a != [] && forall i :: 0 <= i < |a| ==> !IsInlineSpace(a[i])
    requires b != [] && forall i :: 0 <= i < |b| ==> !IsInlineSpace(b[i])
    ensures CollapseInline(w + (a + (t + b))) == " " + (a + (" " + b))
  {
    CollapseLeadingRun(w, a + (t + b));
    CollapseWordPrefix(a, t + b);
    CollapseLeadingRun(t, b);
    CollapseWord(b);
  }

  /** A word without inline space collapses to itself. */
  lemma CollapseWord(b: string)
    requires forall i :: 0 <= i < |b| ==> !IsInlineSpace(b[i])
    ensures CollapseInline(b) == b
  {
    CollapseWordPrefix(b, []);
    assert b + [] == b;
  }

  /** The example line with an indent and a tab: `"  another\tline"` normalises to `"another line"`. */
  lemma IndentedLineExample(line: string)
    requires line == "  another\tline"
    ensures NormalizeLine(line) == "another line"
  {
    IndentedWords("  ", "another", "\t", "line");
    IndentedLineParts();
  }

  lemma IndentedLineParts()
    ensures "  another\tline" == "  " + ("another" + ("\t" + "line"))
    ensures "another line" == "another" + (" " + "line")
  {
  }

  /**
    The text of the cleaner's newline test: inline runs collapse, every line is
    stripped and the blank line is dropped.
   */
  lemma NormalizeExample()
    ensures NormalizeWhitespace("a line\n  another\tline\n\nlast") == "a line\nanother line\nlast"
  {
    var l0, l1, l2, l3 := "a line", "  another\tline", "", "last";
    ExampleTexts();
    Join4(l0, l1, l2, l3, '\n');
    Join3("a line", "another line", "last", '\n');
    ExampleLinesPlain();
    NormalizeOfJoin([l0, l1, l2, l3]);
    Images4(l0, l1, l2, l3);
    CleanLineExample(l0);
    IndentedLineExample(l1);
    EmptyLineExample(l2);
    CleanLineExample(l3);
    ExampleNonBlank();
  }

  lemma ExampleTexts()
    ensures "a line\n  another\tline\n\nlast" == "a line" + "\n" + "  another\tline" + "\n" + "" + "\n" + "last"
    ensures "a line\nanother line\nlast" == "a line" + "\n" + "another line" + "\n" + "last"
  {
  }

  lemma Join4(a: string, b: string, c: string, d: string, sep: char)
    ensures Join([a, b, c, d], sep) == a + [sep] + b + [sep] + c + [sep] + d
  {
    assert [a, b, c, d][1..] == [b, c, d];
    Join3(b, c, d, sep);
    assert Join([a, b, c, d], sep) == a + [sep] + (b + [sep] + c + [sep] + d);
  }

  lemma Join3(a: string, b: string, c: string, sep: char)
    ensures Join([a, b, c], sep) == a + [sep] + b + [sep] + c
  {
    assert [a, b, c][1..] == [b, c];
    assert [b, c][1..] == [c];
    assert Join([b, c], sep) == b + [sep] + c;
    assert Join([a, b, c], sep) == a + [sep] + (b + [sep] + c);
  }

  lemma ExampleLinesPlain()
    ensures var lines := ["a line", "  another\tline", "", "last"];
      forall k :: 0 <= k < |lines| ==> '\n' !in lines[k] && '\r' !in lines[k]
  {
  }

  lemma Images4(a: string, b: string, c: string, d: string)
    ensures Images([a, b, c, d]) == [NormalizeLine(a), NormalizeLine(b), NormalizeLine(c), NormalizeLine(d)]
  {
  }

  lemma CleanLineExample(l: string)
    requires l == "a line" || l == "last"
    ensures NormalizeLine(l) == l
  {
    NormalizeLineOfClean(l);
  }

  lemma EmptyLineExample(l: string)
    requires l == ""
    ensures NormalizeLine(l) == ""
  {
  }

  lemma ExampleNonBlank()
    ensures NonBlank(["a line", "another line", "", "last"]) == ["a line", "another line", "last"]
  {
    var images := ["a line", "another line", "", "last"];
    NonBlankCons(images[0], images[1..]);
    NonBlankCons(images[1], images[2..]);
    NonBlankCons(images[2], images[3..]);
    NonBlankCons(images[3], []);
    assert images[3..] == [images[3]] + [];
  }

  /** The input `clean_body` normalises: a message's `.body`, else `str(source or "")`. */
  datatype Source = Message(body: string) | Text(text: string) | Nothing

  function RawBody(source: Source): string {
    match source
    case Message(body) => body
    case Text(t) => t
    case Nothing => []
  }

  /**
    `clean_body`: HTML removal (`markup`, the regex substitutions and
    `html.unescape` of `strip_html`) followed by whitespace normalisation of
    the chosen input. The result is already normalised.
   */
  function CleanBody(source: Source, markup: string -> string): (r: string)
    ensures r == [] || TextShape(r)
    ensures NormalizeWhitespace(r) == r
    ensures source.Message? ==> r == NormalizeWhitespace(markup(source.body))
    ensures source.Text? ==> r == NormalizeWhitespace(markup(source.text))
    ensures source.Nothing? ==> r == NormalizeWhitespace(markup([]))
  {
    var t := markup(RawBody(source));
    var r := NormalizeWhitespace(t);
    assert r == [] || TextShape(r) by {
      NormalizedTextShape(t);
    }
    assert NormalizeWhitespace(r) == r by {
      NormalizeIdempotent(t);
    }
    r
  }

  /**
    Plain text without markup, given as a message or as raw text, keeps its
    line breaks and loses its blank line and its indentation.
   */
  lemma CleanBodyExample(markup: string -> string)
    requires markup("a line\n  another\tline\n\nlast") == "a line\n  another\tline\n\nlast"
    ensures CleanBody(Text("a line\n  another\tline\n\nlast"), markup) == "a line\nanother line\nlast"
    ensures CleanBody(Message("a line\n  another\tline\n\nlast"), markup) == "a line\nanother line\nlast"
  {
    NormalizeExample();
  }
}
