/**
  The multi-block splitter (backend/app/services/splitter.py): a mail body
  that lists several jobs is cut at marker lines such as `【案件名】`, and
  each piece becomes one block with its line range.
 */
module Splitter {
  import opened Text

  /** A block of the body: its stripped text and its first and last line index. */
  datatype SplitBlock = SplitBlock(text: string, startLine: int, endLine: int)

  /** A character `[\s\W]` matches. */
  predicate Framing(cc: CharClasses, c: char) {
    IsSpace(c) || !cc.IsWord(c)
  }

  predicate AllFraming(cc: CharClasses, s: string) {
    forall k :: 0 <= k < |s| ==> Framing(cc, s[k])
  }

  /** The whole line is `[\s\W]*` + `keyword` + `[\s\W]*`. */
  predicate FramedKeyword(cc: CharClasses, line: string, keyword: string) {
    exists i :: 0 <= i <= |line| - |keyword| && OccursAt(line, keyword, i)
      && AllFraming(cc, line[..i]) && AllFraming(cc, line[i + |keyword|..])
  }

  /** The two marker patterns of the configuration: `案件名` or `案件` framed by spaces and symbols only. */
  predicate MarkerLine(cc: CharClasses, line: string) {
    FramedKeyword(cc, line, "案件名") || FramedKeyword(cc, line, "案件")
  }

  /** `_is_marker`: the first `skip` + 1 and the last `skip` lines never count. */
  predicate IsMarker(cc: CharClasses, skip: int, line: string, index: int, total: int) {
    !(index <= skip || index >= total - skip) && MarkerLine(cc, line)
  }

  /** Line `m` of the body is a marker. */
  predicate MarkerAt(cc: CharClasses, skip: int, lines: seq<string>, m: int) {
    0 <= m < |lines| && IsMarker(cc, skip, lines[m], m, |lines|)
  }

  predicate StrictlyIncreasing(s: seq<nat>) {
    forall a, b :: 0 <= a < b < |s| ==> s[a] < s[b]
  }

  /** The marker indices at or after `from`, in line order. */
  function MarkersFrom(cc: CharClasses, skip: int, lines: seq<string>, from: nat): (r: seq<nat>)
    ensures forall k :: 0 <= k < |r| ==> from <= r[k] < |lines|
    ensures StrictlyIncreasing(r)
    ensures forall m :: m in r <==> from <= m && MarkerAt(cc, skip, lines, m)
    decreases |lines| - from
  {
    if from >= |lines| then []
    else
      var rest := MarkersFrom(cc, skip, lines, from + 1);
      if MarkerAt(cc, skip, lines, from) then [from] + rest else rest
  }

  function Markers(cc: CharClasses, skip: int, lines: seq<string>): (r: seq<nat>)
    ensures forall k :: 0 <= k < |r| ==> r[k] < |lines|
    ensures StrictlyIncreasing(r)
    ensures forall m :: m in r <==> MarkerAt(cc, skip, lines, m)
  {
    MarkersFrom(cc, skip, lines, 0)
  }

  /** The stripped text of `lines[start..end]` joined with newlines. */
  function BlockText(lines: seq<string>, start: nat, end: nat): (r: string)
    requires start <= end <= |lines|
    ensures Stripped(r)
  {
    Strip(Join(lines[start..end], '\n'))
  }

  /** Where the block opened by the `j`-th marker ends (exclusive): the next marker, or the end of the body. */
  function BlockEnd(markers: seq<nat>, j: nat, total: nat): nat
    requires j < |markers|
  {
    if j + 1 < |markers| then markers[j + 1] else total
  }

  /** The markers are strictly increasing line indices below `total`. */
  predicate MarkersInRange(markers: seq<nat>, total: nat) {
    StrictlyIncreasing(markers) && forall k :: 0 <= k < |markers| ==> markers[k] < total
  }

  /** A body no longer than the skipped head has no marker at all. */
  lemma {:induction false} NoMarkersInHead(cc: CharClasses, skip: int, lines: seq<string>, from: nat)
    requires |lines| <= skip + 1
    ensures MarkersFrom(cc, skip, lines, from) == []
    decreases |lines| - from
  {
    if from < |lines| {
      NoMarkersInHead(cc, skip, lines, from + 1);
    }
  }

  /** The texts of the marker blocks, computed once: `texts[j]` belongs to the `j`-th marker. */
  function BlockTexts(lines: seq<string>, markers: seq<nat>): (r: seq<string>)
    requires MarkersInRange(markers, |lines|)
    ensures |r| == |markers|
    ensures forall j :: 0 <= j < |r| ==> r[j] == BlockText(lines, markers[j], BlockEnd(markers, j, |lines|))
  {
    seq(|markers|, j requires 0 <= j < |markers| => BlockText(lines, markers[j], BlockEnd(markers, j, |lines|)))
  }

  /** The block the `j`-th marker opens, before blank blocks are dropped. */
  function BlockAt(markers: seq<nat>, texts: seq<string>, total: nat, j: nat): SplitBlock
    requires j < |markers| == |texts|
  {
    SplitBlock(texts[j], markers[j], BlockEnd(markers, j, total) - 1)
  }

  /** The blocks opened by the markers from the `i`-th on; blocks with blank text are dropped. */
  function BlocksFrom(markers: seq<nat>, texts: seq<string>, total: nat, i: nat): (r: seq<SplitBlock>)
    requires |markers| == |texts| && i <= |markers|
    ensures |r| <= |markers| - i
    ensures forall k :: 0 <= k < |r| ==> r[k].text != []
    decreases |markers| - i
  {
    if i == |markers| then []
    else
      var b := BlockAt(markers, texts, total, i);
      var rest := BlocksFrom(markers, texts, total, i + 1);
      if b.text != [] then [b] + rest else rest
  }

  /** Every block is the block of one of the markers, unchanged. */
  lemma {:induction false} BlockOrigin(markers: seq<nat>, texts: seq<string>, total: nat, i: nat, k: nat)
    returns (j: nat)
    requires |markers| == |texts| && i <= |markers|
    requires k < |BlocksFrom(markers, texts, total, i)|
    ensures i <= j < |markers| && BlocksFrom(markers, texts, total, i)[k] == BlockAt(markers, texts, total, j)
    decreases |markers| - i
  {
    var b := BlockAt(markers, texts, total, i);
    if b.text != [] && k == 0 {
      j := i;
    } else if b.text != [] {
      j := BlockOrigin(markers, texts, total, i + 1, k - 1);
    } else {
      j := BlockOrigin(markers, texts, total, i + 1, k);
    }
  }

  /** Blocks lie inside the body, after the `i`-th marker, and in line order without overlap. */
  lemma {:induction false} BlocksOrdered(markers: seq<nat>, texts: seq<string>, total: nat, i: nat)
      returns (r: seq<SplitBlock>)
    requires MarkersInRange(markers, total) && |markers| == |texts|
    requires i < |markers|
    ensures r == BlocksFrom(markers, texts, total, i)
    ensures forall k :: 0 <= k < |r| ==> markers[i] <= r[k].startLine <= r[k].endLine < total
    ensures forall a, b :: 0 <= a < b < |r| ==> r[a].endLine < r[b].startLine
    decreases |markers| - i
  {
    r := BlocksFrom(markers, texts, total, i);
    forall k | 0 <= k < |r| ensures markers[i] <= r[k].startLine <= r[k].endLine < total {
      var j := BlockOrigin(markers, texts, total, i, k);
    }
    if i + 1 < |markers| {
      var rest := BlocksOrdered(markers, texts, total, i + 1);
      if texts[i] == [] {
        assert r == rest;
      } else {
        assert r == [BlockAt(markers, texts, total, i)] + rest;
        forall a, b | 0 <= a < b < |r| ensures r[a].endLine < r[b].startLine {
          if a == 0 {
            assert r[0].endLine == markers[i + 1] - 1;
            assert r[b] == rest[b - 1];
            assert markers[i + 1] <= rest[b - 1].startLine;
          } else {
            assert r[a] == rest[a - 1] && r[b] == rest[b - 1];
          }
        }
      }
    }
  }

  /** Every marker opens a block unless its text is blank. */
  lemma {:induction false} MarkerOpensBlock(markers: seq<nat>, texts: seq<string>, total: nat, i: nat, j: nat)
    returns (k: nat)
    requires |markers| == |texts| && i <= j < |markers|
    requires texts[j] != []
    ensures k < |BlocksFrom(markers, texts, total, i)|
    ensures BlocksFrom(markers, texts, total, i)[k] == BlockAt(markers, texts, total, j)
    decreases j - i
  {
    var r := BlocksFrom(markers, texts, total, i);
    if i == j {
      k := 0;
    } else {
      var k' := MarkerOpensBlock(markers, texts, total, i + 1, j);
      k := if texts[i] != [] then k' + 1 else k';
    }
  }

  /** `Splitter.split`. */
  function Split(cc: CharClasses, skip: int, body: string): (r: seq<SplitBlock>)
    ensures forall k :: 0 <= k < |r| ==> r[k].text != []
  {
    var lines := SplitLines(body);
    var markers := Markers(cc, skip, lines);
    if markers == [] then WholeBody(Strip(body), |lines|) else MarkerSplit(lines, markers)
  }

  /** The markerless case: the stripped body is one block over all `lineCount` lines, unless it is blank. */
  function WholeBody(cleaned: string, lineCount: nat): (r: seq<SplitBlock>)
    ensures forall k :: 0 <= k < |r| ==> r[k].text != []
  {
    if cleaned != [] then [SplitBlock(cleaned, 0, lineCount - 1)] else []
  }

  /** The marker case: one block per marker whose lines are not blank. */
  function MarkerSplit(lines: seq<string>, markers: seq<nat>): (r: seq<SplitBlock>)
    requires MarkersInRange(markers, |lines|)
    ensures forall k :: 0 <= k < |r| ==> r[k].text != []
  {
    BlocksFrom(markers, BlockTexts(lines, markers), |lines|, 0)
  }

  /** Without a marker line the whole stripped body is the only block, unless it is blank. */
  lemma NoMarkerWholeBody(cc: CharClasses, skip: int, body: string)
    requires Markers(cc, skip, SplitLines(body)) == []
    ensures Strip(body) != [] ==> Split(cc, skip, body) == [SplitBlock(Strip(body), 0, |SplitLines(body)| - 1)]
    ensures Strip(body) == [] ==> Split(cc, skip, body) == []
  {
    SplitWithoutMarkers(cc, skip, body);
  }

  /** Without a marker, `split` is the markerless case. */
  lemma SplitWithoutMarkers(cc: CharClasses, skip: int, body: string)
    requires Markers(cc, skip, SplitLines(body)) == []
    ensures Split(cc, skip, body) == WholeBody(Strip(body), |SplitLines(body)|)
  {
  }

  /**
    With marker lines, every block starts at a marker, runs up to the line
    before the next marker (or to the last line), holds the stripped text of
    exactly those lines, and the blocks follow each other without overlap;
    the lines before the first marker belong to no block.
   */
  lemma BlocksFromMarkers(cc: CharClasses, skip: int, body: string)
    requires Markers(cc, skip, SplitLines(body)) != []
    ensures var lines, markers, r := SplitLines(body), Markers(cc, skip, SplitLines(body)), Split(cc, skip, body);
      forall k :: 0 <= k < |r| ==> r[k].startLine in markers && markers[0] <= r[k].startLine && OwnLines(lines, r[k])
    ensures var r := Split(cc, skip, body);
      forall a, b :: 0 <= a < b < |r| ==> r[a].endLine < r[b].startLine
    ensures var lines, markers, r := SplitLines(body), Markers(cc, skip, SplitLines(body)), Split(cc, skip, body);
      forall k :: 0 <= k < |r| ==>
        exists j :: 0 <= j < |markers| && r[k].startLine == markers[j] && r[k].endLine == BlockEnd(markers, j, |lines|) - 1
  {
    var lines := SplitLines(body);
    var markers := Markers(cc, skip, lines);
    SplitWithMarkers(cc, skip, body);
    MarkerBlocks(lines, markers);
  }

  /** With a marker, `split` is the list of marker blocks. */
  lemma SplitWithMarkers(cc: CharClasses, skip: int, body: string)
    requires Markers(cc, skip, SplitLines(body)) != []
    ensures var lines := SplitLines(body); var markers := Markers(cc, skip, lines);
      Split(cc, skip, body) == BlocksFrom(markers, BlockTexts(lines, markers), |lines|, 0)
  {
  }

  /** A block lies inside the body and holds the stripped text of exactly its own lines. */
  predicate OwnLines(lines: seq<string>, b: SplitBlock) {
    0 <= b.startLine <= b.endLine < |lines| && b.text == BlockText(lines, b.startLine, b.endLine + 1)
  }

  /** The marker blocks of a list of lines, each with its own lines, in order. */
  lemma MarkerBlocks(lines: seq<string>, markers: seq<nat>)
    requires MarkersInRange(markers, |lines|) && markers != []
    ensures var r := BlocksFrom(markers, BlockTexts(lines, markers), |lines|, 0);
      forall k :: 0 <= k < |r| ==> r[k].startLine in markers && markers[0] <= r[k].startLine && OwnLines(lines, r[k])
    ensures var r := BlocksFrom(markers, BlockTexts(lines, markers), |lines|, 0);
      forall a, b :: 0 <= a < b < |r| ==> r[a].endLine < r[b].startLine
    ensures var r := BlocksFrom(markers, BlockTexts(lines, markers), |lines|, 0);
      forall k :: 0 <= k < |r| ==>
        exists j :: 0 <= j < |markers| && r[k].startLine == markers[j] && r[k].endLine == BlockEnd(markers, j, |lines|) - 1
  {
    var texts := BlockTexts(lines, markers);
    var r := BlocksOrdered(markers, texts, |lines|, 0);
    forall k | 0 <= k < |r|
      ensures r[k].startLine in markers && markers[0] <= r[k].startLine && OwnLines(lines, r[k])
      ensures exists j :: 0 <= j < |markers| && r[k].startLine == markers[j] && r[k].endLine == BlockEnd(markers, j, |lines|) - 1
    {
      var j := BlockOrigin(markers, texts, |lines|, 0, k);
      BlockHasOwnText(lines, markers, j);
    }
  }

  /** The block of the `j`-th marker holds the stripped text of its own lines. */
  lemma BlockHasOwnText(lines: seq<string>, markers: seq<nat>, j: nat)
    requires MarkersInRange(markers, |lines|) && j < |markers|
    ensures BlockAt(markers, BlockTexts(lines, markers), |lines|, j).startLine == markers[j]
    ensures OwnLines(lines, BlockAt(markers, BlockTexts(lines, markers), |lines|, j))
  {
    var texts := BlockTexts(lines, markers);
    var b := BlockAt(markers, texts, |lines|, j);
    var end := BlockEnd(markers, j, |lines|);
    assert markers[j] < end <= |lines|;
    assert b.startLine == markers[j] && b.endLine + 1 == end;
    assert b.text == BlockText(lines, markers[j], end);
  }

  /** Conversely, every marker whose lines are not blank opens a block. */
  lemma MarkerHasBlock(cc: CharClasses, skip: int, body: string, j: nat) returns (k: nat)
    requires var markers := Markers(cc, skip, SplitLines(body));
      j < |markers| && BlockText(SplitLines(body), markers[j], BlockEnd(markers, j, |SplitLines(body)|)) != []
    ensures k < |Split(cc, skip, body)| && Split(cc, skip, body)[k].startLine == Markers(cc, skip, SplitLines(body))[j]
  {
    var lines := SplitLines(body);
    var markers := Markers(cc, skip, lines);
    var texts := BlockTexts(lines, markers);
    assert texts[j] != [];
    assert Split(cc, skip, body) == BlocksFrom(markers, texts, |lines|, 0);
    k := MarkerOpensBlock(markers, texts, |lines|, 0, j);
  }

  /** A line of only symbols around `案件名` is a marker. */
  lemma BracketedTitleIsMarker(cc: CharClasses)
    requires !cc.IsWord('【') && !cc.IsWord('】')
    ensures MarkerLine(cc, "【案件名】")
  {
    var line := "【案件名】";
    assert OccursAt(line, "案件名", 1);
    assert AllFraming(cc, line[..1]) by { assert line[..1] == "【"; }
    assert AllFraming(cc, line[4..]) by { assert line[4..] == "】"; }
  }

  /** Running text that mentions `案件` is not a marker, because word characters surround it. */
  lemma SentenceIsNotMarker(cc: CharClasses)
    requires cc.isAlnum('こ') && cc.isAlnum('の') && cc.isAlnum('に')
    ensures !MarkerLine(cc, "この案件については")
  {
    var line := "この案件については";
    forall keyword | keyword == "案件名" || keyword == "案件"
      ensures !FramedKeyword(cc, line, keyword)
    {
      forall i | 0 <= i <= |line| - |keyword|
        ensures !(OccursAt(line, keyword, i) && AllFraming(cc, line[..i]))
      {
        if i == 0 {
          assert line[i..i + |keyword|][0] == 'こ';
        } else {
          assert line[..i][0] == 'こ';
        }
      }
    }
  }
}
