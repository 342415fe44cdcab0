/**
  The block classifier (backend/app/services/classifier.py).

  Every class of the configuration has a list of patterns. The patterns are
  escaped before they are compiled, so a pattern matches a line exactly when
  it occurs in the line literally; they are tried line by line, never across
  a line boundary. With `dedupe` a class is listed at most once per block;
  without it, once per line that matches it. Reading the configuration file
  is not modelled: the classes arrive as a value.
 */
module Classifier {
  import opened Text
  import opened Counters
  import opened Stats

  /** The `classes` object of the configuration: class name and patterns, in file order. */
  type Classes = seq<(string, seq<string>)>

  datatype Classifier = Classifier(classes: Classes, dedupe: bool)

  /** The class names, in configuration order. */
  function Names(classes: Classes): (r: seq<string>)
    ensures |r| == |classes|
    ensures forall k :: 0 <= k < |classes| ==> r[k] == classes[k].0
  {
    seq(|classes|, k requires 0 <= k < |classes| => classes[k].0)
  }

  /** A dictionary has no repeated keys. */
  predicate DistinctNames(classes: Classes) {
    Distinct(Names(classes))
  }

  /** `re.compile(re.escape(p)).search(line)` succeeds for some pattern `p`. */
  predicate LineMatches(line: string, patterns: seq<string>) {
    exists q :: 0 <= q < |patterns| && Contains(line, patterns[q])
  }

  /** Some line of the block matches some pattern of the class. */
  predicate AnyLineMatches(lines: seq<string>, patterns: seq<string>) {
    exists l :: 0 <= l < |lines| && LineMatches(lines[l], patterns)
  }

  /** Number of lines that some pattern of the class matches. */
  function MatchingLines(lines: seq<string>, patterns: seq<string>): (n: nat)
    ensures n <= |lines|
  {
    if lines == [] then 0
    else MatchingLines(lines[..|lines| - 1], patterns) + (if LineMatches(lines[|lines| - 1], patterns) then 1 else 0)
  }

  /** `n` copies of `x`. */
  function Repeat(x: string, n: nat): (r: seq<string>)
    ensures |r| == n
    ensures forall i :: 0 <= i < n ==> r[i] == x
  {
    if n == 0 then [] else Repeat(x, n - 1) + [x]
  }

  /** The entries one class adds to a block's hits. */
  function ClassHits(name: string, patterns: seq<string>, lines: seq<string>, dedupe: bool): seq<string> {
    if dedupe then (if AnyLineMatches(lines, patterns) then [name] else [])
    else Repeat(name, MatchingLines(lines, patterns))
  }

  /** The hits of a block with lines `lines`: each class's entries, classes in configuration order. */
  function BlockClasses(classes: Classes, lines: seq<string>, dedupe: bool): seq<string> {
    if classes == [] then []
    else
      var n := |classes| - 1;
      BlockClasses(classes[..n], lines, dedupe) + ClassHits(classes[n].0, classes[n].1, lines, dedupe)
  }

  /** The inner loop: does some pattern occur in the line. */
  method MatchLine(line: string, patterns: seq<string>) returns (found: bool)
    ensures found <==> LineMatches(line, patterns)
  {
    found := false;
    var p := 0;
    while p < |patterns|
      invariant 0 <= p <= |patterns|
      invariant !exists q :: 0 <= q < p && Contains(line, patterns[q])
    {
      if Contains(line, patterns[p]) {
        found := true;
        return;
      }
      p := p + 1;
    }
  }

  /**
    The line loop for one class: appends the class once per matching line,
    and with `dedupe` stops at the first one.
   */
  method MatchClass(name: string, patterns: seq<string>, lines: seq<string>, dedupe: bool) returns (hits: seq<string>)
    ensures hits == ClassHits(name, patterns, lines, dedupe)
  {
    hits := [];
    var matched := false;
    var l := 0;
    while l < |lines|
      invariant 0 <= l <= |lines|
      invariant matched <==> AnyLineMatches(lines[..l], patterns)
      invariant dedupe ==> !matched && hits == []
      invariant !dedupe ==> hits == Repeat(name, MatchingLines(lines[..l], patterns))
    {
      assert lines[..l + 1][..l] == lines[..l];
      assert forall i :: 0 <= i < l ==> lines[..l + 1][i] == lines[..l][i];
      var found := MatchLine(lines[l], patterns);
      if found {
        hits := hits + [name];
        matched := true;
      }
      if matched && dedupe {
        assert LineMatches(lines[l], patterns);
        return;
      }
      l := l + 1;
    }
    assert lines[..l] == lines;
  }

  /** `classify_block`: the classes of one block of text. */
  method ClassifyBlock(c: Classifier, text: string) returns (hits: seq<string>)
    ensures hits == BlockClasses(c.classes, SplitLines(text), c.dedupe)
  {
    var lines := SplitLines(text);
    hits := [];
    var k := 0;
    while k < |c.classes|
      invariant 0 <= k <= |c.classes|
      invariant hits == BlockClasses(c.classes[..k], lines, c.dedupe)
    {
      assert c.classes[..k + 1][..k] == c.classes[..k];
      var classHits := MatchClass(c.classes[k].0, c.classes[k].1, lines, c.dedupe);
      hits := hits + classHits;
      k := k + 1;
    }
    assert c.classes[..k] == c.classes;
  }

  /** A class has entries exactly when one of its lines matches, in both modes. */
  lemma {:induction false} MatchingLinesPositive(lines: seq<string>, patterns: seq<string>)
    ensures MatchingLines(lines, patterns) > 0 <==> AnyLineMatches(lines, patterns)
    decreases |lines|
  {
    if lines != [] {
      var init := lines[..|lines| - 1];
      MatchingLinesPositive(init, patterns);
      if AnyLineMatches(init, patterns) {
        var i :| 0 <= i < |init| && LineMatches(init[i], patterns);
        assert lines[i] == init[i];
      }
      if AnyLineMatches(lines, patterns) && !LineMatches(lines[|lines| - 1], patterns) {
        var i :| 0 <= i < |lines| && LineMatches(lines[i], patterns);
        assert init[i] == lines[i];
      }
    }
  }

  /**
    A block lists a class exactly when some single line contains one of
    the class's patterns literally, with or without `dedupe`.
   */
  lemma {:induction false} ClassifiedIff(classes: Classes, lines: seq<string>, dedupe: bool, name: string)
    ensures name in BlockClasses(classes, lines, dedupe)
        <==> exists k :: 0 <= k < |classes| && classes[k].0 == name && AnyLineMatches(lines, classes[k].1)
    decreases |classes|
  {
    if classes != [] {
      var n := |classes| - 1;
      ClassifiedIff(classes[..n], lines, dedupe, name);
      ClassHitsIff(classes[n].0, classes[n].1, lines, dedupe, name);
      MatchedClassSnoc(classes, lines, name);
    }
  }

  /** The entries of one class name it exactly when one of its lines matches. */
  lemma ClassHitsIff(cname: string, patterns: seq<string>, lines: seq<string>, dedupe: bool, name: string)
    ensures name in ClassHits(cname, patterns, lines, dedupe) <==> cname == name && AnyLineMatches(lines, patterns)
  {
    MatchingLinesPositive(lines, patterns);
    var hits := ClassHits(cname, patterns, lines, dedupe);
    if !dedupe && name in hits {
      assert hits[0] == cname;
    }
  }

  /** A class `name` one of whose lines matches exists among the classes. */
  predicate MatchedClass(classes: Classes, lines: seq<string>, name: string) {
    exists k :: 0 <= k < |classes| && classes[k].0 == name && AnyLineMatches(lines, classes[k].1)
  }

  lemma MatchedClassSnoc(classes: Classes, lines: seq<string>, name: string)
    requires classes != []
    ensures var n := |classes| - 1;
      MatchedClass(classes, lines, name) <==>
        MatchedClass(classes[..n], lines, name) || (classes[n].0 == name && AnyLineMatches(lines, classes[n].1))
  {
    var n := |classes| - 1;
    var init := classes[..n];
    if MatchedClass(init, lines, name) {
      var k :| 0 <= k < |init| && init[k].0 == name && AnyLineMatches(lines, init[k].1);
      assert classes[k] == init[k];
    }
    if MatchedClass(classes, lines, name) {
      var k :| 0 <= k < |classes| && classes[k].0 == name && AnyLineMatches(lines, classes[k].1);
      if k < n {
        assert init[k] == classes[k];
      }
    }
  }

  /**
    With `dedupe` and distinct class names, a block lists each class at
    most once, in configuration order.
   */
  lemma {:induction false} DedupeListsOnceInOrder(classes: Classes, lines: seq<string>)
    requires DistinctNames(classes)
    ensures Distinct(BlockClasses(classes, lines, true))
    ensures Subsequence(BlockClasses(classes, lines, true), Names(classes))
    decreases |classes|
  {
    if classes != [] {
      var n := |classes| - 1;
      var init := classes[..n];
      assert Names(init) == Names(classes)[..n];
      InitDistinct(classes);
      DedupeListsOnceInOrder(init, lines);
      var prefix := BlockClasses(init, lines, true);
      var last := ClassHits(classes[n].0, classes[n].1, lines, true);
      assert BlockClasses(classes, lines, true) == prefix + last;
      assert Names(classes) == Names(init) + [classes[n].0];
      if last != [] {
        NameOnlyLast(classes);
        ClassifiedIff(init, lines, true, classes[n].0);
        SubsequenceAppend(prefix, Names(init), [classes[n].0]);
      } else {
        assert prefix + last == prefix;
        SubsequenceExtend(prefix, Names(init), classes[n].0);
      }
    }
  }

  /** With distinct names, no earlier class carries the last class's name. */
  lemma NameOnlyLast(classes: Classes)
    requires DistinctNames(classes) && |classes| > 0
    ensures forall k :: 0 <= k < |classes| - 1 ==> classes[k].0 != classes[|classes| - 1].0
  {
    forall k | 0 <= k < |classes| - 1 ensures classes[k].0 != classes[|classes| - 1].0 {
      assert Names(classes)[k] == classes[k].0;
    }
  }

  lemma {:induction false} SubsequenceAppend(a: seq<string>, b: seq<string>, c: seq<string>)
    requires Subsequence(a, b)
    ensures Subsequence(a + c, b + c)
    decreases |b|
  {
    if b == [] {
      assert a == [];
      SubsequenceRefl(c);
      assert a + c == c && b + c == c;
    } else {
      assert (b + c)[0] == b[0] && (b + c)[1..] == b[1..] + c;
      if a != [] && a[0] == b[0] && Subsequence(a[1..], b[1..]) {
        SubsequenceAppend(a[1..], b[1..], c);
        assert (a + c)[0] == a[0] && (a + c)[1..] == a[1..] + c;
      } else {
        SubsequenceAppend(a, b[1..], c);
      }
    }
  }

  lemma {:induction false} SubsequenceRefl(c: seq<string>)
    ensures Subsequence(c, c)
    decreases |c|
  {
    if c != [] {
      SubsequenceRefl(c[1..]);
    }
  }

  lemma {:induction false} SubsequenceExtend(a: seq<string>, b: seq<string>, x: string)
    requires Subsequence(a, b)
    ensures Subsequence(a, b + [x])
    decreases |b|
  {
    if b == [] {
      assert a == [];
      assert (b + [x])[1..] == [];
    } else {
      assert (b + [x])[0] == b[0] && (b + [x])[1..] == b[1..] + [x];
      if a != [] && a[0] == b[0] && Subsequence(a[1..], b[1..]) {
        SubsequenceExtend(a[1..], b[1..], x);
      } else {
        SubsequenceExtend(a, b[1..], x);
      }
    }
  }

  /** Without `dedupe`, a class is listed once for every line that matches it. */
  lemma {:induction false} NoDedupeOncePerLine(classes: Classes, lines: seq<string>, k: nat)
    requires DistinctNames(classes) && k < |classes|
    ensures multiset(BlockClasses(classes, lines, false))[classes[k].0] == MatchingLines(lines, classes[k].1)
    decreases |classes|
  {
    var n := |classes| - 1;
    var init := classes[..n];
    var name := classes[k].0;
    var prefix := BlockClasses(init, lines, false);
    var last := Repeat(classes[n].0, MatchingLines(lines, classes[n].1));
    assert BlockClasses(classes, lines, false) == prefix + last;
    assert multiset(prefix + last)[name] == multiset(prefix)[name] + multiset(last)[name];
    if k == n {
      assert multiset(prefix)[name] == 0 by {
        NameOnlyLast(classes);
        ClassifiedIff(init, lines, false, name);
      }
      RepeatCount(name, MatchingLines(lines, classes[n].1));
    } else {
      InitDistinct(classes);
      assert init[k] == classes[k];
      NoDedupeOncePerLine(init, lines, k);
      assert multiset(last)[name] == 0 by {
        assert Names(classes)[k] != Names(classes)[n];
      }
    }
  }

  /** Dropping the last class keeps the names distinct. */
  lemma InitDistinct(classes: Classes)
    requires DistinctNames(classes) && |classes| > 0
    ensures DistinctNames(classes[..|classes| - 1])
  {
    var n := |classes| - 1;
    var init := classes[..n];
    forall i, j | 0 <= i < j < n ensures Names(init)[i] != Names(init)[j] {
      assert Names(classes)[i] == Names(init)[i] && Names(classes)[j] == Names(init)[j];
    }
  }

  lemma {:induction false} RepeatCount(x: string, n: nat)
    ensures multiset(Repeat(x, n))[x] == n
    decreases n
  {
    if n > 0 {
      RepeatCount(x, n - 1);
    }
  }

  /** What one block adds to a class's count: 1 if listed (`set(classes)`), else the number of entries. */
  function BlockWeight(c: Classifier, block: string, name: string): nat {
    var hits := BlockClasses(c.classes, SplitLines(block), c.dedupe);
    if c.dedupe then (if name in hits then 1 else 0) else multiset(hits)[name]
  }

  /** A class's count over a list of blocks: the sum of the blocks' weights. */
  function ClassCount(c: Classifier, blocks: seq<string>, name: string): nat {
    if blocks == [] then 0
    else ClassCount(c, blocks[..|blocks| - 1], name) + BlockWeight(c, blocks[|blocks| - 1], name)
  }

  /** `classify_blocks`: a counter updated once per block. */
  function ClassifyBlocks(c: Classifier, blocks: seq<string>): (r: map<string, nat>)
    ensures forall name :: Get(r, name) == ClassCount(c, blocks, name)
    ensures Positive(r)
  {
    if blocks == [] then map[]
    else
      var prev := ClassifyBlocks(c, blocks[..|blocks| - 1]);
      var hits := BlockClasses(c.classes, SplitLines(blocks[|blocks| - 1]), c.dedupe);
      if c.dedupe then IncAll(prev, Dedup(hits)) else Update(prev, hits)
  }

  /** With `dedupe` a block adds at most one to a class, so no count exceeds the number of blocks. */
  lemma {:induction false} DedupeCountBounded(c: Classifier, blocks: seq<string>, name: string)
    requires c.dedupe
    ensures ClassCount(c, blocks, name) <= |blocks|
    decreases |blocks|
  {
    if blocks != [] {
      DedupeCountBounded(c, blocks[..|blocks| - 1], name);
    }
  }

  /** Counts are additive over concatenated block lists. */
  lemma {:induction false} ClassCountAppend(c: Classifier, a: seq<string>, b: seq<string>, name: string)
    ensures ClassCount(c, a + b, name) == ClassCount(c, a, name) + ClassCount(c, b, name)
    decreases |b|
  {
    if b == [] {
      assert a + b == a;
    } else {
      var n := |b| - 1;
      var x := b[n];
      assert b == b[..n] + [x];
      assert a + b == (a + b[..n]) + [x];
      ClassCountAppend(c, a, b[..n], name);
      ClassCountSnoc(c, a + b[..n], x, name);
      ClassCountSnoc(c, b[..n], x, name);
    }
  }

  lemma ClassCountSnoc(c: Classifier, blocks: seq<string>, x: string, name: string)
    ensures ClassCount(c, blocks + [x], name) == ClassCount(c, blocks, name) + BlockWeight(c, x, name)
  {
    assert (blocks + [x])[..|blocks|] == blocks;
  }

  /** `summarize`: count and share of ALL blocks for every class hit at least once. */
  function Summarize(c: Classifier, blocks: seq<string>): (r: map<string, ClassStat>)
    ensures |blocks| == 0 ==> r == map[]
    ensures |blocks| > 0 ==> r.Keys == ClassifyBlocks(c, blocks).Keys
  {
    if |blocks| == 0 then map[]
    else
      var counts := ClassifyBlocks(c, blocks);
      map name | name in counts :: ClassStat(counts[name], Ratio(counts[name], |blocks|))
  }

  /**
    A class is summarized exactly when some block lists it; its count is
    its number of listings and its ratio is that count over ALL blocks.
   */
  lemma SummarizeStat(c: Classifier, blocks: seq<string>, name: string)
    ensures name in Summarize(c, blocks) <==> |blocks| > 0 && ClassCount(c, blocks, name) > 0
    ensures name in Summarize(c, blocks) ==>
      && Summarize(c, blocks)[name].count == ClassCount(c, blocks, name)
      && Summarize(c, blocks)[name].ratio == ClassCount(c, blocks, name) as real / |blocks| as real
  {
    if |blocks| > 0 {
      var counts := ClassifyBlocks(c, blocks);
      var n := ClassCount(c, blocks, name);
      assert Get(counts, name) == n;
      if name in counts {
        var stat := Summarize(c, blocks)[name];
        assert stat == ClassStat(n, Ratio(n, |blocks|));
        assert stat.ratio == n as real / |blocks| as real;
      }
    }
  }

  /** With `dedupe` every ratio lies in (0, 1]. */
  lemma SummarizeRatioBounded(c: Classifier, blocks: seq<string>, name: string)
    requires c.dedupe && name in Summarize(c, blocks)
    ensures 0.0 < Summarize(c, blocks)[name].ratio <= 1.0
  {
    var counts := ClassifyBlocks(c, blocks);
    DedupeCountBounded(c, blocks, name);
    SummarizeStat(c, blocks, name);
    assert Summarize(c, blocks)[name].ratio == Ratio(counts[name], |blocks|);
  }

  /** The three blocks of the test suite. */
  const ExampleBlocks: seq<string> := ["外国籍可（N1以上）", "日本人のみ対象 外国籍不可です", "記載なし"]

  /**
    An assumed foreigner-eligibility configuration: class `ok` for `外国籍可`,
    class `ng` for `外国籍不可`. The repository's classifier configuration
    file is not part of this model.
   */
  const ExampleClassifier := Classifier([("ok", ["外国籍可"]), ("ng", ["外国籍不可"])], true)

  /** Reading a two-class configuration: `ok`'s entries, then `ng`'s. */
  lemma ExampleHits(lines: seq<string>)
    ensures BlockClasses(ExampleClassifier.classes, lines, true)
         == (if AnyLineMatches(lines, ["外国籍可"]) then ["ok"] else [])
          + (if AnyLineMatches(lines, ["外国籍不可"]) then ["ng"] else [])
  {
    var classes := ExampleClassifier.classes;
    assert classes[..1][..0] == [];
    assert BlockClasses(classes[..1], lines, true) == [] + ClassHits("ok", ["外国籍可"], lines, true);
  }

  /** `外国籍不可` does not occur in `外国籍可（N1以上）`. */
  lemma FirstBlockNotNg()
    ensures !Contains(ExampleBlocks[0], "外国籍不可")
  {
    var b, p := ExampleBlocks[0], "外国籍不可";
    forall i | 0 <= i <= |b| - |p| ensures !OccursAt(b, p, i) {
      if i == 0 { Mismatch(b, p, 0, 3); }
      else if i == 1 { Mismatch(b, p, 1, 0); }
      else if i == 2 { Mismatch(b, p, 2, 0); }
      else if i == 3 { Mismatch(b, p, 3, 0); }
      else if i == 4 { Mismatch(b, p, 4, 0); }
      else { Mismatch(b, p, 5, 0); }
    }
  }

  /** `外国籍可` does not occur in `日本人のみ対象 外国籍不可です`: `不` sits between `籍` and `可`. */
  lemma SecondBlockNotOk()
    ensures !Contains(ExampleBlocks[1], "外国籍可")
  {
    var b, p := ExampleBlocks[1], "外国籍可";
    forall i | 0 <= i <= |b| - |p| ensures !OccursAt(b, p, i) {
      if i == 0 { Mismatch(b, p, 0, 0); }
      else if i == 1 { Mismatch(b, p, 1, 0); }
      else if i == 2 { Mismatch(b, p, 2, 0); }
      else if i == 3 { Mismatch(b, p, 3, 0); }
      else if i == 4 { Mismatch(b, p, 4, 0); }
      else if i == 5 { Mismatch(b, p, 5, 0); }
      else if i == 6 { Mismatch(b, p, 6, 0); }
      else if i == 7 { Mismatch(b, p, 7, 0); }
      else if i == 8 { Mismatch(b, p, 8, 3); }
      else if i == 9 { Mismatch(b, p, 9, 0); }
      else if i == 10 { Mismatch(b, p, 10, 0); }
      else { Mismatch(b, p, 11, 0); }
    }
  }

  /** A one-line block matches exactly when its line does. */
  lemma OneLineMatches(b: string, patterns: seq<string>)
    ensures AnyLineMatches([b], patterns) <==> LineMatches(b, patterns)
  {
    assert [b][0] == b;
  }

  /** What the example configuration lists for a block of one line. */
  lemma ExampleLineHits(b: string)
    requires b != [] && NoLineBreak(b)
    ensures BlockClasses(ExampleClassifier.classes, SplitLines(b), true)
         == (if LineMatches(b, ["外国籍可"]) then ["ok"] else [])
          + (if LineMatches(b, ["外国籍不可"]) then ["ng"] else [])
  {
    SingleLine(b);
    ExampleHits([b]);
    OneLineMatches(b, ["外国籍可"]);
    OneLineMatches(b, ["外国籍不可"]);
  }

  /** No block of the test suite contains a line boundary. */
  lemma ExampleBlocksAreLines()
    ensures forall k :: 0 <= k < |ExampleBlocks| ==> ExampleBlocks[k] != [] && NoLineBreak(ExampleBlocks[k])
  {
  }

  /** The first block is `ok` only, the second `ng` only, the third neither. */
  lemma ExampleLineMatches()
    ensures LineMatches(ExampleBlocks[0], ["外国籍可"]) && !LineMatches(ExampleBlocks[0], ["外国籍不可"])
    ensures !LineMatches(ExampleBlocks[1], ["外国籍可"]) && LineMatches(ExampleBlocks[1], ["外国籍不可"])
    ensures !LineMatches(ExampleBlocks[2], ["外国籍可"]) && !LineMatches(ExampleBlocks[2], ["外国籍不可"])
  {
    var b0, b1, b2 := ExampleBlocks[0], ExampleBlocks[1], ExampleBlocks[2];
    var ok, ng := ["外国籍可"], ["外国籍不可"];
    assert OccursAt(b0, ok[0], 0);
    assert OccursAt(b1, ng[0], 8);
    FirstBlockNotNg();
    SecondBlockNotOk();
    forall i | 0 <= i <= |b2| - |ok[0]| ensures !OccursAt(b2, ok[0], i) {
      Mismatch(b2, ok[0], i, 0);
    }
  }

  /** Under the assumed `ExampleClassifier` configuration, the test's first block lists `ok`, the second `ng` and the third nothing. */
  lemma ExampleBlockHits()
    ensures BlockClasses(ExampleClassifier.classes, SplitLines(ExampleBlocks[0]), true) == ["ok"]
    ensures BlockClasses(ExampleClassifier.classes, SplitLines(ExampleBlocks[1]), true) == ["ng"]
    ensures BlockClasses(ExampleClassifier.classes, SplitLines(ExampleBlocks[2]), true) == []
  {
    ExampleBlocksAreLines();
    ExampleLineMatches();
    ExampleLineHits(ExampleBlocks[0]);
    ExampleLineHits(ExampleBlocks[1]);
    ExampleLineHits(ExampleBlocks[2]);
  }

  lemma ClassCountOfThree(c: Classifier, blocks: seq<string>, name: string)
    requires |blocks| == 3
    ensures ClassCount(c, blocks, name)
         == BlockWeight(c, blocks[0], name) + BlockWeight(c, blocks[1], name) + BlockWeight(c, blocks[2], name)
  {
    var w0, w1 := BlockWeight(c, blocks[0], name), BlockWeight(c, blocks[1], name);
    assert ClassCount(c, blocks[..1], name) == w0 by {
      assert blocks[..1][..0] == [] && blocks[..1][0] == blocks[0];
    }
    assert ClassCount(c, blocks[..2], name) == w0 + w1 by {
      assert blocks[..2][..1] == blocks[..1] && blocks[..2][1] == blocks[1];
    }
  }

  /** Under the assumed configuration, each of `ok` and `ng` is listed by exactly one test block; no other class by any. */
  lemma ExampleCounts(name: string)
    ensures ClassCount(ExampleClassifier, ExampleBlocks, name) == if name == "ok" || name == "ng" then 1 else 0
  {
    var c := ExampleClassifier;
    ExampleBlockHits();
    ClassCountOfThree(c, ExampleBlocks, name);
  }

  /** A class listed by exactly one of three blocks has ratio 1/3. */
  lemma SummarizedOnce(c: Classifier, blocks: seq<string>, name: string)
    requires |blocks| == 3 && ClassCount(c, blocks, name) == 1
    ensures name in Summarize(c, blocks) && Summarize(c, blocks)[name] == ClassStat(1, 1.0 / 3.0)
  {
    SummarizeStat(c, blocks, name);
    var stat := Summarize(c, blocks)[name];
    OneThird(stat.ratio, stat.count, |blocks|);
  }

  lemma OneThird(x: real, n: nat, t: nat)
    requires n == 1 && t == 3 && x == n as real / t as real
    ensures x == 1.0 / 3.0
  {
  }

  /**
    Over the blocks of the test suite, under the assumed `ExampleClassifier`
    configuration, one block is `ok`, one is `ng` and one is neither, so each
    ratio is 1/3 and the ratios do not add up to 1.
   */
  lemma RatiosNeedNotSumToOne()
    ensures var r := Summarize(ExampleClassifier, ExampleBlocks);
      && "ok" in r && r["ok"] == ClassStat(1, 1.0 / 3.0)
      && "ng" in r && r["ng"] == ClassStat(1, 1.0 / 3.0)
      && (forall name :: name in r ==> name == "ok" || name == "ng")
      && r["ok"].ratio + r["ng"].ratio < 1.0
  {
    var c := ExampleClassifier;
    var r := Summarize(c, ExampleBlocks);
    forall name | name in r ensures name == "ok" || name == "ng" {
      ExampleCounts(name);
      SummarizeStat(c, ExampleBlocks, name);
    }
    ExampleCounts("ok");
    ExampleCounts("ng");
    SummarizedOnce(c, ExampleBlocks, "ok");
    SummarizedOnce(c, ExampleBlocks, "ng");
    assert r["ok"] == ClassStat(1, 1.0 / 3.0);
    assert r["ng"] == ClassStat(1, 1.0 / 3.0);
    assert r["ok"].ratio + r["ng"].ratio == 2.0 / 3.0;
  }


}
