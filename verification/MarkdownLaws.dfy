/**
 * Laws of the block splitter: the shape of every block, the parse/print round
 * trip, and conservation of visible characters.
 */
module MarkdownLaws {
  import opened JsStrings
  import opened MarkdownBlocks

  // ----- Shapes of groups and blocks -----

  ghost predicate FencedGroup(g: seq<Text>) {
    && |g| >= 2
    && IsFence(g[0]) && IsFence(g[|g| - 1])
    && forall i :: 0 < i < |g| - 1 ==> !IsFence(g[i])
  }

  ghost predicate UniformGroup(g: seq<Text>, kind: LineKind) {
    g != [] && forall i :: 0 <= i < |g| ==> Classify(g[i]) == kind
  }

  /** A complete fenced block, a run of table rows, or a run of plain text lines. */
  ghost predicate ClosedGroup(g: seq<Text>) {
    FencedGroup(g) || UniformGroup(g, RowLine) || UniformGroup(g, ProseLine)
  }

  /** A fence that the text never closes. */
  ghost predicate OpenGroup(g: seq<Text>) {
    g != [] && IsFence(g[0]) && forall i :: 0 < i < |g| ==> !IsFence(g[i])
  }

  ghost predicate NoLineFeeds(lines: seq<Text>) {
    forall i :: 0 <= i < |lines| ==> LF !in lines[i]
  }

  ghost predicate ClosedBlock(b: Text) {
    b != [] && Trim(b) == b && ClosedGroup(SplitLines(b))
  }

  ghost predicate OpenBlock(b: Text) {
    b != [] && Trim(b) == b && OpenGroup(SplitLines(b))
  }

  /** What a list of markdown blocks looks like: only its last one may be an open fence. */
  ghost predicate BlockList(bs: seq<Text>) {
    forall i :: 0 <= i < |bs| ==> ClosedBlock(bs[i]) || (i == |bs| - 1 && OpenBlock(bs[i]))
  }

  ghost predicate GroupList(gs: seq<seq<Text>>) {
    forall i :: 0 <= i < |gs| ==> NoLineFeeds(gs[i]) && (ClosedGroup(gs[i]) || (i == |gs| - 1 && OpenGroup(gs[i])))
  }

  lemma {:induction false} UntilFenceShape(lines: seq<Text>)
    ensures var n := UntilFence(lines);
      && (forall i :: 0 <= i < n - 1 ==> !IsFence(lines[i]))
      && (n > 0 && !IsFence(lines[n - 1]) ==> n == |lines|)
      && (n == 0 ==> lines == [])
  {
    if lines != [] && !IsFence(lines[0]) {
      UntilFenceShape(lines[1..]);
    }
  }

  lemma {:induction false} RunLengthShape(kind: LineKind, lines: seq<Text>)
    ensures forall i :: 0 <= i < RunLength(kind, lines) ==> Classify(lines[i]) == kind
  {
    if lines != [] && Classify(lines[0]) == kind {
      RunLengthShape(kind, lines[1..]);
    }
  }

  /** The first group taken from `lines` has a shape of its own, and is an open fence only if it takes all of them. */
  lemma FirstGroupShape(lines: seq<Text>)
    requires lines != [] && Classify(lines[0]) != BlankLine
    ensures var n := GroupLength(lines);
      ClosedGroup(lines[..n]) || (n == |lines| && OpenGroup(lines[..n]))
  {
    var n := GroupLength(lines);
    var g := lines[..n];
    if IsFence(lines[0]) {
      UntilFenceShape(lines[1..]);
      assert forall i :: 0 < i < n ==> g[i] == lines[1..][i - 1];
    } else {
      RunLengthShape(Classify(lines[0]), lines);
    }
  }

  lemma {:induction false} GroupsShape(lines: seq<Text>)
    requires NoLineFeeds(lines)
    ensures GroupList(Groups(lines))
    ensures lines == [] ==> Groups(lines) == []
    decreases |lines|
  {
    if lines == [] {
    } else if Classify(lines[0]) == BlankLine {
      GroupsShape(lines[1..]);
    } else {
      var n := GroupLength(lines);
      FirstGroupShape(lines);
      GroupsShape(lines[n..]);
      GroupListCons(lines[..n], Groups(lines[n..]));
    }
  }

  lemma GroupListCons(g: seq<Text>, gs: seq<seq<Text>>)
    requires NoLineFeeds(g) && GroupList(gs) && (ClosedGroup(g) || (gs == [] && OpenGroup(g)))
    ensures GroupList([g] + gs)
  {
  }

  // ----- Trimming a group keeps its shape -----

  lemma SameKindsSameShape(g: seq<Text>, h: seq<Text>)
    requires |g| == |h| && forall i :: 0 <= i < |g| ==> Classify(g[i]) == Classify(h[i])
    ensures (ClosedGroup(g) ==> ClosedGroup(h)) && (OpenGroup(g) ==> OpenGroup(h))
  {
    forall i | 0 <= i < |g|
      ensures IsFence(g[i]) == IsFence(h[i])
    {
    }
    hide Classify, IsFence;
  }

  lemma JoinTrimStart(first: Text, rest: seq<Text>)
    requires TrimStart(first) != []
    ensures TrimStart(JoinLines([first] + rest)) == JoinLines([TrimStart(first)] + rest)
  {
    if rest != [] {
      var tail := [LF] + JoinLines(rest);
      JoinAppend([first], rest, [LF]);
      JoinAppend([TrimStart(first)], rest, [LF]);
      assert first + [LF] + JoinLines(rest) == first + tail;
      assert TrimStart(first) + [LF] + JoinLines(rest) == TrimStart(first) + tail;
      TrimStartAppend(first, tail);
    }
  }

  /** No group starts with a blank line. */
  lemma GroupStartsSolid(g: seq<Text>)
    requires ClosedGroup(g) || OpenGroup(g)
    ensures g != [] && Classify(g[0]) != BlankLine
  {
  }

  /** Replacing the first line by one of its kind keeps the shape of a group. */
  lemma FirstLineReplaced(g: seq<Text>, first: Text)
    requires g != [] && NoLineFeeds(g) && Classify(first) == Classify(g[0]) && LF !in first
    ensures var h := [first] + g[1..];
      NoLineFeeds(h) && (ClosedGroup(g) ==> ClosedGroup(h)) && (OpenGroup(g) ==> OpenGroup(h))
  {
    hide ClosedGroup, OpenGroup, Classify;
    var h := [first] + g[1..];
    forall i | 0 <= i < |g|
      ensures Classify(g[i]) == Classify(h[i]) && LF !in h[i]
    {
      assert i > 0 ==> h[i] == g[i];
    }
    SameKindsSameShape(g, h);
  }

  lemma TrimFirstLine(g: seq<Text>) returns (h: seq<Text>)
    requires NoLineFeeds(g) && (ClosedGroup(g) || OpenGroup(g))
    ensures NoLineFeeds(h)
    ensures (ClosedGroup(g) ==> ClosedGroup(h)) && (OpenGroup(g) ==> OpenGroup(h))
    ensures JoinLines(h) == TrimStart(JoinLines(g))
  {
    GroupStartsSolid(g);
    TrimFirstLineKind(g[0]);
    assert LF !in g[0];
    hide ClosedGroup, OpenGroup, NoLineFeeds, Classify, TrimStart, JoinLines;
    h := [TrimStart(g[0])] + g[1..];
    FirstLineReplaced(g, TrimStart(g[0]));
    assert g == [g[0]] + g[1..];
    JoinTrimStart(g[0], g[1..]);
  }

  lemma TrimFirstLineKind(line: Text)
    ensures Classify(TrimStart(line)) == Classify(line)
    ensures Classify(line) != BlankLine ==> TrimStart(line) != []
    ensures LF !in line ==> LF !in TrimStart(line)
  {
  }

  lemma {:induction false} TrimLastLine(g: seq<Text>) returns (h: seq<Text>)
    requires NoLineFeeds(g) && (ClosedGroup(g) || OpenGroup(g))
    ensures NoLineFeeds(h)
    ensures (ClosedGroup(g) ==> ClosedGroup(h)) && (OpenGroup(g) ==> OpenGroup(h))
    ensures JoinLines(h) == TrimEnd(JoinLines(g))
  {
    var init, last := g[..|g| - 1], g[|g| - 1];
    assert g == init + [last];
    if |g| > 1 && TrimEnd(last) == [] {
      TrimFacts(last);
      assert Classify(g[|g| - 1]) == BlankLine;
      assert OpenGroup(init);
      JoinAppend(init, [last], [LF]);
      TrimEndAppend(JoinLines(init) + [LF], last);
      TrimEndAppend(JoinLines(init), [LF]);
      assert TrimEnd([LF]) == [];
      h := TrimLastLine(init);
    } else {
      h := TrimSolidLastLine(g);
    }
  }

  lemma TrimLastLineKind(line: Text)
    ensures Classify(TrimEnd(line)) == Classify(line)
    ensures LF !in line ==> LF !in TrimEnd(line)
  {
    TrimFacts(line);
    var post := TrimEndSplits(line);
  }

  lemma TrimSolidLastLine(g: seq<Text>) returns (h: seq<Text>)
    requires NoLineFeeds(g) && (ClosedGroup(g) || OpenGroup(g))
    requires |g| > 1 ==> TrimEnd(g[|g| - 1]) != []
    ensures NoLineFeeds(h)
    ensures (ClosedGroup(g) ==> ClosedGroup(h)) && (OpenGroup(g) ==> OpenGroup(h))
    ensures JoinLines(h) == TrimEnd(JoinLines(g))
  {
    var init, last := g[..|g| - 1], g[|g| - 1];
    assert g == init + [last];
    TrimLastLineKind(last);
    h := init + [TrimEnd(last)];
    SameKindsSameShape(g, h);
    hide ClosedGroup, OpenGroup, Classify, Trim;
    if |g| > 1 {
      JoinAppend(init, [last], [LF]);
      JoinAppend(init, [TrimEnd(last)], [LF]);
      TrimEndAppend(JoinLines(init) + [LF], last);
    }
  }

  /** The text of a group is trimmed, non-empty, and splits back into a group of the same shape. */
  lemma BlockTextShape(g: seq<Text>)
    requires NoLineFeeds(g) && (ClosedGroup(g) || OpenGroup(g))
    ensures ClosedGroup(g) ==> ClosedBlock(BlockText(g))
    ensures OpenGroup(g) ==> OpenBlock(BlockText(g))
  {
    var h := TrimFirstLine(g);
    var k := TrimLastLine(h);
    SplitOfJoin(k);
    TrimFacts(JoinLines(g));
    assert Classify([]) == BlankLine;
    assert k[0] != [] && SplitLines([]) == [[]];
  }

  /**
   * Every block is trimmed and non-empty, and is a complete fenced block, all
   * table rows or all plain text; only the last may be a fence left open.
   */
  lemma BlocksHaveShape(text: Text)
    ensures BlockList(Blocks(text))
  {
    if text != [] {
      var lines := SplitLines(text);
      JoinOfSplit(text);
      GroupsShape(lines);
      var gs := Groups(lines);
      forall i | 0 <= i < |gs|
        ensures ClosedBlock(Blocks(text)[i]) || (i == |gs| - 1 && OpenBlock(Blocks(text)[i]))
      {
        BlockTextShape(gs[i]);
      }
    }
  }

  // ----- Parsing what was printed -----

  lemma {:induction false} UntilFenceExact(body: seq<Text>, rest: seq<Text>)
    requires forall i :: 0 <= i < |body| - 1 ==> !IsFence(body[i])
    requires body != [] && (IsFence(body[|body| - 1]) || rest == [])
    ensures UntilFence(body + rest) == |body|
  {
    if |body| > 1 {
      assert (body + rest)[1..] == body[1..] + rest;
      UntilFenceExact(body[1..], rest);
    } else if rest == [] {
      assert (body + rest)[1..] == [];
    }
  }

  lemma {:induction false} RunLengthExact(kind: LineKind, run: seq<Text>, rest: seq<Text>)
    requires forall i :: 0 <= i < |run| ==> Classify(run[i]) == kind
    requires rest != [] ==> Classify(rest[0]) != kind
    ensures RunLength(kind, run + rest) == |run|
  {
    if run != [] {
      assert (run + rest)[1..] == run[1..] + rest;
      RunLengthExact(kind, run[1..], rest);
    } else {
      assert run + rest == rest;
    }
  }

  /** A closed group before a blank line, or a group at the end, is read back as that group. */
  lemma GroupReadBack(g: seq<Text>, rest: seq<Text>)
    requires if rest == [] then ClosedGroup(g) || OpenGroup(g) else ClosedGroup(g) && Classify(rest[0]) == BlankLine
    ensures Groups(g + rest) == [g] + Groups(rest)
  {
    var lines := g + rest;
    assert lines[0] == g[0];
    if IsFence(g[0]) {
      assert lines[1..] == g[1..] + rest;
      if |g| > 1 {
        UntilFenceExact(g[1..], rest);
      } else {
        assert rest == [] && lines[1..] == [];
      }
    } else {
      RunLengthExact(Classify(g[0]), g, rest);
    }
    assert lines[..|g|] == g && lines[|g|..] == rest;
  }

  lemma SplitAtBreak(a: Text, b: Text)
    ensures SplitLines(a + PARAGRAPH_BREAK + b) == SplitLines(a) + [[]] + SplitLines(b)
  {
    var tail: Text := [] + [LF] + b;
    assert a + PARAGRAPH_BREAK + b == a + [LF] + tail;
    SplitAppend(a, tail);
    SplitAppend([], b);
    assert SplitLines([]) == [[]];
    assert SplitLines(a) + ([[]] + SplitLines(b)) == SplitLines(a) + [[]] + SplitLines(b);
  }

  function SplitEach(bs: seq<Text>): (gs: seq<seq<Text>>)
    ensures |gs| == |bs| && forall i :: 0 <= i < |bs| ==> gs[i] == SplitLines(bs[i])
  {
    seq(|bs|, i requires 0 <= i < |bs| => SplitLines(bs[i]))
  }

  lemma BlockListTail(bs: seq<Text>)
    requires |bs| > 1 && BlockList(bs)
    ensures ClosedBlock(bs[0]) && BlockList(bs[1..]) && bs[1..][|bs| - 2] == bs[|bs| - 1]
  {
  }

  lemma GroupReadBackBeforeBlank(g: seq<Text>, lines: seq<Text>)
    requires ClosedGroup(g)
    ensures Groups(g + [[]] + lines) == [g] + Groups(lines)
  {
    var rest := [[]] + lines;
    assert g + [[]] + lines == g + rest;
    assert rest[1..] == lines;
    assert Classify([]) == BlankLine;
    GroupReadBack(g, rest);
  }

  lemma ReadFirstBlock(b: Text, tail: Text)
    requires ClosedBlock(b)
    ensures Groups(SplitLines(b + PARAGRAPH_BREAK + tail)) == [SplitLines(b)] + Groups(SplitLines(tail))
  {
    SplitAtBreak(b, tail);
    GroupReadBackBeforeBlank(SplitLines(b), SplitLines(tail));
  }

  lemma ReadLastBlock(b: Text)
    requires ClosedBlock(b) || OpenBlock(b)
    ensures Groups(SplitLines(b)) == [SplitLines(b)]
  {
    GroupReadBack(SplitLines(b), []);
    assert SplitLines(b) + [] == SplitLines(b);
  }

  lemma {:induction false} GroupsOfJoin(bs: seq<Text>)
    requires bs != [] && BlockList(bs)
    ensures Groups(SplitLines(Join(bs, PARAGRAPH_BREAK))) == SplitEach(bs)
  {
    if |bs| == 1 {
      ReadLastBlock(bs[0]);
    } else {
      BlockListTail(bs);
      GroupsOfJoin(bs[1..]);
      ReadFirstBlock(bs[0], Join(bs[1..], PARAGRAPH_BREAK));
    }
  }

  /** Printing any block list with blank lines between and parsing it gives the list back. */
  lemma ParseOfPrint(bs: seq<Text>)
    requires BlockList(bs)
    ensures Blocks(Join(bs, PARAGRAPH_BREAK)) == bs
  {
    var text := Join(bs, PARAGRAPH_BREAK);
    if bs != [] {
      assert bs[0] != [];
      assert text != [];
      GroupsOfJoin(bs);
      forall i | 0 <= i < |bs|
        ensures BlockText(SplitLines(bs[i])) == bs[i]
      {
        JoinOfSplit(bs[i]);
      }
    }
  }

  /** The splitter's round trip, for every text and including a final unclosed fence. */
  lemma RoundTrip(text: Text)
    ensures Blocks(Join(Blocks(text), PARAGRAPH_BREAK)) == Blocks(text)
  {
    BlocksHaveShape(text);
    ParseOfPrint(Blocks(text));
  }

  /** Block lists are exactly what the splitter can return. */
  lemma BlockListsAreTheResults(bs: seq<Text>)
    ensures BlockList(bs) <==> exists text: Text :: Blocks(text) == bs
  {
    if BlockList(bs) {
      ParseOfPrint(bs);
    }
    if text: Text :| Blocks(text) == bs {
      BlocksHaveShape(text);
    }
  }

  // ----- Conservation -----

  lemma {:induction false} VisibleOfLines(lines: seq<Text>)
    ensures Visible(JoinLines(lines)) == Visible(Concat(lines))
  {
    if lines == [] {
    } else if |lines| == 1 {
      assert lines[1..] == [] && lines[0] + [] == lines[0];
    } else {
      VisibleOfLines(lines[1..]);
      VisibleAppend(lines[0] + [LF], JoinLines(lines[1..]));
      VisibleAppend(lines[0], [LF]);
      VisibleAppend(lines[0], Concat(lines[1..]));
      assert Visible([LF]) == [];
    }
  }

  lemma VisibleCons(b: Text, tail: seq<Text>)
    ensures Visible(Concat([b] + tail)) == Visible(b) + Visible(Concat(tail))
  {
    assert ([b] + tail)[1..] == tail;
    VisibleAppend(b, Concat(tail));
  }

  lemma VisibleOfBlock(g: seq<Text>)
    ensures Visible(BlockText(g)) == Visible(Concat(g))
  {
    VisibleOfLines(g);
    VisibleTrim(JoinLines(g));
  }

  lemma VisibleOfParts(a: seq<Text>, b: seq<Text>)
    ensures Visible(Concat(a + b)) == Visible(Concat(a)) + Visible(Concat(b))
  {
    ConcatAppend(a, b);
    VisibleAppend(Concat(a), Concat(b));
  }

  lemma BlankIsInvisible(line: Text)
    requires Classify(line) == BlankLine
    ensures Visible(line) == []
  {
    TrimFacts(line);
    VisibleOfSpace(line);
  }

  lemma {:induction false} VisibleOfGroups(lines: seq<Text>)
    ensures Visible(Concat(BlockTexts(Groups(lines)))) == Visible(Concat(lines))
    decreases |lines|
  {
    hide Visible, Concat, Classify, BlockText;
    if lines == [] {
      assert BlockTexts(Groups(lines)) == lines;
    } else if Classify(lines[0]) == BlankLine {
      VisibleOfGroups(lines[1..]);
      BlankIsInvisible(lines[0]);
      assert lines == [lines[0]] + lines[1..];
      VisibleCons(lines[0], lines[1..]);
    } else {
      var n := GroupLength(lines);
      var g, later := lines[..n], Groups(lines[n..]);
      VisibleOfGroups(lines[n..]);
      VisibleOfBlock(g);
      BlockTextsPrepend(g, later);
      VisibleCons(BlockText(g), BlockTexts(later));
      assert lines == g + lines[n..];
      VisibleOfParts(g, lines[n..]);
    }
  }

  /** No visible character is lost, duplicated or reordered by splitting into blocks. */
  lemma SplittingKeepsVisibleText(text: Text)
    ensures Visible(Concat(Blocks(text))) == Visible(text)
  {
    var lines := SplitLines(text);
    JoinOfSplit(text);
    VisibleOfLines(lines);
    VisibleOfGroups(lines);
  }

  // ----- Fence balance -----

  function FenceCount(lines: seq<Text>): nat {
    if lines == [] then 0 else (if IsFence(lines[0]) then 1 else 0) + FenceCount(lines[1..])
  }

  lemma {:induction false} FenceCountAppend(a: seq<Text>, b: seq<Text>)
    ensures FenceCount(a + b) == FenceCount(a) + FenceCount(b)
  {
    if a == [] {
      assert a + b == b;
    } else {
      assert (a + b)[1..] == a[1..] + b;
      FenceCountAppend(a[1..], b);
    }
  }

  lemma {:induction false} NoFences(lines: seq<Text>)
    requires forall i :: 0 <= i < |lines| ==> !IsFence(lines[i])
    ensures FenceCount(lines) == 0
  {
    if lines == [] {
    } else {
      NoFences(lines[1..]);
    }
  }

  lemma GroupFences(g: seq<Text>)
    ensures FencedGroup(g) ==> FenceCount(g) == 2
    ensures OpenGroup(g) ==> FenceCount(g) == 1
    ensures UniformGroup(g, RowLine) || UniformGroup(g, ProseLine) ==> FenceCount(g) == 0
  {
    if FencedGroup(g) {
      var body := g[1..|g| - 1];
      NoFences(body);
      assert g == [g[0]] + (body + [g[|g| - 1]]);
      FenceCountAppend(body, [g[|g| - 1]]);
      assert g[1..] == body + [g[|g| - 1]];
      assert FenceCount([g[|g| - 1]]) == 1;
    }
    if OpenGroup(g) {
      NoFences(g[1..]);
    }
    if UniformGroup(g, RowLine) || UniformGroup(g, ProseLine) {
      NoFences(g);
    }
  }

  lemma FencesOfClosedBlock(b: Text)
    requires ClosedBlock(b)
    ensures FenceCount(SplitLines(b)) % 2 == 0
  {
    GroupFences(SplitLines(b));
  }

  lemma FencesOfBlankLine()
    ensures FenceCount([[]]) == 0
  {
  }

  lemma FencesOfFirstBlock(b: Text, tail: Text)
    requires ClosedBlock(b)
    ensures FenceCount(SplitLines(b + PARAGRAPH_BREAK + tail)) % 2 == FenceCount(SplitLines(tail)) % 2
  {
    hide FenceCount, SplitLines, ClosedBlock;
    var g := SplitLines(b);
    FencesOfClosedBlock(b);
    FencesOfBlankLine();
    SplitAtBreak(b, tail);
    FenceCountAppend(g + [[]], SplitLines(tail));
    FenceCountAppend(g, [[]]);
  }

  /** A printed block list has an odd number of fence lines exactly when it ends in an open fence. */
  lemma {:induction false} FencesOfPrint(bs: seq<Text>)
    requires bs != [] && BlockList(bs)
    ensures FenceCount(SplitLines(Join(bs, PARAGRAPH_BREAK))) % 2 == (if OpenBlock(bs[|bs| - 1]) then 1 else 0)
  {
    if |bs| == 1 {
      GroupFences(SplitLines(bs[0]));
    } else {
      BlockListTail(bs);
      FencesOfPrint(bs[1..]);
      FencesOfFirstBlock(bs[0], Join(bs[1..], PARAGRAPH_BREAK));
    }
  }
}
