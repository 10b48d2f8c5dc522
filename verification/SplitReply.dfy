/**
 * Splitting a long message and a long reply, end to end: text in, segments out.
 */
module SplitReply {
  import opened JsStrings
  import opened MarkdownBlocks
  import opened MarkdownLaws
  import opened Packing
  import opened PackingLaws

  function SplitMessage(text: Text, maxLen: nat): seq<Text>
    requires maxLen >= 1
  {
    if |text| <= maxLen then [text] else Packed(Blocks(text), maxLen)
  }

  method SplitLongMessage(text: Text, maxLen: int) returns (segments: seq<Text>)
    requires maxLen >= 1 || Blocks(text) == []
    ensures maxLen >= 1 ==> segments == SplitMessage(text, maxLen)
    ensures maxLen < 1 ==> segments == if text == [] then [text] else []
  {
    if text == [] {
      return [text];
    }
    if |text| <= maxLen {
      return [text];
    }
    var blocks := SplitMarkdownBlocks(text);
    BlocksHaveShape(text);
    segments := PackBlocks(blocks, maxLen);
  }

  function WithHeader(header: Text, bodies: seq<Text>): (messages: seq<Text>)
    ensures |messages| == |bodies|
    ensures forall i :: 0 <= i < |bodies| ==> messages[i] == header + PARAGRAPH_BREAK + bodies[i]
  {
    seq(|bodies|, i requires 0 <= i < |bodies| => header + PARAGRAPH_BREAK + bodies[i])
  }

  /** The bodies of the messages a reply is sent as. */
  function ReplyBodies(header: Text, body: Text, maxLen: int): seq<Text> {
    var bodyMaxLen := maxLen - (|header| + 2);
    if bodyMaxLen <= 0 || |body| <= bodyMaxLen then [body]
    else
      var segments := SplitMessage(body, bodyMaxLen);
      if |segments| <= 1 then [body] else segments
  }

  lemma WithHeaderOne(header: Text, body: Text)
    ensures WithHeader(header, [body]) == [header + PARAGRAPH_BREAK + body]
  {
  }

  method SplitLongReply(header: Text, body: Text, maxLen: int) returns (messages: seq<Text>)
    ensures messages == WithHeader(header, ReplyBodies(header, body, maxLen))
  {
    hide Packed, SplitMessage;
    WithHeaderOne(header, body);
    var headerLen := |header| + 2;
    var bodyMaxLen := maxLen - headerLen;
    if bodyMaxLen <= 0 {
      return [header + PARAGRAPH_BREAK + body];
    }
    if |body| <= bodyMaxLen {
      return [header + PARAGRAPH_BREAK + body];
    }
    var segments := SplitLongMessage(body, bodyMaxLen);
    if |segments| <= 1 {
      return [header + PARAGRAPH_BREAK + body];
    }
    messages := WithHeader(header, segments);
  }

  // ----- The limit -----

  /** Every segment of a split message respects the limit. */
  lemma SegmentsRespectLimit(text: Text, maxLen: nat)
    requires maxLen >= 1
    ensures forall i :: 0 <= i < |SplitMessage(text, maxLen)| ==> |SplitMessage(text, maxLen)[i]| <= maxLen
  {
    if |text| > maxLen {
      PackedRespectsLimit(Blocks(text), maxLen);
    }
  }

  lemma PackedRespectsLimit(blocks: seq<Text>, maxLen: nat)
    requires maxLen >= 1
    ensures forall i :: 0 <= i < |Packed(blocks, maxLen)| ==> |Packed(blocks, maxLen)[i]| <= maxLen
  {
    var groups, pieces := PackedGroups(blocks, maxLen), ChoppedPieces(blocks, maxLen);
    PackingKeepsFittingBlocks(blocks, maxLen);
    var over := Oversized(blocks, maxLen);
    var bound := |groups| + |pieces| + |over|;
    ChopAllNumbered(over, maxLen, |groups|, |over|, bound);
    forall i | 0 <= i < |Packed(blocks, maxLen)|
      ensures |Packed(blocks, maxLen)[i]| <= maxLen
    {
      if i < |groups| {
        assert Fits(groups[i], maxLen);
      } else {
        assert NumberedPiece(pieces[i - |groups|], |groups| + 1 + (i - |groups|), bound, maxLen);
      }
    }
  }

  lemma LabelHasRoom(n: nat, m: nat, maxN: nat, maxM: nat, maxLen: nat)
    requires n <= maxN && m <= maxM && |Label(maxN, maxM)| < maxLen
    ensures LabelIfRoom(n, m, maxLen) == Label(n, m)
  {
    DecimalLengthMonotone(n, maxN);
    DecimalLengthMonotone(m, maxM);
  }

  lemma SegmentOfPiece(blocks: seq<Text>, maxLen: nat, i: nat)
    requires maxLen >= 1 && |PackedGroups(blocks, maxLen)| <= i < |Packed(blocks, maxLen)|
    ensures var p := ChoppedPieces(blocks, maxLen)[i - |PackedGroups(blocks, maxLen)|];
      Packed(blocks, maxLen)[i] == p.prefix + p.payload
  {
  }

  /** When the longest possible label leaves room, chopped segment `i` carries the number `i + 1`. */
  lemma LabelsShowPositions(blocks: seq<Text>, maxLen: nat, i: nat)
    requires maxLen >= 1
    requires |PackedGroups(blocks, maxLen)| <= i < |Packed(blocks, maxLen)|
    requires |Label(|Packed(blocks, maxLen)|, |Packed(blocks, maxLen)| + |Oversized(blocks, maxLen)|)| < maxLen
    ensures ReadLabel(Packed(blocks, maxLen)[i]).Some? && ReadLabel(Packed(blocks, maxLen)[i]).value.n == i + 1
  {
    hide Label, PackedGroups, Oversized, ChopAll, ReadLabel;
    var packed, over := |PackedGroups(blocks, maxLen)|, Oversized(blocks, maxLen);
    var pieces := ChoppedPieces(blocks, maxLen);
    var bound := packed + |pieces| + |over|;
    ChopAllNumbered(over, maxLen, packed, |over|, bound);
    var n, p := i + 1, pieces[i - packed];
    assert NumberedPiece(p, packed + 1 + (i - packed), bound, maxLen);
    var m: nat :| m <= bound && p.prefix == LabelIfRoom(n, m, maxLen);
    LabelHasRoom(n, m, |Packed(blocks, maxLen)|, bound, maxLen);
    SegmentOfPiece(blocks, maxLen, i);
    ReadLabelExact(n, m, p.payload);
  }

  // ----- Nothing is lost -----

  lemma {:induction false} VisibleOfJoin(group: seq<Text>)
    ensures Visible(Join(group, PARAGRAPH_BREAK)) == Visible(Concat(group))
  {
    if |group| == 1 {
      assert group[1..] == [] && group[0] + [] == group[0];
    } else if |group| > 1 {
      var tail := Join(group[1..], PARAGRAPH_BREAK);
      VisibleOfJoin(group[1..]);
      VisibleAppend(group[0] + PARAGRAPH_BREAK, tail);
      VisibleAppend(group[0], PARAGRAPH_BREAK);
      VisibleAppend(group[0], Concat(group[1..]));
      assert PARAGRAPH_BREAK == [LF] + [LF];
      VisibleAppend([LF], [LF]);
    }
  }

  lemma {:induction false} VisibleOfJoinEach(groups: seq<seq<Text>>)
    ensures Visible(Concat(JoinEach(groups))) == Visible(Concat(Flatten(groups)))
  {
    if groups == [] {
    } else {
      VisibleOfJoinEach(groups[1..]);
      var first, rest := Join(groups[0], PARAGRAPH_BREAK), JoinEach(groups[1..]);
      assert JoinEach(groups) == [first] + rest;
      assert ([first] + rest)[1..] == rest;
      VisibleAppend(first, Concat(rest));
      VisibleOfJoin(groups[0]);
      ConcatAppend(groups[0], Flatten(groups[1..]));
      VisibleAppend(Concat(groups[0]), Concat(Flatten(groups[1..])));
    }
  }

  lemma {:induction false} ChopAllConserves(blocks: seq<Text>, maxLen: nat, packed: nat, oversized: nat)
    requires maxLen >= 1
    ensures Concat(Payloads(ChopAll(blocks, maxLen, packed, oversized))) == Concat(blocks)
  {
    if blocks == [] {
    } else {
      var pieces := Chop(blocks[0], maxLen, packed + 1, packed + oversized, 0);
      var later := ChopAll(blocks[1..], maxLen, packed + |pieces|, oversized);
      ChopConserves(blocks[0], maxLen, packed + 1, packed + oversized, 0);
      ChopAllConserves(blocks[1..], maxLen, packed + |pieces|, oversized);
      PayloadsAppend(pieces, later);
    }
  }

  lemma PayloadsAppend(a: seq<Piece>, b: seq<Piece>)
    ensures Concat(Payloads(a + b)) == Concat(Payloads(a)) + Concat(Payloads(b))
  {
    assert Payloads(a + b) == Payloads(a) + Payloads(b);
    ConcatAppend(Payloads(a), Payloads(b));
  }

  lemma MultisetOfPart(v: Text, a: Text, b: Text, all: Text)
    requires multiset(a) + multiset(b) == multiset(all)
    ensures multiset(v + a) + multiset(b) == multiset(v + all)
    ensures multiset(a) + multiset(v + b) == multiset(v + all)
  {
  }

  lemma ByFitCons(b: Text, rest: seq<Text>, maxLen: nat)
    ensures FittingBlocks([b] + rest, maxLen) == (if |b| <= maxLen then [b] else []) + FittingBlocks(rest, maxLen)
    ensures Oversized([b] + rest, maxLen) == (if |b| <= maxLen then [] else [b]) + Oversized(rest, maxLen)
  {
  }

  lemma {:induction false} VisibleByFit(blocks: seq<Text>, maxLen: nat)
    ensures multiset(Visible(Concat(FittingBlocks(blocks, maxLen)))) + multiset(Visible(Concat(Oversized(blocks, maxLen))))
         == multiset(Visible(Concat(blocks)))
    decreases |blocks|
  {
    if blocks == [] {
      assert Visible(Concat([])) == [];
    } else {
      var b, rest := blocks[0], blocks[1..];
      var fit, over := FittingBlocks(rest, maxLen), Oversized(rest, maxLen);
      VisibleByFit(rest, maxLen);
      assert blocks == [b] + rest;
      ByFitCons(b, rest, maxLen);
      VisibleCons(b, rest);
      VisibleCons(b, fit);
      VisibleCons(b, over);
      MultisetOfPart(Visible(b), Visible(Concat(fit)), Visible(Concat(over)), Visible(Concat(rest)));
      if |b| <= maxLen {
        assert FittingBlocks(blocks, maxLen) == [b] + fit && Oversized(blocks, maxLen) == over;
      } else {
        assert FittingBlocks(blocks, maxLen) == fit && Oversized(blocks, maxLen) == [b] + over;
      }
    }
  }

  /** The text the recipient reads: the packed segments, and the chopped ones without their labels. */
  function Received(text: Text, maxLen: nat): seq<Text>
    requires maxLen >= 1
  {
    if |text| <= maxLen then [text]
    else JoinEach(PackedGroups(Blocks(text), maxLen)) + Payloads(ChoppedPieces(Blocks(text), maxLen))
  }

  /**
   * What the recipient reads is, in this order, the visible text of the blocks
   * that fit and then that of the oversized ones, each in their own order.
   */
  lemma ReceivedInOrder(text: Text, maxLen: nat)
    requires |text| > maxLen >= 1
    ensures Visible(Concat(Received(text, maxLen)))
         == Visible(Concat(FittingBlocks(Blocks(text), maxLen))) + Visible(Concat(Oversized(Blocks(text), maxLen)))
  {
    hide Blocks, FittingBlocks, PackedGroups, ChopAll, Visible, Concat;
    var blocks := Blocks(text);
    var groups, pieces := PackedGroups(blocks, maxLen), ChoppedPieces(blocks, maxLen);
    PackingKeepsFittingBlocks(blocks, maxLen);
    VisibleOfJoinEach(groups);
    ChopAllConserves(Oversized(blocks, maxLen), maxLen, |groups|, |Oversized(blocks, maxLen)|);
    VisibleOfParts(JoinEach(groups), Payloads(pieces));
  }

  /** Across all segments no visible character is lost and none appears twice. */
  lemma SplittingConserves(text: Text, maxLen: nat)
    requires maxLen >= 1
    ensures multiset(Visible(Concat(Received(text, maxLen)))) == multiset(Visible(text))
  {
    if |text| <= maxLen {
      assert [text][1..] == [] && text + [] == text;
    } else {
      hide Blocks, FittingBlocks, Oversized, Visible, Concat, Received;
      ReceivedInOrder(text, maxLen);
      SplittingKeepsVisibleText(text);
      VisibleByFit(Blocks(text), maxLen);
    }
  }

  /** No block that fits comes after an oversized one. */
  predicate OversizedComeLast(blocks: seq<Text>, maxLen: int) {
    forall i, j :: 0 <= i < j < |blocks| && |blocks[i]| > maxLen ==> |blocks[j]| > maxLen
  }

  /** The blocks are sent in the order of the text exactly when the oversized ones come last. */
  lemma {:induction false} OrderKeptExactlyWhen(blocks: seq<Text>, maxLen: int)
    ensures FittingBlocks(blocks, maxLen) + Oversized(blocks, maxLen) == blocks <==> OversizedComeLast(blocks, maxLen)
  {
    if blocks == [] {
    } else {
      var b, rest := blocks[0], blocks[1..];
      var fit, over := FittingBlocks(rest, maxLen), Oversized(rest, maxLen);
      assert blocks == [b] + rest;
      OrderKeptExactlyWhen(rest, maxLen);
      if |b| <= maxLen {
        assert FittingBlocks(blocks, maxLen) + Oversized(blocks, maxLen) == [b] + (fit + over);
        assert OversizedComeLast(rest, maxLen) ==> OversizedComeLast(blocks, maxLen);
        assert forall i :: 0 <= i < |rest| ==> rest[i] == blocks[i + 1];
      } else {
        FirstOversized(b, rest, maxLen);
      }
    }
  }

  /** Behind an oversized block, order is kept exactly when everything else is oversized too. */
  lemma FirstOversized(b: Text, rest: seq<Text>, maxLen: int)
    requires |b| > maxLen
    ensures var blocks := [b] + rest;
      FittingBlocks(blocks, maxLen) + Oversized(blocks, maxLen) == blocks <==> OversizedComeLast(blocks, maxLen)
  {
    var blocks := [b] + rest;
    var fit, over := FittingBlocks(rest, maxLen), Oversized(rest, maxLen);
    assert blocks[1..] == rest;
    assert FittingBlocks(blocks, maxLen) == fit && Oversized(blocks, maxLen) == [b] + over;
    if fit == [] {
      NoneFits(rest, maxLen);
    } else {
      FittingInBlocks(rest, maxLen, fit[0]);
      var j :| 0 <= j < |rest| && rest[j] == fit[0];
      assert blocks[0] == b && blocks[j + 1] == fit[0];
      assert (fit + ([b] + over))[0] == fit[0];
    }
  }

  lemma {:induction false} NoneFits(blocks: seq<Text>, maxLen: int)
    requires FittingBlocks(blocks, maxLen) == []
    ensures Oversized(blocks, maxLen) == blocks
    ensures forall i :: 0 <= i < |blocks| ==> |blocks[i]| > maxLen
  {
    if blocks == [] {
    } else {
      NoneFits(blocks[1..], maxLen);
    }
  }

  /** When the oversized blocks come last, the visible text arrives in its own order. */
  lemma OrderKept(text: Text, maxLen: nat)
    requires |text| > maxLen >= 1 && OversizedComeLast(Blocks(text), maxLen)
    ensures Visible(Concat(Received(text, maxLen))) == Visible(text)
  {
    var blocks := Blocks(text);
    ReceivedInOrder(text, maxLen);
    OrderKeptExactlyWhen(blocks, maxLen);
    VisibleOfParts(FittingBlocks(blocks, maxLen), Oversized(blocks, maxLen));
    SplittingKeepsVisibleText(text);
  }

  const LETTER_A: CodeUnit := 97
  const LETTER_B: CodeUnit := 98

  ghost predicate Letters(line: Text) {
    line != [] && forall i :: 0 <= i < |line| ==> LETTER_A <= line[i] <= LETTER_B
  }

  /** A line of letters that does not fit, a blank line and one that fits: the user reads the second line first. */
  lemma LinesSwap(a: Text, b: Text, maxLen: nat)
    requires Letters(a) && Letters(b) && 1 <= |b| <= maxLen < |a|
    ensures var text := a + PARAGRAPH_BREAK + b;
      Visible(text) == a + b && Visible(Concat(Received(text, maxLen))) == b + a
  {
    var text := a + PARAGRAPH_BREAK + b;
    TwoLetterBlocks(a, b);
    ByFitOfTwo(a, b, maxLen);
    VisibleLetters(a);
    VisibleLetters(b);
    hide Visible, Concat, Blocks, FittingBlocks, Oversized, Received, Letters;
    assert |text| > maxLen;
    SplittingKeepsVisibleText(text);
    ReceivedInOrder(text, maxLen);
    VisibleOfOne(a);
    VisibleOfOne(b);
    VisibleOfParts([a], [b]);
    assert [a] + [b] == [a, b];
  }

  /** `aaa`, a blank line and `b` under the limit 2 are read as `b`, `aaa`. */
  lemma OrderLostExample()
    ensures var text := [LETTER_A, LETTER_A, LETTER_A] + PARAGRAPH_BREAK + [LETTER_B];
      Visible(Concat(Received(text, 2))) != Visible(text)
  {
    var a: Text, b: Text := [LETTER_A, LETTER_A, LETTER_A], [LETTER_B];
    LinesSwap(a, b, 2);
    assert (a + b)[0] != (b + a)[0];
  }

  lemma VisibleOfOne(b: Text)
    ensures Visible(Concat([b])) == Visible(b)
  {
    assert [b][1..] == [] && b + [] == b;
  }

  lemma TwoLetterBlocks(a: Text, b: Text)
    requires Letters(a) && Letters(b)
    ensures Blocks(a + PARAGRAPH_BREAK + b) == [a, b]
  {
    LetterBlock(a);
    LetterBlock(b);
    assert [a, b][1..] == [b];
    assert a + PARAGRAPH_BREAK + b == Join([a, b], PARAGRAPH_BREAK);
    ParseOfPrint([a, b]);
  }

  lemma ByFitOfTwo(a: Text, b: Text, maxLen: nat)
    requires |b| <= maxLen < |a|
    ensures FittingBlocks([a, b], maxLen) == [b] && Oversized([a, b], maxLen) == [a]
  {
    ByFitCons(a, [b], maxLen);
    ByFitCons(b, [], maxLen);
    assert [a] + [b] == [a, b] && [b] + [] == [b];
  }

  /** A line of letters is a block of its own. */
  lemma LetterBlock(line: Text)
    requires Letters(line)
    ensures ClosedBlock(line)
  {
    SplitSingle(line);
    assert TrimStart(line) == line && TrimEnd(line) == line;
    assert !IsFence(line) by {
      assert FENCE_MARK[0] != line[0];
    }
    assert UniformGroup([line], ProseLine);
  }

  lemma {:induction false} VisibleLetters(line: Text)
    requires forall i :: 0 <= i < |line| ==> LETTER_A <= line[i] <= LETTER_B
    ensures Visible(line) == line
  {
    if line == [] {
    } else {
      VisibleLetters(line[1..]);
      assert line == [line[0]] + line[1..];
    }
  }

  // ----- Blocks stay whole -----

  lemma {:induction false} FittingInBlocks(blocks: seq<Text>, maxLen: int, b: Text)
    ensures b in FittingBlocks(blocks, maxLen) <==> b in blocks && |b| <= maxLen
  {
    if blocks == [] {
    } else {
      FittingInBlocks(blocks[1..], maxLen, b);
      assert b in blocks <==> b == blocks[0] || b in blocks[1..];
    }
  }

  lemma {:induction false} FittingBlockList(blocks: seq<Text>, maxLen: int)
    requires BlockList(blocks)
    ensures BlockList(FittingBlocks(blocks, maxLen))
  {
    if |blocks| == 1 {
      assert FittingBlocks(blocks[1..], maxLen) == [];
    } else if |blocks| > 1 {
      BlockListTail(blocks);
      FittingBlockList(blocks[1..], maxLen);
    }
  }

  lemma BlockListParts(a: seq<Text>, b: seq<Text>)
    requires BlockList(a + b)
    ensures BlockList(b)
    ensures forall i :: 0 <= i < |a| ==> ClosedBlock(a[i]) || (i == |a| - 1 && b == [] && OpenBlock(a[i]))
  {
    forall i | 0 <= i < |b|
      ensures ClosedBlock(b[i]) || (i == |b| - 1 && OpenBlock(b[i]))
    {
      assert (a + b)[|a| + i] == b[i];
    }
    forall i | 0 <= i < |a|
      ensures ClosedBlock(a[i]) || (i == |a| - 1 && b == [] && OpenBlock(a[i]))
    {
      assert (a + b)[i] == a[i];
    }
  }

  lemma {:induction false} GroupBlockList(groups: seq<seq<Text>>, i: nat)
    requires i < |groups| && BlockList(Flatten(groups))
    requires forall j :: 0 <= j < |groups| ==> groups[j] != []
    ensures BlockList(groups[i])
    ensures i < |groups| - 1 ==> forall j :: 0 <= j < |groups[i]| ==> ClosedBlock(groups[i][j])
  {
    BlockListParts(groups[0], Flatten(groups[1..]));
    if i > 0 {
      GroupBlockList(groups[1..], i - 1);
    } else if |groups| > 1 {
      assert Flatten(groups[1..]) == groups[1] + Flatten(groups[1..][1..]);
    }
  }

  /**
   * Parsing a packed segment again gives exactly the blocks of its group, and
   * the groups in order hold exactly the blocks that fit: no fenced block and
   * no table that fits is ever cut.
   */
  lemma PackedSegmentsReparse(text: Text, maxLen: nat)
    ensures var groups := PackedGroups(Blocks(text), maxLen);
      && Flatten(groups) == FittingBlocks(Blocks(text), maxLen)
      && forall i :: 0 <= i < |groups| ==> Blocks(JoinEach(groups)[i]) == groups[i]
  {
    var groups := PackedGroups(Blocks(text), maxLen);
    BlocksHaveShape(text);
    PackingKeepsFittingBlocks(Blocks(text), maxLen);
    FittingBlockList(Blocks(text), maxLen);
    forall i | 0 <= i < |groups|
      ensures Blocks(JoinEach(groups)[i]) == groups[i]
    {
      GroupBlockList(groups, i);
      ParseOfPrint(groups[i]);
    }
  }

  lemma {:induction false} InSomeGroup(groups: seq<seq<Text>>, b: Text) returns (i: nat)
    requires b in Flatten(groups)
    ensures i < |groups| && b in groups[i]
  {
    if b in groups[0] {
      i := 0;
    } else {
      i := InSomeGroup(groups[1..], b);
      i := i + 1;
    }
  }

  /** A block that fits the limit lies whole in one segment, as one of the blocks of that segment. */
  lemma FittingBlockIsWhole(text: Text, maxLen: nat, b: Text)
    requires |text| > maxLen >= 1
    requires b in Blocks(text) && |b| <= maxLen
    ensures exists i :: 0 <= i < |SplitMessage(text, maxLen)| && b in Blocks(SplitMessage(text, maxLen)[i])
  {
    var groups := PackedGroups(Blocks(text), maxLen);
    PackedSegmentsReparse(text, maxLen);
    FittingInBlocks(Blocks(text), maxLen, b);
    var i := InSomeGroup(groups, b);
    assert SplitMessage(text, maxLen)[i] == JoinEach(groups)[i];
  }

  lemma OpenIsNotClosed(b: Text)
    ensures !(OpenBlock(b) && ClosedBlock(b))
  {
  }

  /** A group ends in an open fence exactly when it is the last one and the last of all blocks is an open fence that fits. */
  lemma GroupEndsOpen(blocks: seq<Text>, groups: seq<seq<Text>>, maxLen: nat, i: nat)
    requires i < |groups| && BlockList(blocks) && Flatten(groups) == FittingBlocks(blocks, maxLen)
    requires forall j :: 0 <= j < |groups| ==> groups[j] != []
    ensures BlockList(groups[i])
    ensures OpenBlock(groups[i][|groups[i]| - 1]) <==>
      i == |groups| - 1 && blocks != [] && OpenBlock(blocks[|blocks| - 1]) && |blocks[|blocks| - 1]| <= maxLen
  {
    var last := groups[i][|groups[i]| - 1];
    FittingBlockList(blocks, maxLen);
    GroupBlockList(groups, i);
    OpenIsNotClosed(last);
    if OpenBlock(last) {
      assert last in groups[i];
      InFlatten(groups, i, last);
      FittingInBlocks(blocks, maxLen, last);
      var j :| 0 <= j < |blocks| && blocks[j] == last;
    }
    if i == |groups| - 1 && blocks != [] && OpenBlock(blocks[|blocks| - 1]) && |blocks[|blocks| - 1]| <= maxLen {
      LastFitting(blocks, maxLen);
      LastOfFlatten(groups);
    }
  }

  /**
   * A packed segment has an odd number of fence lines exactly when it is the
   * last packed one and holds the fence the text leaves open at its end.
   */
  lemma FencesBalance(text: Text, maxLen: nat, i: nat)
    requires i < |PackedGroups(Blocks(text), maxLen)|
    ensures var groups, blocks := PackedGroups(Blocks(text), maxLen), Blocks(text);
      FenceCount(SplitLines(JoinEach(groups)[i])) % 2 == 1 <==>
        i == |groups| - 1 && blocks != [] && OpenBlock(blocks[|blocks| - 1]) && |blocks[|blocks| - 1]| <= maxLen
  {
    hide Blocks, PackedGroups, BlockList, OpenBlock, FenceCount, SplitLines;
    var groups, blocks := PackedGroups(Blocks(text), maxLen), Blocks(text);
    BlocksHaveShape(text);
    PackingKeepsFittingBlocks(blocks, maxLen);
    GroupEndsOpen(blocks, groups, maxLen, i);
    FencesOfPrint(groups[i]);
  }

  lemma {:induction false} InFlatten(groups: seq<seq<Text>>, i: nat, b: Text)
    requires i < |groups| && b in groups[i]
    ensures b in Flatten(groups)
  {
    if i == 0 {
    } else {
      InFlatten(groups[1..], i - 1, b);
    }
  }

  lemma {:induction false} LastFitting(blocks: seq<Text>, maxLen: nat)
    requires blocks != [] && |blocks[|blocks| - 1]| <= maxLen
    ensures var f := FittingBlocks(blocks, maxLen); f != [] && f[|f| - 1] == blocks[|blocks| - 1]
    decreases |blocks|
  {
    var b, rest := blocks[0], blocks[1..];
    assert blocks == [b] + rest;
    assert FittingBlocks([], maxLen) == [];
    ByFitCons(b, rest, maxLen);
    hide FittingBlocks;
    if rest == [] {
    } else {
      LastFitting(rest, maxLen);
    }
  }

  lemma {:induction false} LastOfFlatten(groups: seq<seq<Text>>)
    requires groups != [] && forall j :: 0 <= j < |groups| ==> groups[j] != []
    ensures var f, g := Flatten(groups), groups[|groups| - 1]; f != [] && f[|f| - 1] == g[|g| - 1]
  {
    if |groups| > 1 {
      LastOfFlatten(groups[1..]);
    } else {
      assert Flatten(groups) == groups[0] + [];
    }
  }

  // ----- Replies -----

  /** Every message of a reply starts with the whole header. */
  lemma EveryMessageHasHeader(header: Text, body: Text, maxLen: int)
    ensures var messages := WithHeader(header, ReplyBodies(header, body, maxLen));
      messages != [] && forall i :: 0 <= i < |messages| ==> header + PARAGRAPH_BREAK <= messages[i]
  {
  }

  lemma AtMostOneSegment(blocks: seq<Text>, maxLen: nat)
    requires maxLen >= 1 && |Packed(blocks, maxLen)| <= 1
    ensures Fits(blocks, maxLen)
  {
    var over := Oversized(blocks, maxLen);
    var h := Greedy([], blocks, maxLen);
    GreedyIsPartition([], blocks, maxLen);
    assert [] + blocks == blocks;
    PartitionCount(h, blocks, maxLen);
    OversizedAre(blocks, maxLen);
    ChopAllCount(over, maxLen, |PackedGroups(blocks, maxLen)|, |over|);
    assert over == [] && |h| <= 1;
    if h != [] {
      assert h == [h[0]] && Flatten(h) == h[0] + Flatten([]);
      assert blocks == h[0];
      assert Fitting(h, maxLen) == (if Fits(h[0], maxLen) then [h[0]] else []) + [];
    }
  }

  /** The blocks fill at most one segment exactly when they fit one segment together. */
  lemma OneSegment(blocks: seq<Text>, maxLen: nat)
    requires maxLen >= 1 && NonEmptyBlocks(blocks)
    ensures |Packed(blocks, maxLen)| <= 1 <==> Fits(blocks, maxLen)
  {
    if Fits(blocks, maxLen) {
      AllFit(blocks, maxLen);
      if blocks != [] {
        OneGroupPartition(blocks, maxLen);
        GreedyIsOptimal(blocks, [blocks], maxLen);
        assert Fitting([blocks], maxLen) == [blocks] + [];
      }
    }
    if |Packed(blocks, maxLen)| <= 1 {
      AtMostOneSegment(blocks, maxLen);
    }
  }

  /**
   * When a message of a reply exceeds the limit: exactly when the whole reply
   * does, and either the header leaves no room for a body, or the body without
   * its surplus blank space fits one segment and is then sent unsplit.
   */
  lemma WhenRepliesExceedLimit(header: Text, body: Text, maxLen: int)
    ensures var messages := WithHeader(header, ReplyBodies(header, body, maxLen));
      (exists i :: 0 <= i < |messages| && |messages[i]| > maxLen) <==>
        && |header| + 2 + |body| > maxLen
        && (maxLen <= |header| + 2 || |Join(Blocks(body), PARAGRAPH_BREAK)| <= maxLen - (|header| + 2))
  {
    var bodyMaxLen := maxLen - (|header| + 2);
    BodiesExceedLimit(header, body, maxLen);
    assert |PARAGRAPH_BREAK| == 2;
    var bodies := ReplyBodies(header, body, maxLen);
    var messages := WithHeader(header, bodies);
    if i :| 0 <= i < |bodies| && |bodies[i]| > bodyMaxLen {
      assert |messages[i]| > maxLen;
    }
  }

  lemma BodiesExceedLimit(header: Text, body: Text, maxLen: int)
    ensures var bodyMaxLen := maxLen - (|header| + 2);
      var bodies := ReplyBodies(header, body, maxLen);
      (exists i :: 0 <= i < |bodies| && |bodies[i]| > bodyMaxLen) <==>
        && |body| > bodyMaxLen
        && (bodyMaxLen <= 0 || |Join(Blocks(body), PARAGRAPH_BREAK)| <= bodyMaxLen)
  {
    var bodyMaxLen := maxLen - (|header| + 2);
    var bodies := ReplyBodies(header, body, maxLen);
    if bodyMaxLen > 0 && |body| > bodyMaxLen {
      BlocksHaveShape(body);
      OneSegment(Blocks(body), bodyMaxLen);
      SegmentsRespectLimit(body, bodyMaxLen);
    }
    if bodies == [body] {
      assert bodies[0] == body;
    }
  }

  function LineFeeds(n: nat): (t: Text)
    ensures |t| == n
  {
    seq(n, _ => LF)
  }

  lemma {:induction false} BlankLinesAreNoBlocks(n: nat)
    ensures SplitLines(LineFeeds(n))[0] == [] && Groups(SplitLines(LineFeeds(n))) == []
  {
    var lines := SplitLines(LineFeeds(n));
    assert Classify([]) == BlankLine;
    if n == 0 {
      assert lines[1..] == [];
    } else {
      BlankLinesAreNoBlocks(n - 1);
      assert LineFeeds(n)[1..] == LineFeeds(n - 1);
      assert lines[1..] == SplitLines(LineFeeds(n - 1));
    }
  }

  lemma LineWithBlankLines(line: Text, n: nat)
    requires Letters(line) && n >= 1
    ensures Blocks(line + LineFeeds(n)) == [line]
  {
    var rest := SplitLines(LineFeeds(n - 1));
    LetterBlock(line);
    SplitSingle(line);
    JoinOfSplit(line);
    assert LineFeeds(n) == [LF] + LineFeeds(n - 1);
    assert line + LineFeeds(n) == line + [LF] + LineFeeds(n - 1);
    SplitAppend(line, LineFeeds(n - 1));
    BlankLinesAreNoBlocks(n - 1);
    assert Classify([]) == BlankLine;
    GroupReadBack([line], rest);
  }

  /** A line that fits behind the header, followed by blank lines up to beyond the limit, is sent as it is. */
  lemma BlankLinesExceedLimit(header: Text, line: Text, n: nat, maxLen: int)
    requires Letters(line) && |header| + 2 + |line| <= maxLen < |header| + 2 + |line| + n
    ensures WithHeader(header, ReplyBodies(header, line + LineFeeds(n), maxLen))
         == [header + PARAGRAPH_BREAK + (line + LineFeeds(n))]
    ensures |header + PARAGRAPH_BREAK + (line + LineFeeds(n))| > maxLen
  {
    assert line != [];
    hide Packed, Blocks, Letters, LineFeeds;
    var body := line + LineFeeds(n);
    LineWithBlankLines(line, n);
    assert Join([line], PARAGRAPH_BREAK) == line;
    SentUnsplit(header, body, maxLen);
    WithHeaderOne(header, body);
  }

  lemma SentUnsplit(header: Text, body: Text, maxLen: int)
    requires |header| + 2 < maxLen && Fits(Blocks(body), maxLen - (|header| + 2))
    ensures ReplyBodies(header, body, maxLen) == [body]
  {
    BlocksHaveShape(body);
    assert NonEmptyBlocks(Blocks(body));
    hide Packed, Blocks, BlockList, NonEmptyBlocks;
    OneSegment(Blocks(body), maxLen - (|header| + 2));
  }

  /** `**claude**:`, the name of the workspace, and a line of three dashes. */
  function ReplyHeader(basename: Text): (header: Text)
    ensures |header| == 15 + |basename|
  {
    [42, 42, 99, 108, 97, 117, 100, 101, 42, 42, 58] + basename + [LF, 45, 45, 45]
  }

  /** A letter and 2000 line feeds under the header of a workspace and the limit 2000: one message beyond the limit. */
  lemma LongReplyExample(basename: Text)
    requires |basename| <= 255
    ensures var messages := WithHeader(ReplyHeader(basename), ReplyBodies(ReplyHeader(basename), [LETTER_A] + LineFeeds(2000), 2000));
      |messages| == 1 && |messages[0]| == 2018 + |basename|
  {
    BlankLinesExceedLimit(ReplyHeader(basename), [LETTER_A], 2000, 2000);
  }
}
