/**
 * Packing markdown blocks into segments of at most `maxLen` code units, and
 * cutting blocks that do not fit into labelled pieces.
 */
module Packing {
  import opened JsStrings
  import opened MarkdownBlocks

  // ----- Greedy grouping -----

  predicate Fits(group: seq<Text>, maxLen: int) {
    |Join(group, PARAGRAPH_BREAK)| <= maxLen
  }

  /** The greedy partition of `current + rest` when the group `current` is already open. */
  function Greedy(current: seq<Text>, rest: seq<Text>, maxLen: int): seq<seq<Text>>
    decreases |rest|
  {
    if rest == [] then
      if current == [] then [] else [current]
    else if Fits(current + [rest[0]], maxLen) then
      Greedy(current + [rest[0]], rest[1..], maxLen)
    else
      var closed := if current == [] then [] else [current];
      if |rest[0]| <= maxLen then
        closed + Greedy([rest[0]], rest[1..], maxLen)
      else
        closed + [[rest[0]]] + Greedy([], rest[1..], maxLen)
  }

  function Fitting(groups: seq<seq<Text>>, maxLen: int): seq<seq<Text>> {
    if groups == [] then []
    else (if Fits(groups[0], maxLen) then [groups[0]] else []) + Fitting(groups[1..], maxLen)
  }

  function JoinEach(groups: seq<seq<Text>>): (segments: seq<Text>)
    ensures |segments| == |groups|
    ensures forall i :: 0 <= i < |groups| ==> segments[i] == Join(groups[i], PARAGRAPH_BREAK)
  {
    seq(|groups|, i requires 0 <= i < |groups| => Join(groups[i], PARAGRAPH_BREAK))
  }

  function Oversized(blocks: seq<Text>, maxLen: int): seq<Text> {
    if blocks == [] then []
    else (if |blocks[0]| > maxLen then [blocks[0]] else []) + Oversized(blocks[1..], maxLen)
  }

  function FittingBlocks(blocks: seq<Text>, maxLen: int): seq<Text> {
    if blocks == [] then []
    else (if |blocks[0]| <= maxLen then [blocks[0]] else []) + FittingBlocks(blocks[1..], maxLen)
  }

  // ----- Labelled pieces -----

  /** `[N/M] ` */
  function Label(n: nat, m: nat): Text {
    [OPEN_BRACKET] + Decimal(n) + [SLASH] + Decimal(m) + [CLOSE_BRACKET, SPACE]
  }

  datatype Piece = Piece(prefix: Text, payload: Text) {
    function Segment(): Text { prefix + payload }
  }

  function Segments(pieces: seq<Piece>): (segments: seq<Text>)
    ensures |segments| == |pieces|
    ensures forall i :: 0 <= i < |pieces| ==> segments[i] == pieces[i].Segment()
  {
    seq(|pieces|, i requires 0 <= i < |pieces| => pieces[i].Segment())
  }

  function Payloads(pieces: seq<Piece>): (payloads: seq<Text>)
    ensures |payloads| == |pieces|
    ensures forall i :: 0 <= i < |pieces| ==> payloads[i] == pieces[i].payload
  {
    seq(|pieces|, i requires 0 <= i < |pieces| => pieces[i].payload)
  }

  function Max(a: nat, b: nat): nat {
    if a > b then a else b
  }

  /** `s.slice(0, n)` and `s.slice(n)` for a non-negative `n`. */
  function Take(s: Text, n: nat): Text {
    if n <= |s| then s[..n] else s
  }

  function Drop(s: Text, n: nat): Text {
    if n <= |s| then s[n..] else []
  }

  /** How much of `remaining` goes behind the label `[segNum/total] `; all of `maxLen` if the label leaves no room. */
  function NextPiece(remaining: Text, maxLen: nat, segNum: nat, total: nat): (p: Piece)
    requires remaining != [] && maxLen >= 1
    ensures p.payload != [] && p.payload <= remaining && |p.Segment()| <= maxLen
  {
    var prefix := Label(segNum, total);
    if maxLen <= |prefix| then Piece([], Take(remaining, maxLen))
    else Piece(prefix, Take(remaining, maxLen - |prefix|))
  }

  /** The pieces still to be cut from `remaining` when `produced` pieces have been cut. */
  function Chop(remaining: Text, maxLen: nat, segNum: nat, total: nat, produced: nat): seq<Piece>
    requires maxLen >= 1
    decreases |remaining|
  {
    if remaining == [] then []
    else
      var p := NextPiece(remaining, maxLen, segNum, total);
      [p] + Chop(remaining[|p.payload|..], maxLen, segNum + 1, Max(total, produced + 1), produced + 1)
  }

  /** The segments cut so far and those still to be cut from `remaining`. */
  ghost function CutOutlook(result: seq<Text>, remaining: Text, maxLen: nat, segNum: nat, total: nat): seq<Text>
    requires maxLen >= 1
  {
    result + Segments(Chop(remaining, maxLen, segNum, total, |result|))
  }

  lemma CutStep(result: seq<Text>, remaining: Text, maxLen: nat, segNum: nat, total: nat)
    requires remaining != [] && maxLen >= 1
    ensures var p := NextPiece(remaining, maxLen, segNum, total);
      CutOutlook(result, remaining, maxLen, segNum, total)
        == CutOutlook(result + [p.Segment()], remaining[|p.payload|..], maxLen, segNum + 1, Max(total, |result| + 1))
  {
  }

  /** The next piece in the three cases the code distinguishes. */
  lemma NextPieceCases(remaining: Text, maxLen: nat, segNum: nat, total: nat)
    requires remaining != [] && maxLen >= 1
    ensures var p := NextPiece(remaining, maxLen, segNum, total);
      var prefix := Label(segNum, total);
      var usable := maxLen - |prefix|;
      var rest := remaining[|p.payload|..];
      && (usable <= 0 ==> p.Segment() == Take(remaining, maxLen) && rest == Drop(remaining, maxLen))
      && (0 < usable && |remaining| <= usable ==> p.Segment() == prefix + remaining && rest == [])
      && (0 < usable < |remaining| ==> p.Segment() == prefix + remaining[..usable] && rest == remaining[usable..])
  {
  }

  lemma CutEnd(result: seq<Text>, maxLen: nat, segNum: nat, total: nat)
    requires maxLen >= 1
    ensures CutOutlook(result, [], maxLen, segNum, total) == result
  {
  }

  method TruncateBlock(block: Text, maxLen: nat, startIndex: nat, totalSegments: nat) returns (result: seq<Text>)
    requires maxLen >= 1
    ensures result == Segments(Chop(block, maxLen, startIndex, totalSegments, 0))
  {
    result := [];
    var remaining := block;
    var segNum := startIndex;
    var total := totalSegments;
    while |remaining| > 0
      invariant CutOutlook(result, remaining, maxLen, segNum, total)
             == Segments(Chop(block, maxLen, startIndex, totalSegments, 0))
      decreases |remaining|
    {
      CutStep(result, remaining, maxLen, segNum, total);
      NextPieceCases(remaining, maxLen, segNum, total);
      var prefix := Label(segNum, total);
      var usable := maxLen - |prefix|;
      if usable <= 0 {
        result := result + [Take(remaining, maxLen)];
        remaining := Drop(remaining, maxLen);
      } else if |remaining| <= usable {
        result := result + [prefix + remaining];
        CutEnd(result, maxLen, segNum + 1, Max(total, |result|));
        break;
      } else {
        result := result + [prefix + remaining[..usable]];
        remaining := remaining[usable..];
      }
      segNum := segNum + 1;
      total := Max(total, |result|);
    }
  }

  /** The pieces of the oversized blocks `blocks` when `packed` segments precede them. */
  function ChopAll(blocks: seq<Text>, maxLen: nat, packed: nat, oversized: nat): seq<Piece>
    requires maxLen >= 1
  {
    if blocks == [] then []
    else
      var pieces := Chop(blocks[0], maxLen, packed + 1, packed + oversized, 0);
      pieces + ChopAll(blocks[1..], maxLen, packed + |pieces|, oversized)
  }

  function PackedGroups(blocks: seq<Text>, maxLen: nat): seq<seq<Text>> {
    Fitting(Greedy([], blocks, maxLen), maxLen)
  }

  function ChoppedPieces(blocks: seq<Text>, maxLen: nat): seq<Piece>
    requires maxLen >= 1
  {
    var oversized := Oversized(blocks, maxLen);
    ChopAll(oversized, maxLen, |PackedGroups(blocks, maxLen)|, |oversized|)
  }

  /** The segments `blocks` are packed into: the fitting groups in order, then the chopped blocks. */
  function Packed(blocks: seq<Text>, maxLen: nat): seq<Text>
    requires maxLen >= 1
  {
    JoinEach(PackedGroups(blocks, maxLen)) + Segments(ChoppedPieces(blocks, maxLen))
  }

  ghost predicate NonEmptyBlocks(blocks: seq<Text>) {
    forall i :: 0 <= i < |blocks| ==> blocks[i] != []
  }

  lemma {:induction false} FittingAppend(a: seq<seq<Text>>, b: seq<seq<Text>>, maxLen: int)
    ensures Fitting(a + b, maxLen) == Fitting(a, maxLen) + Fitting(b, maxLen)
  {
    if a == [] {
      assert a + b == b;
    } else {
      assert (a + b)[1..] == a[1..] + b;
      FittingAppend(a[1..], b, maxLen);
    }
  }

  lemma {:induction false} OversizedAppend(a: seq<Text>, b: seq<Text>, maxLen: int)
    ensures Oversized(a + b, maxLen) == Oversized(a, maxLen) + Oversized(b, maxLen)
  {
    if a == [] {
      assert a + b == b;
    } else {
      assert (a + b)[1..] == a[1..] + b;
      OversizedAppend(a[1..], b, maxLen);
    }
  }

  lemma JoinSnoc(group: seq<Text>, block: Text)
    ensures Join(group + [block], PARAGRAPH_BREAK)
         == if group == [] then block else Join(group, PARAGRAPH_BREAK) + PARAGRAPH_BREAK + block
  {
    if group != [] {
      JoinAppend(group, [block], PARAGRAPH_BREAK);
    }
  }

  /** The open segment is the empty string exactly when its group is empty, because blocks are not. */
  lemma JoinNonEmpty(group: seq<Text>)
    requires NonEmptyBlocks(group)
    ensures Join(group, PARAGRAPH_BREAK) == [] <==> group == []
  {
  }

  /** The segments delivered so far and those still to come from the groups. */
  ghost function Outlook(packed: seq<Text>, group: seq<Text>, rest: seq<Text>, maxLen: int): seq<Text> {
    packed + JoinEach(Fitting(Greedy(group, rest, maxLen), maxLen))
  }

  /** The greedy groups once a block has been read, as groups that are closed and groups still to come. */
  lemma GreedyUnfold(group: seq<Text>, rest: seq<Text>, maxLen: int)
    requires rest != []
    ensures var groups := if group == [] then [] else [group];
      Greedy(group, rest, maxLen) ==
        if Fits(group + [rest[0]], maxLen) then Greedy(group + [rest[0]], rest[1..], maxLen)
        else if |rest[0]| <= maxLen then groups + [] + Greedy([rest[0]], rest[1..], maxLen)
        else groups + [[rest[0]]] + Greedy([], rest[1..], maxLen)
  {
    assert [group] + [] == [group];
  }

  /** Groups that are closed are delivered if they fit. */
  lemma OutlookOfClosed(packed: seq<Text>, group: seq<Text>, alone: seq<seq<Text>>, later: seq<seq<Text>>, maxLen: int)
    requires (group != [] ==> Fits(group, maxLen)) && |alone| <= 1 && (alone != [] ==> !Fits(alone[0], maxLen))
    ensures var groups := if group == [] then [] else [group];
      var closed := if group == [] then packed else packed + [Join(group, PARAGRAPH_BREAK)];
      packed + JoinEach(Fitting(groups + alone + later, maxLen)) == closed + JoinEach(Fitting(later, maxLen))
  {
    hide Fitting, Fits, Join, JoinEach;
    JoinEachOne(group);
    if group == [] {
      FittingGroups([], alone, later, maxLen);
      Reassociate(packed, [], JoinEach(Fitting(later, maxLen)));
    } else {
      FittingGroups([group], alone, later, maxLen);
      Reassociate(packed, [Join(group, PARAGRAPH_BREAK)], JoinEach(Fitting(later, maxLen)));
    }
  }

  lemma JoinEachOne(group: seq<Text>)
    ensures JoinEach([]) == [] && JoinEach([group]) == [Join(group, PARAGRAPH_BREAK)]
  {
  }

  lemma Reassociate(a: seq<Text>, b: seq<Text>, c: seq<Text>)
    ensures a + (b + c) == a + b + c
    ensures b == [] ==> a + (b + c) == a + c
  {
    assert b == [] ==> b + c == c;
  }

  /** When a block does not fit, the open group, if any, is delivered, and the block opens the next one or is set aside. */
  lemma GroupDelivered(packed: seq<Text>, group: seq<Text>, rest: seq<Text>, maxLen: int)
    requires rest != [] && !Fits(group + [rest[0]], maxLen) && (group != [] ==> Fits(group, maxLen))
    ensures var closed := if group == [] then packed else packed + [Join(group, PARAGRAPH_BREAK)];
      Outlook(packed, group, rest, maxLen) ==
        Outlook(closed, if |rest[0]| <= maxLen then [rest[0]] else [], rest[1..], maxLen)
  {
    GreedyUnfold(group, rest, maxLen);
    assert |rest[0]| > maxLen ==> !Fits([rest[0]], maxLen);
    hide Greedy, Fitting, Fits, Join, JoinEach;
    if |rest[0]| <= maxLen {
      OutlookOfClosed(packed, group, [], Greedy([rest[0]], rest[1..], maxLen), maxLen);
    } else {
      OutlookOfClosed(packed, group, [[rest[0]]], Greedy([], rest[1..], maxLen), maxLen);
    }
  }

  /** One block read by the greedy loop, in the terms of the code: `current` is the joined open group. */
  lemma GreedyStep(packed: seq<Text>, group: seq<Text>, rest: seq<Text>, maxLen: int)
    requires rest != [] && NonEmptyBlocks(group) && (group != [] ==> Fits(group, maxLen))
    ensures var current := Join(group, PARAGRAPH_BREAK);
      var candidate := if current != [] then current + PARAGRAPH_BREAK + rest[0] else rest[0];
      var closed := if current != [] then packed + [current] else packed;
      && candidate == Join(group + [rest[0]], PARAGRAPH_BREAK)
      && Outlook(packed, group, rest, maxLen) ==
        if |candidate| <= maxLen then Outlook(packed, group + [rest[0]], rest[1..], maxLen)
        else if |rest[0]| <= maxLen then Outlook(closed, [rest[0]], rest[1..], maxLen)
        else Outlook(closed, [], rest[1..], maxLen)
  {
    JoinNonEmpty(group);
    JoinSnoc(group, rest[0]);
    hide Join, NonEmptyBlocks;
    if Fits(group + [rest[0]], maxLen) {
      GreedyUnfold(group, rest, maxLen);
    } else {
      hide Outlook;
      GroupDelivered(packed, group, rest, maxLen);
    }
  }

  /** One block read, as the list of oversized blocks sees it. */
  lemma OversizedStep(oversized: seq<Text>, rest: seq<Text>, maxLen: int)
    requires rest != []
    ensures |rest[0]| > maxLen ==>
      oversized + [rest[0]] + Oversized(rest[1..], maxLen) == oversized + Oversized(rest, maxLen)
    ensures |rest[0]| <= maxLen ==> Oversized(rest[1..], maxLen) == Oversized(rest, maxLen)
  {
  }

  /** A block is no longer than a group it ends. */
  lemma BlockInGroupFits(group: seq<Text>, block: Text)
    ensures |block| <= |Join(group + [block], PARAGRAPH_BREAK)|
  {
    JoinSnoc(group, block);
  }

  lemma FittingGroups(groups: seq<seq<Text>>, oversized: seq<seq<Text>>, later: seq<seq<Text>>, maxLen: int)
    requires |groups| <= 1 && |oversized| <= 1
    requires groups != [] ==> Fits(groups[0], maxLen)
    requires oversized != [] ==> !Fits(oversized[0], maxLen)
    ensures JoinEach(Fitting(groups + oversized + later, maxLen))
         == JoinEach(groups) + JoinEach(Fitting(later, maxLen))
  {
    FittingAppend(groups + oversized, later, maxLen);
    FittingAppend(groups, oversized, maxLen);
    assert Fitting(oversized, maxLen) == [];
    assert Fitting(groups, maxLen) == groups;
    assert groups + [] == groups;
  }

  /** After the last block the open segment, if any, completes the packed groups. */
  lemma GreedyEnd(packed: seq<Text>, group: seq<Text>, maxLen: int)
    requires NonEmptyBlocks(group) && (group != [] ==> Fits(group, maxLen))
    ensures var current := Join(group, PARAGRAPH_BREAK);
      Outlook(packed, group, [], maxLen) == if current != [] then packed + [current] else packed
  {
    JoinNonEmpty(group);
    if group != [] {
      assert Fitting([group], maxLen) == [group] + [];
    }
  }

  /** The segments cut so far and those still to be cut from the oversized blocks `blocks`. */
  ghost function ChopOutlook(packed: seq<Text>, blocks: seq<Text>, maxLen: nat, oversized: nat): seq<Text>
    requires maxLen >= 1
  {
    packed + Segments(ChopAll(blocks, maxLen, |packed|, oversized))
  }

  lemma ChopAllStart(blocks: seq<Text>, maxLen: nat)
    requires maxLen >= 1
    ensures var oversized := Oversized(blocks, maxLen);
      ChopOutlook(JoinEach(PackedGroups(blocks, maxLen)), oversized, maxLen, |oversized|) == Packed(blocks, maxLen)
  {
  }

  lemma ChopAllEnd(maxLen: nat, oversized: nat)
    requires maxLen >= 1
    ensures forall packed: seq<Text> :: ChopOutlook(packed, [], maxLen, oversized) == packed
  {
  }

  lemma ChopAllStep(packed: seq<Text>, blocks: seq<Text>, maxLen: nat, oversized: nat)
    requires blocks != [] && maxLen >= 1
    ensures var segments := Segments(Chop(blocks[0], maxLen, |packed| + 1, |packed| + oversized, 0));
      ChopOutlook(packed, blocks, maxLen, oversized) == ChopOutlook(packed + segments, blocks[1..], maxLen, oversized)
  {
    var pieces := Chop(blocks[0], maxLen, |packed| + 1, |packed| + oversized, 0);
    var later := ChopAll(blocks[1..], maxLen, |packed| + |pieces|, oversized);
    assert ChopAll(blocks, maxLen, |packed|, oversized) == pieces + later;
    hide Chop, ChopAll;
    SegmentsAppend(pieces, later);
    Reassociate(packed, Segments(pieces), Segments(later));
  }

  lemma SegmentsAppend(a: seq<Piece>, b: seq<Piece>)
    ensures Segments(a + b) == Segments(a) + Segments(b)
  {
  }

  lemma OutlookAtStart(blocks: seq<Text>, maxLen: nat)
    ensures Outlook([], [], blocks, maxLen) == JoinEach(PackedGroups(blocks, maxLen))
  {
  }

  /** The first loop of `packBlocks`: join blocks while they fit, and set oversized ones aside. */
  method PackFitting(blocks: seq<Text>, maxLen: nat) returns (packed: seq<Text>, oversized: seq<Text>)
    requires NonEmptyBlocks(blocks)
    ensures packed == JoinEach(PackedGroups(blocks, maxLen))
    ensures oversized == Oversized(blocks, maxLen)
  {
    packed := [];
    oversized := [];
    var current: Text := [];
    ghost var group: seq<Text> := [];
    ghost var front, back := JoinEach(PackedGroups(blocks, maxLen)), Oversized(blocks, maxLen);
    assert blocks[0..] == blocks;
    OutlookAtStart(blocks, maxLen);
    assert Oversized([], maxLen) == [];
    hide Outlook, Oversized, PackedGroups;

    for i := 0 to |blocks|
      invariant NonEmptyBlocks(group) && current == Join(group, PARAGRAPH_BREAK)
      invariant group != [] ==> Fits(group, maxLen)
      invariant Outlook(packed, group, blocks[i..], maxLen) == front
      invariant oversized + Oversized(blocks[i..], maxLen) == back
    {
      var block := blocks[i];
      GreedyStep(packed, group, blocks[i..], maxLen);
      OversizedStep(oversized, blocks[i..], maxLen);
      BlockInGroupFits(group, block);
      assert blocks[i..][1..] == blocks[i + 1..];

      var candidate := if current != [] then current + PARAGRAPH_BREAK + block else block;
      if |candidate| <= maxLen {
        current := candidate;
        group := group + [block];
        continue;
      }
      if current != [] {
        packed := packed + [current];
        current := [];
      }
      group := [];
      if |block| <= maxLen {
        current := block;
        group := [block];
        continue;
      }
      oversized := oversized + [block];
    }

    GreedyEnd(packed, group, maxLen);
    if current != [] {
      packed := packed + [current];
    }
  }

  /** With a limit below 1 the chopping loop would not end, unless there is nothing to pack. */
  method PackBlocks(blocks: seq<Text>, maxLen: int) returns (packed: seq<Text>)
    requires maxLen >= 1 || blocks == []
    requires NonEmptyBlocks(blocks)
    ensures packed == if blocks == [] then [] else Packed(blocks, maxLen)
  {
    hide Packed, ChopOutlook, Chop, Oversized, PackedGroups;
    if |blocks| == 0 {
      return [];
    }
    var oversized;
    packed, oversized := PackFitting(blocks, maxLen);
    assert oversized[0..] == oversized;
    ChopAllStart(blocks, maxLen);
    ChopAllEnd(maxLen, |oversized|);
    for i := 0 to |oversized|
      invariant ChopOutlook(packed, oversized[i..], maxLen, |oversized|) == Packed(blocks, maxLen)
    {
      ChopAllStep(packed, oversized[i..], maxLen, |oversized|);
      assert oversized[i..][1..] == oversized[i + 1..];
      var totalSegments := |packed| + |oversized|;
      var segments := TruncateBlock(oversized[i], maxLen, |packed| + 1, totalSegments);
      packed := packed + segments;
    }
  }
}
