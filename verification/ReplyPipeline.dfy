/**
 * The way of the assistant's text to the user: a batcher collects it, every
 * flushed chunk is split under the session's header, and each part is sent.
 */
module ReplyPipeline {
  import opened JsStrings
  import opened MarkdownBlocks
  import opened MarkdownLaws
  import opened Packing
  import opened PackingLaws
  import opened SplitReply
  import opened StreamingBatching

  /** The limit `splitLongReply` uses when none is given. */
  const MESSAGE_LIMIT := 2000

  /** The text of a chunk as the user reads it, without headers and labels. */
  function ReceivedChunk(header: Text, chunk: Text): seq<Text> {
    var bodyMaxLen := MESSAGE_LIMIT - (|header| + 2);
    if bodyMaxLen <= 0 || |chunk| <= bodyMaxLen || |SplitMessage(chunk, bodyMaxLen)| <= 1 then [chunk]
    else Received(chunk, bodyMaxLen)
  }

  function ReceivedAll(header: Text, chunks: seq<Text>): seq<Text> {
    if chunks == [] then []
    else ReceivedAll(header, chunks[..|chunks| - 1]) + ReceivedChunk(header, chunks[|chunks| - 1])
  }

  /** `body` is `part`, alone or behind a label that shows the number `n`. */
  ghost predicate ShownAs(body: Text, part: Text, n: nat) {
    body == part || exists m: nat :: body == Label(n, m) + part
  }

  function PackedParts(blocks: seq<Text>, maxLen: nat): seq<Text>
    requires maxLen >= 1
  {
    JoinEach(PackedGroups(blocks, maxLen)) + Payloads(ChoppedPieces(blocks, maxLen))
  }

  /** A packed segment is sent as it is, a chopped one behind a label with its position or, for want of room, none. */
  lemma PackedShown(blocks: seq<Text>, maxLen: nat, i: nat)
    requires maxLen >= 1 && i < |Packed(blocks, maxLen)|
    ensures |PackedParts(blocks, maxLen)| == |Packed(blocks, maxLen)|
    ensures i < |PackedGroups(blocks, maxLen)| ==> Packed(blocks, maxLen)[i] == PackedParts(blocks, maxLen)[i]
    ensures ShownAs(Packed(blocks, maxLen)[i], PackedParts(blocks, maxLen)[i], i + 1)
  {
    hide PackedGroups, Oversized, ChopAll, Label;
    var groups, over := |PackedGroups(blocks, maxLen)|, Oversized(blocks, maxLen);
    var pieces := ChoppedPieces(blocks, maxLen);
    if i >= groups {
      var bound := groups + |pieces| + |over|;
      ChopAllNumbered(over, maxLen, groups, |over|, bound);
      var p := pieces[i - groups];
      assert NumberedPiece(p, groups + 1 + (i - groups), bound, maxLen);
      var m: nat :| m <= bound && p.prefix == LabelIfRoom(i + 1, m, maxLen);
      SegmentOfPiece(blocks, maxLen, i);
      assert [] + p.payload == p.payload;
    }
  }

  /** The parts read are the bodies of the messages sent; only in front of a chopped part stands a label with its position. */
  lemma ReceivedAreBodies(header: Text, chunk: Text, i: nat)
    requires i < |ReplyBodies(header, chunk, 2000)|
    ensures |ReceivedChunk(header, chunk)| == |ReplyBodies(header, chunk, 2000)|
    ensures ShownAs(ReplyBodies(header, chunk, 2000)[i], ReceivedChunk(header, chunk)[i], i + 1)
  {
    hide Packed, PackedGroups, ChoppedPieces, Blocks, Label;
    var bodyMaxLen := MESSAGE_LIMIT - (|header| + 2);
    if bodyMaxLen > 0 && |chunk| > bodyMaxLen && |SplitMessage(chunk, bodyMaxLen)| > 1 {
      PackedShown(Blocks(chunk), bodyMaxLen, i);
    }
  }

  lemma ChunkConserves(header: Text, chunk: Text)
    ensures multiset(Visible(Concat(ReceivedChunk(header, chunk)))) == multiset(Visible(chunk))
  {
    hide SplitMessage, Received, Visible;
    var bodyMaxLen := MESSAGE_LIMIT - (|header| + 2);
    assert [chunk][1..] == [] && chunk + [] == chunk;
    if bodyMaxLen > 0 {
      SplittingConserves(chunk, bodyMaxLen);
    }
  }

  lemma {:induction false} ChunksConserve(header: Text, chunks: seq<Text>)
    ensures multiset(Visible(Concat(ReceivedAll(header, chunks)))) == multiset(Visible(Concat(chunks)))
  {
    hide ReceivedChunk, Visible, Concat;
    if chunks == [] {
    } else {
      var before, last := chunks[..|chunks| - 1], chunks[|chunks| - 1];
      ChunksConserve(header, before);
      ChunkConserves(header, last);
      VisibleOfParts(ReceivedAll(header, before), ReceivedChunk(header, last));
      assert chunks == before + [last];
      VisibleOfParts(before, [last]);
      VisibleOfOne(last);
    }
  }

  /**
   * For every run of a session's batcher that ends, as sessions do, with a
   * flush and a destroy: the user reads exactly the visible characters the
   * assistant produced, none lost and none twice, whatever the timing of
   * flushes and however the chunks had to be split.
   */
  lemma EverythingArrives(header: Text, opts: Options, start: int, events: seq<Event>, now: int)
    requires Destroy !in events
    ensures var flushed := Run(Initial(start), opts, events + [FlushCall(now), Destroy]).flushed;
      multiset(Visible(Concat(ReceivedAll(header, flushed)))) == multiset(Visible(AcceptedText(events)))
  {
    hide Run, ReceivedAll, Visible;
    FlushThenDestroyDeliversAll(opts, start, events, now);
    ChunksConserve(header, Run(Initial(start), opts, events + [FlushCall(now), Destroy]).flushed);
  }

  /** No part of `chunk` is sent before a part that stands ahead of it. */
  predicate KeepsOrder(header: Text, chunk: Text) {
    var bodyMaxLen := MESSAGE_LIMIT - (|header| + 2);
    bodyMaxLen > 0 && |chunk| > bodyMaxLen ==> OversizedComeLast(Blocks(chunk), bodyMaxLen)
  }

  lemma ChunkInOrder(header: Text, chunk: Text)
    requires KeepsOrder(header, chunk)
    ensures Visible(Concat(ReceivedChunk(header, chunk))) == Visible(chunk)
  {
    hide SplitMessage, Received, Visible;
    var bodyMaxLen := MESSAGE_LIMIT - (|header| + 2);
    assert [chunk][1..] == [] && chunk + [] == chunk;
    if bodyMaxLen > 0 && |chunk| > bodyMaxLen {
      OrderKept(chunk, bodyMaxLen);
    }
  }

  lemma {:induction false} ChunksInOrder(header: Text, chunks: seq<Text>)
    requires forall i :: 0 <= i < |chunks| ==> KeepsOrder(header, chunks[i])
    ensures Visible(Concat(ReceivedAll(header, chunks))) == Visible(Concat(chunks))
  {
    hide ReceivedChunk, Visible, KeepsOrder, Concat;
    if chunks == [] {
    } else {
      var before, last := chunks[..|chunks| - 1], chunks[|chunks| - 1];
      ChunksInOrder(header, before);
      ChunkInOrder(header, last);
      VisibleOfParts(ReceivedAll(header, before), ReceivedChunk(header, last));
      assert chunks == before + [last];
      VisibleOfParts(before, [last]);
      VisibleOfOne(last);
    }
  }

  /** When in no chunk an oversized block precedes one that fits, the text also arrives in its own order. */
  lemma EverythingArrivesInOrder(header: Text, opts: Options, start: int, events: seq<Event>, now: int)
    requires Destroy !in events
    requires var flushed := Run(Initial(start), opts, events + [FlushCall(now), Destroy]).flushed;
      forall i :: 0 <= i < |flushed| ==> KeepsOrder(header, flushed[i])
    ensures var flushed := Run(Initial(start), opts, events + [FlushCall(now), Destroy]).flushed;
      Visible(Concat(ReceivedAll(header, flushed))) == Visible(AcceptedText(events))
  {
    hide Run, ReceivedAll, Visible;
    FlushThenDestroyDeliversAll(opts, start, events, now);
    ChunksInOrder(header, Run(Initial(start), opts, events + [FlushCall(now), Destroy]).flushed);
  }
}
