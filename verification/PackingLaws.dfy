/**
 * Laws of packing: nothing is lost, every segment respects the limit, greedy
 * grouping is optimal, and what the `[N/M] ` labels really say.
 */
module PackingLaws {
  import opened Wrappers
  import opened JsStrings
  import opened MarkdownBlocks
  import opened Packing

  function Flatten<T>(parts: seq<seq<T>>): seq<T> {
    if parts == [] then [] else parts[0] + Flatten(parts[1..])
  }

  lemma {:induction false} FlattenAppend<T>(a: seq<seq<T>>, b: seq<seq<T>>)
    ensures Flatten(a + b) == Flatten(a) + Flatten(b)
  {
    if a == [] {
      assert a + b == b;
    } else {
      assert (a + b)[1..] == a[1..] + b;
      FlattenAppend(a[1..], b);
    }
  }

  // ----- Partitions -----

  /** A group that can be sent: it fits, or it is a single block that fits nowhere. */
  ghost predicate Sendable(group: seq<Text>, maxLen: int) {
    group != [] && (Fits(group, maxLen) || |group| == 1)
  }

  /** `h` cuts `blocks` into consecutive sendable groups. */
  ghost predicate Partition(h: seq<seq<Text>>, blocks: seq<Text>, maxLen: int) {
    Flatten(h) == blocks && forall i :: 0 <= i < |h| ==> Sendable(h[i], maxLen)
  }

  lemma GroupPartJoin(a: seq<Text>, m: seq<Text>, b: seq<Text>)
    ensures |Join(m, PARAGRAPH_BREAK)| <= |Join(a + m + b, PARAGRAPH_BREAK)|
  {
    if m != [] {
      if a != [] {
        JoinAppend(a, m, PARAGRAPH_BREAK);
      } else {
        assert a + m == m;
      }
      if b != [] {
        JoinAppend(a + m, b, PARAGRAPH_BREAK);
      } else {
        assert a + m + b == a + m;
      }
    }
  }

  lemma PartitionAppend(a: seq<seq<Text>>, x: seq<Text>, b: seq<seq<Text>>, y: seq<Text>, maxLen: int)
    requires Partition(a, x, maxLen) && Partition(b, y, maxLen)
    ensures Partition(a + b, x + y, maxLen)
  {
    FlattenAppend(a, b);
  }

  lemma OneGroupPartition(group: seq<Text>, maxLen: int)
    requires Sendable(group, maxLen)
    ensures Partition([group], group, maxLen)
  {
  }

  lemma {:induction false} GreedyIsPartition(current: seq<Text>, rest: seq<Text>, maxLen: int)
    requires current != [] ==> Fits(current, maxLen)
    ensures Partition(Greedy(current, rest, maxLen), current + rest, maxLen)
    decreases |rest|
  {
    if current != [] {
      OneGroupPartition(current, maxLen);
    }
    var closed := if current == [] then [] else [current];
    assert Partition(closed, current, maxLen);
    if rest == [] {
      assert current + [] == current;
    } else {
      var b, later := rest[0], rest[1..];
      if Fits(current + [b], maxLen) {
        GreedyIsPartition(current + [b], later, maxLen);
        assert current + rest == current + [b] + later;
      } else if |b| <= maxLen {
        GreedyIsPartition([b], later, maxLen);
        assert rest == [b] + later;
        PartitionAppend(closed, current, Greedy([b], later, maxLen), rest, maxLen);
      } else {
        GreedyIsPartition([], later, maxLen);
        assert [] + later == later;
        OneGroupPartition([b], maxLen);
        PartitionAppend(closed, current, [[b]], [b], maxLen);
        PartitionAppend(closed + [[b]], current + [b], Greedy([], later, maxLen), later, maxLen);
        assert current + rest == current + [b] + later;
      }
    }
  }

  ghost predicate IsSuffix(s: seq<Text>, t: seq<Text>) {
    |s| <= |t| && t[|t| - |s|..] == s
  }

  /** Greedy needs no more groups than any partition, from a point where both start a new group. */
  lemma {:induction false} GreedyFresh(rest: seq<Text>, h: seq<seq<Text>>, maxLen: int)
    requires Partition(h, rest, maxLen)
    ensures |Greedy([], rest, maxLen)| <= |h|
    decreases |rest|, 0
  {
    if rest == [] {
    } else {
      var b := rest[0];
      assert h != [];
      PartitionHead(h, rest, maxLen);
      assert [] + [b] == [b];
      if |b| <= maxLen {
        assert rest == [b] + rest[1..];
        GreedyStaysAhead([b], [b], rest[1..], h, maxLen);
      } else {
        OversizedStandsAlone(h, rest, maxLen);
        GreedyFresh(rest[1..], h[1..], maxLen);
      }
    }
  }

  lemma PartitionHead(h: seq<seq<Text>>, rest: seq<Text>, maxLen: int)
    requires Partition(h, rest, maxLen) && rest != []
    ensures h != [] && h[0] != [] && h[0][0] == rest[0]
    ensures Partition(h[1..], rest[|h[0]|..], maxLen)
  {
  }

  lemma OversizedStandsAlone(h: seq<seq<Text>>, rest: seq<Text>, maxLen: int)
    requires Partition(h, rest, maxLen) && rest != [] && |rest[0]| > maxLen
    ensures h != [] && h[0] == [rest[0]] && Partition(h[1..], rest[1..], maxLen)
  {
  }

  /**
   * The invariant of the comparison.  The partition's current group starts with
   * `q`, greedy's with `current`.  If `current` is a suffix of `q`, greedy never
   * needs more groups; otherwise it had closed one group fewer, and may use it now.
   */
  lemma {:induction false} GreedyStaysAhead(
    current: seq<Text>, q: seq<Text>, rest: seq<Text>, h: seq<seq<Text>>, maxLen: int)
    requires q != [] && h != [] && q <= h[0]
    requires Partition(h, q + rest, maxLen)
    ensures |Greedy(current, rest, maxLen)| <= |h| + (if IsSuffix(current, q) then 0 else 1)
    decreases |rest|, 1
  {
    if rest == [] {
    } else {
      var b, later := rest[0], rest[1..];
      PartitionHead(h, q + rest, maxLen);
      if h[0] == q {
        assert (q + rest)[|h[0]|..] == rest;
        PartitionHead(h[1..], rest, maxLen);
        assert rest == [b] + later;
        if |b| <= maxLen {
          GreedyStaysAhead(if Fits(current + [b], maxLen) then current + [b] else [b], [b], later, h[1..], maxLen);
        } else {
          OversizedStandsAlone(h[1..], rest, maxLen);
          GreedyFresh(later, h[1..][1..], maxLen);
          GroupPartJoin(current, [b], []);
          assert current + [b] + [] == current + [b];
        }
      } else {
        var q' := q + [b];
        assert q + rest == q' + later;
        SameGroup(q, rest, h, maxLen);
        assert Sendable(h[0], maxLen);
        GroupPartJoin(q, [b], h[0][|q'|..]);
        assert h[0] == q + [b] + h[0][|q'|..];
        if IsSuffix(current, q) {
          GroupPartJoin(q[..|q| - |current|], current + [b], h[0][|q'|..]);
          assert h[0] == q[..|q| - |current|] + (current + [b]) + h[0][|q'|..];
        }
        GreedyStaysAhead(if Fits(current + [b], maxLen) then current + [b] else [b], q', later, h, maxLen);
      }
    }
  }

  lemma SameGroup(q: seq<Text>, rest: seq<Text>, h: seq<seq<Text>>, maxLen: int)
    requires h != [] && q != [] && q < h[0] && rest != []
    requires Partition(h, q + rest, maxLen)
    ensures q + [rest[0]] <= h[0] && Fits(h[0], maxLen)
  {
    assert Sendable(h[0], maxLen);
    var all := q + rest;
    assert all == h[0] + Flatten(h[1..]);
    assert all[|q|] == rest[0] == h[0][|q|];
  }

  lemma {:induction false} PartitionCount(h: seq<seq<Text>>, blocks: seq<Text>, maxLen: int)
    requires Partition(h, blocks, maxLen)
    ensures |h| == |Fitting(h, maxLen)| + |Oversized(blocks, maxLen)|
    ensures Flatten(Fitting(h, maxLen)) == FittingBlocks(blocks, maxLen)
    decreases |h|
  {
    if h == [] {
    } else {
      var tail := Flatten(h[1..]);
      assert Sendable(h[0], maxLen);
      PartitionHead(h, blocks, maxLen);
      assert blocks[|h[0]|..] == tail;
      PartitionCount(h[1..], tail, maxLen);
      OversizedAppend(h[0], tail, maxLen);
      FittingBlocksAppend(h[0], tail, maxLen);
      if Fits(h[0], maxLen) {
        AllFit(h[0], maxLen);
      } else {
        assert h[0] == [h[0][0]];
        assert FittingBlocks(h[0], maxLen) == [] + [];
        assert Fitting(h, maxLen) == Fitting(h[1..], maxLen);
      }
    }
  }

  lemma {:induction false} FittingBlocksAppend(a: seq<Text>, b: seq<Text>, maxLen: int)
    ensures FittingBlocks(a + b, maxLen) == FittingBlocks(a, maxLen) + FittingBlocks(b, maxLen)
  {
    if a == [] {
      assert a + b == b;
    } else {
      assert (a + b)[1..] == a[1..] + b;
      FittingBlocksAppend(a[1..], b, maxLen);
    }
  }

  lemma {:induction false} AllFit(group: seq<Text>, maxLen: int)
    requires Fits(group, maxLen)
    ensures Oversized(group, maxLen) == [] && FittingBlocks(group, maxLen) == group
  {
    if group == [] {
    } else {
      GroupPartJoin([], [group[0]], group[1..]);
      GroupPartJoin([group[0]], group[1..], []);
      assert [] + [group[0]] + group[1..] == group && [group[0]] + group[1..] + [] == group;
      AllFit(group[1..], maxLen);
    }
  }

  /**
   * Greedy packing is optimal: however the blocks are cut into consecutive
   * groups that fit (an oversized block standing alone), there are at least as
   * many fitting groups as `packBlocks` makes.
   */
  lemma GreedyIsOptimal(blocks: seq<Text>, h: seq<seq<Text>>, maxLen: nat)
    requires Partition(h, blocks, maxLen)
    ensures |PackedGroups(blocks, maxLen)| <= |Fitting(h, maxLen)|
  {
    GreedyFresh(blocks, h, maxLen);
    GreedyIsPartition([], blocks, maxLen);
    assert [] + blocks == blocks;
    PartitionCount(h, blocks, maxLen);
    PartitionCount(Greedy([], blocks, maxLen), blocks, maxLen);
  }

  lemma {:induction false} FittingFit(h: seq<seq<Text>>, maxLen: int)
    requires forall i :: 0 <= i < |h| ==> h[i] != []
    ensures forall i :: 0 <= i < |Fitting(h, maxLen)| ==> Fits(Fitting(h, maxLen)[i], maxLen) && Fitting(h, maxLen)[i] != []
  {
    if h == [] {
    } else {
      FittingFit(h[1..], maxLen);
    }
  }

  /** The packed groups hold exactly the fitting blocks, in order, and each group fits. */
  lemma PackingKeepsFittingBlocks(blocks: seq<Text>, maxLen: nat)
    ensures Flatten(PackedGroups(blocks, maxLen)) == FittingBlocks(blocks, maxLen)
    ensures forall i :: 0 <= i < |PackedGroups(blocks, maxLen)| ==>
      PackedGroups(blocks, maxLen)[i] != [] && Fits(PackedGroups(blocks, maxLen)[i], maxLen)
  {
    var h := Greedy([], blocks, maxLen);
    GreedyIsPartition([], blocks, maxLen);
    assert [] + blocks == blocks;
    PartitionCount(h, blocks, maxLen);
    forall i | 0 <= i < |h|
      ensures h[i] != []
    {
      assert Sendable(h[i], maxLen);
    }
    FittingFit(h, maxLen);
  }

  // ----- Chopping -----

  /** Chopping one block: the payloads together are the block. */
  lemma {:induction false} ChopConserves(remaining: Text, maxLen: nat, segNum: nat, total: nat, produced: nat)
    requires maxLen >= 1
    ensures Concat(Payloads(Chop(remaining, maxLen, segNum, total, produced))) == remaining
    decreases |remaining|
  {
    if remaining == [] {
    } else {
      var p := NextPiece(remaining, maxLen, segNum, total);
      var rest := remaining[|p.payload|..];
      ChopConserves(rest, maxLen, segNum + 1, Max(total, produced + 1), produced + 1);
      PayloadsPrepend(p, Chop(rest, maxLen, segNum + 1, Max(total, produced + 1), produced + 1));
    }
  }

  /** No piece is empty, and none exceeds the limit. */
  lemma {:induction false} ChopFits(remaining: Text, maxLen: nat, segNum: nat, total: nat, produced: nat, k: nat)
    requires maxLen >= 1 && k < |Chop(remaining, maxLen, segNum, total, produced)|
    ensures var p := Chop(remaining, maxLen, segNum, total, produced)[k];
      p.payload != [] && |p.Segment()| <= maxLen
    decreases |remaining|
  {
    var p := NextPiece(remaining, maxLen, segNum, total);
    if k == 0 {
    } else {
      ChopFits(remaining[|p.payload|..], maxLen, segNum + 1, Max(total, produced + 1), produced + 1, k - 1);
    }
  }

  /** An oversized block yields at least two pieces. */
  lemma ChopAtLeastTwo(block: Text, maxLen: nat, segNum: nat, total: nat, produced: nat)
    requires maxLen >= 1 && |block| > maxLen
    ensures |Chop(block, maxLen, segNum, total, produced)| >= 2
  {
  }

  lemma PayloadsPrepend(p: Piece, next: seq<Piece>)
    ensures Concat(Payloads([p] + next)) == p.payload + Concat(Payloads(next))
  {
    assert Payloads([p] + next) == [p.payload] + Payloads(next);
  }

  function LabelIfRoom(n: nat, m: nat, maxLen: nat): Text {
    if |Label(n, m)| < maxLen then Label(n, m) else []
  }

  /** Piece `k` carries the number `segNum + k` and the running total, unless that label leaves no room. */
  lemma {:induction false} ChopLabels(remaining: Text, maxLen: nat, segNum: nat, total: nat, produced: nat, k: nat)
    requires maxLen >= 1 && produced <= total
    requires k < |Chop(remaining, maxLen, segNum, total, produced)|
    ensures Chop(remaining, maxLen, segNum, total, produced)[k].prefix
         == LabelIfRoom(segNum + k, Max(total, produced + k), maxLen)
    decreases |remaining|
  {
    hide Label;
    var p := NextPiece(remaining, maxLen, segNum, total);
    var rest := remaining[|p.payload|..];
    if k == 0 {
    } else {
      ChopLabels(rest, maxLen, segNum + 1, Max(total, produced + 1), produced + 1, k - 1);
    }
  }

  /**
   * A segment within the limit that shows number `n` and a total of at most
   * `bound`, or shows no label because that one leaves no room.
   */
  ghost predicate NumberedPiece(p: Piece, n: nat, bound: nat, maxLen: nat) {
    && p.payload != []
    && |p.Segment()| <= maxLen
    && exists m: nat :: m <= bound && p.prefix == LabelIfRoom(n, m, maxLen)
  }

  ghost predicate Numbered(pieces: seq<Piece>, first: nat, bound: nat, maxLen: nat) {
    forall k :: 0 <= k < |pieces| ==> NumberedPiece(pieces[k], first + k, bound, maxLen)
  }

  lemma NumberedAppend(a: seq<Piece>, b: seq<Piece>, first: nat, bound: nat, maxLen: nat)
    requires Numbered(a, first, bound, maxLen) && Numbered(b, first + |a|, bound, maxLen)
    ensures Numbered(a + b, first, bound, maxLen)
  {
  }

  lemma ChopNumbered(block: Text, maxLen: nat, segNum: nat, total: nat, bound: nat)
    requires maxLen >= 1 && bound >= total + |Chop(block, maxLen, segNum, total, 0)|
    ensures Numbered(Chop(block, maxLen, segNum, total, 0), segNum, bound, maxLen)
  {
    var pieces := Chop(block, maxLen, segNum, total, 0);
    forall k | 0 <= k < |pieces|
      ensures NumberedPiece(pieces[k], segNum + k, bound, maxLen)
    {
      ChopFits(block, maxLen, segNum, total, 0, k);
      ChopLabels(block, maxLen, segNum, total, 0, k);
      assert Max(total, 0 + k) <= bound;
    }
  }

  /**
   * The number on a chopped segment is its 1-based position in the whole list
   * when `packed` segments precede them, and no chopped segment exceeds the limit.
   */
  lemma {:induction false} ChopAllNumbered(blocks: seq<Text>, maxLen: nat, packed: nat, oversized: nat, bound: nat)
    requires maxLen >= 1
    requires bound >= packed + |ChopAll(blocks, maxLen, packed, oversized)| + oversized
    ensures Numbered(ChopAll(blocks, maxLen, packed, oversized), packed + 1, bound, maxLen)
    decreases |blocks|, 1
  {
    hide Chop, NumberedPiece;
    if blocks == [] {
      assert ChopAll(blocks, maxLen, packed, oversized) == [];
    } else {
      var pieces := Chop(blocks[0], maxLen, packed + 1, packed + oversized, 0);
      var later := ChopAll(blocks[1..], maxLen, packed + |pieces|, oversized);
      assert ChopAll(blocks, maxLen, packed, oversized) == pieces + later;
      NumberedParts(blocks, maxLen, packed, oversized, bound);
      NumberedAppend(pieces, later, packed + 1, bound, maxLen);
    }
  }

  lemma {:induction false} NumberedParts(blocks: seq<Text>, maxLen: nat, packed: nat, oversized: nat, bound: nat)
    requires maxLen >= 1 && blocks != []
    requires bound >= packed + |ChopAll(blocks, maxLen, packed, oversized)| + oversized
    ensures var pieces := Chop(blocks[0], maxLen, packed + 1, packed + oversized, 0);
      var later := ChopAll(blocks[1..], maxLen, packed + |pieces|, oversized);
      Numbered(pieces, packed + 1, bound, maxLen) && Numbered(later, packed + |pieces| + 1, bound, maxLen)
    decreases |blocks|, 0
  {
    hide Chop, Numbered;
    var pieces := Chop(blocks[0], maxLen, packed + 1, packed + oversized, 0);
    ChopNumbered(blocks[0], maxLen, packed + 1, packed + oversized, bound);
    ChopAllNumbered(blocks[1..], maxLen, packed + |pieces|, oversized, bound);
  }

  /** The pieces of each oversized block, block by block. */
  function ChopRuns(blocks: seq<Text>, maxLen: nat, packed: nat, oversized: nat): (runs: seq<seq<Piece>>)
    requires maxLen >= 1
    ensures |runs| == |blocks|
  {
    if blocks == [] then []
    else
      var pieces := Chop(blocks[0], maxLen, packed + 1, packed + oversized, 0);
      [pieces] + ChopRuns(blocks[1..], maxLen, packed + |pieces|, oversized)
  }

  lemma {:induction false} RunsAreAllPieces(blocks: seq<Text>, maxLen: nat, packed: nat, oversized: nat)
    requires maxLen >= 1
    ensures Flatten(ChopRuns(blocks, maxLen, packed, oversized)) == ChopAll(blocks, maxLen, packed, oversized)
    decreases |blocks|
  {
    if blocks == [] {
    } else {
      hide Chop;
      var pieces := Chop(blocks[0], maxLen, packed + 1, packed + oversized, 0);
      var later := ChopRuns(blocks[1..], maxLen, packed + |pieces|, oversized);
      RunsAreAllPieces(blocks[1..], maxLen, packed + |pieces|, oversized);
      assert ([pieces] + later)[1..] == later;
    }
  }

  /** Each oversized block is exactly the concatenation of its own run of pieces, in order of the blocks. */
  lemma {:induction false} ChopRunsConserve(blocks: seq<Text>, maxLen: nat, packed: nat, oversized: nat, v: nat)
    requires maxLen >= 1 && v < |blocks|
    ensures Concat(Payloads(ChopRuns(blocks, maxLen, packed, oversized)[v])) == blocks[v]
  {
    var pieces := Chop(blocks[0], maxLen, packed + 1, packed + oversized, 0);
    if v == 0 {
      ChopConserves(blocks[0], maxLen, packed + 1, packed + oversized, 0);
    } else {
      ChopRunsConserve(blocks[1..], maxLen, packed + |pieces|, oversized, v - 1);
    }
  }

  /**
   * The label `[N/M] ` of piece `k` of an oversized block has N <= M exactly
   * when fewer pieces of that block precede it than there are oversized blocks.
   */
  lemma LabelWithinTotal(block: Text, maxLen: nat, packed: nat, oversized: nat, k: nat)
    requires maxLen >= 1
    requires k < |Chop(block, maxLen, packed + 1, packed + oversized, 0)|
    ensures var n, m := packed + k + 1, Max(packed + oversized, k);
      && Chop(block, maxLen, packed + 1, packed + oversized, 0)[k].prefix == LabelIfRoom(n, m, maxLen)
      && (n <= m <==> k < oversized)
  {
    ChopLabels(block, maxLen, packed + 1, packed + oversized, 0, k);
    assert Max(packed + oversized, 0 + k) == Max(packed + oversized, k);
  }

  /** How many segments precede the pieces of oversized block `v`, as its run tells. */
  function RunStart(runs: seq<seq<Piece>>, packed: nat, v: nat): nat
    requires v <= |runs|
  {
    packed + |Flatten(runs[..v])|
  }

  /** The 1-based position of piece `k` of run `v` when `packed` segments precede the runs. */
  function NumberAt(runs: seq<seq<Piece>>, packed: nat, v: nat, k: nat): nat
    requires v <= |runs|
  {
    RunStart(runs, packed, v) + k + 1
  }

  /** The total announced on that piece. */
  function TotalAt(runs: seq<seq<Piece>>, packed: nat, v: nat, k: nat): nat
    requires v <= |runs|
  {
    Max(RunStart(runs, packed, v) + |runs|, k)
  }

  predicate LabelledAt(runs: seq<seq<Piece>>, packed: nat, maxLen: nat, v: nat, k: nat)
    requires v < |runs| && k < |runs[v]|
  {
    runs[v][k].prefix == LabelIfRoom(NumberAt(runs, packed, v, k), TotalAt(runs, packed, v, k), maxLen)
  }

  lemma FlattenCons<T>(first: seq<T>, rest: seq<seq<T>>)
    ensures Flatten([first] + rest) == first + Flatten(rest)
  {
    assert ([first] + rest)[1..] == rest;
  }

  lemma {:induction false} ChopRunsAt(blocks: seq<Text>, maxLen: nat, packed: nat, oversized: nat, v: nat)
    requires maxLen >= 1 && v < |blocks|
    ensures var runs := ChopRuns(blocks, maxLen, packed, oversized);
      var before := RunStart(runs, packed, v);
      runs[v] == Chop(blocks[v], maxLen, before + 1, before + oversized, 0)
  {
    hide Chop;
    var runs := ChopRuns(blocks, maxLen, packed, oversized);
    if v == 0 {
      assert Flatten(runs[..0]) == [];
    } else {
      FlattenCons(runs[0], runs[1..][..v - 1]);
      ChopRunsAt(blocks[1..], maxLen, packed + |runs[0]|, oversized, v - 1);
      assert runs[..v] == [runs[0]] + runs[1..][..v - 1];
    }
  }

  lemma PieceLabel(blocks: seq<Text>, maxLen: nat, packed: nat, v: nat, k: nat)
    requires maxLen >= 1 && v < |blocks| && k < |ChopRuns(blocks, maxLen, packed, |blocks|)[v]|
    ensures var runs := ChopRuns(blocks, maxLen, packed, |blocks|);
      && LabelledAt(runs, packed, maxLen, v, k)
      && (NumberAt(runs, packed, v, k) <= TotalAt(runs, packed, v, k) <==> k < |blocks|)
  {
    hide Chop, ChopRuns, RunStart, LabelIfRoom;
    var runs := ChopRuns(blocks, maxLen, packed, |blocks|);
    ChopRunsAt(blocks, maxLen, packed, |blocks|, v);
    LabelWithinTotal(blocks[v], maxLen, RunStart(runs, packed, v), |blocks|, k);
  }

  /** Every piece is labelled with its position and announced total, where that label has room. */
  ghost predicate LabelledInOrder(runs: seq<seq<Piece>>, packed: nat, maxLen: nat) {
    forall v: nat, k: nat :: v < |runs| && k < |runs[v]| ==> LabelledAt(runs, packed, maxLen, v, k)
  }

  /** No label that is printed shows a number above the total beside it. */
  ghost predicate PrintedWithinTotals(runs: seq<seq<Piece>>, packed: nat) {
    forall v: nat, k: nat :: v < |runs| && k < |runs[v]| && runs[v][k].prefix != [] ==>
      NumberAt(runs, packed, v, k) <= TotalAt(runs, packed, v, k)
  }

  // ----- How many pieces, from lengths alone -----

  /** How much of a block goes behind the label `[n/m] `. */
  function Room(n: nat, m: nat, maxLen: nat): (room: nat)
    ensures maxLen >= 1 ==> room >= 1
  {
    if |Label(n, m)| < maxLen then maxLen - |Label(n, m)| else maxLen
  }

  /** How much of a block goes into its first `k` pieces at most. */
  function RoomOf(maxLen: nat, segNum: nat, total: nat, produced: nat, k: nat): nat
    decreases k
  {
    if k == 0 then 0
    else Room(segNum, total, maxLen) + RoomOf(maxLen, segNum + 1, Max(total, produced + 1), produced + 1, k - 1)
  }

  /** How many pieces a block of the given length is cut into. */
  function PiecesFor(length: nat, maxLen: nat, segNum: nat, total: nat, produced: nat): nat
    requires maxLen >= 1
    decreases length
  {
    var room := Room(segNum, total, maxLen);
    if length == 0 then 0
    else if length <= room then 1
    else 1 + PiecesFor(length - room, maxLen, segNum + 1, Max(total, produced + 1), produced + 1)
  }

  lemma NextPieceLength(remaining: Text, maxLen: nat, segNum: nat, total: nat)
    requires remaining != [] && maxLen >= 1
    ensures var room := Room(segNum, total, maxLen);
      |NextPiece(remaining, maxLen, segNum, total).payload| == if |remaining| <= room then |remaining| else room
  {
    hide Label;
  }

  lemma {:induction false} ChopCount(block: Text, maxLen: nat, segNum: nat, total: nat, produced: nat)
    requires maxLen >= 1
    ensures |Chop(block, maxLen, segNum, total, produced)| == PiecesFor(|block|, maxLen, segNum, total, produced)
    decreases |block|
  {
    if block == [] {
    } else {
      NextPieceLength(block, maxLen, segNum, total);
      var p := NextPiece(block, maxLen, segNum, total);
      var rest := block[|p.payload|..];
      hide Room, NextPiece;
      ChopCount(rest, maxLen, segNum + 1, Max(total, produced + 1), produced + 1);
    }
  }

  /** A block is cut into at most `k` pieces exactly when it is no longer than the room in the first `k`. */
  lemma {:induction false} FewPiecesExactlyWhen(
    length: nat, maxLen: nat, segNum: nat, total: nat, produced: nat, k: nat)
    requires maxLen >= 1
    ensures PiecesFor(length, maxLen, segNum, total, produced) <= k <==> length <= RoomOf(maxLen, segNum, total, produced, k)
    decreases k
  {
    var room := Room(segNum, total, maxLen);
    hide Room;
    if k == 0 {
    } else if length > room {
      FewPiecesExactlyWhen(length - room, maxLen, segNum + 1, Max(total, produced + 1), produced + 1, k - 1);
    }
  }

  /** How many segments precede the pieces of oversized block `v`. */
  function SegmentsBefore(blocks: seq<Text>, maxLen: nat, packed: nat, oversized: nat, v: nat): nat
    requires maxLen >= 1 && v <= |blocks|
    decreases v
  {
    if v == 0 then packed
    else
      var before := SegmentsBefore(blocks, maxLen, packed, oversized, v - 1);
      before + PiecesFor(|blocks[v - 1]|, maxLen, before + 1, before + oversized, 0)
  }

  lemma RunCount(blocks: seq<Text>, maxLen: nat, packed: nat, oversized: nat, v: nat)
    requires maxLen >= 1 && v < |blocks|
    ensures var runs := ChopRuns(blocks, maxLen, packed, oversized);
      var start := RunStart(runs, packed, v);
      |runs[v]| == PiecesFor(|blocks[v]|, maxLen, start + 1, start + oversized, 0)
  {
    hide Chop, ChopRuns, RunStart, PiecesFor;
    ChopRunsAt(blocks, maxLen, packed, oversized, v);
    var start := RunStart(ChopRuns(blocks, maxLen, packed, oversized), packed, v);
    ChopCount(blocks[v], maxLen, start + 1, start + oversized, 0);
  }

  lemma NextRunStart(runs: seq<seq<Piece>>, packed: nat, v: nat)
    requires v < |runs|
    ensures RunStart(runs, packed, v + 1) == RunStart(runs, packed, v) + |runs[v]|
  {
    FlattenSnoc(runs[..v], runs[v]);
    assert runs[..v + 1] == runs[..v] + [runs[v]];
  }

  lemma FirstRunStart(runs: seq<seq<Piece>>, packed: nat)
    ensures RunStart(runs, packed, 0) == packed
  {
    assert Flatten(runs[..0]) == [];
  }

  lemma {:induction false} RunStartsAt(blocks: seq<Text>, maxLen: nat, packed: nat, oversized: nat, v: nat)
    requires maxLen >= 1 && v <= |blocks|
    ensures var runs := ChopRuns(blocks, maxLen, packed, oversized);
      RunStart(runs, packed, v) == SegmentsBefore(blocks, maxLen, packed, oversized, v)
    decreases v
  {
    hide ChopRuns, RunStart, PiecesFor;
    var runs := ChopRuns(blocks, maxLen, packed, oversized);
    if v == 0 {
      FirstRunStart(runs, packed);
    } else {
      RunStartsAt(blocks, maxLen, packed, oversized, v - 1);
      RunCount(blocks, maxLen, packed, oversized, v - 1);
      NextRunStart(runs, packed, v - 1);
    }
  }

  lemma FlattenSnoc<T>(parts: seq<seq<T>>, last: seq<T>)
    ensures Flatten(parts + [last]) == Flatten(parts) + last
  {
    FlattenAppend(parts, [last]);
    assert [last][1..] == [] && last + [] == last;
  }

  /** A block sent from position `start` on is longer than what goes behind its first `count` labels. */
  predicate LongerThanRoom(block: Text, maxLen: nat, start: nat, count: nat) {
    |block| > RoomOf(maxLen, start + 1, start + count, 0, count)
  }

  /**
   * Oversized block `v` is longer than what goes behind its first labels, as
   * many as there are oversized blocks, and the next label is still printed.
   */
  predicate CountsPast(blocks: seq<Text>, maxLen: nat, packed: nat, v: nat)
    requires maxLen >= 1 && v < |blocks|
  {
    var before := SegmentsBefore(blocks, maxLen, packed, |blocks|, v);
    && LongerThanRoom(blocks[v], maxLen, before, |blocks|)
    && |Label(before + |blocks| + 1, before + |blocks|)| < maxLen
  }

  lemma LabelGrows(n: nat, m: nat, n': nat, m': nat)
    requires n <= n' && m <= m'
    ensures |Label(n, m)| <= |Label(n', m')|
  {
    DecimalLengthMonotone(n, n');
    DecimalLengthMonotone(m, m');
  }

  lemma ManyPiecesExactlyWhen(block: Text, maxLen: nat, start: nat, count: nat)
    requires maxLen >= 1
    ensures PiecesFor(|block|, maxLen, start + 1, start + count, 0) > count <==> LongerThanRoom(block, maxLen, start, count)
  {
    hide PiecesFor, RoomOf;
    FewPiecesExactlyWhen(|block|, maxLen, start + 1, start + count, 0, count);
  }

  lemma RunIsLong(blocks: seq<Text>, maxLen: nat, packed: nat, v: nat)
    requires maxLen >= 1 && v < |blocks|
    ensures |ChopRuns(blocks, maxLen, packed, |blocks|)[v]| > |blocks| <==>
      LongerThanRoom(blocks[v], maxLen, SegmentsBefore(blocks, maxLen, packed, |blocks|, v), |blocks|)
  {
    hide ChopRuns, RunStart, SegmentsBefore, LongerThanRoom, PiecesFor;
    RunStartsAt(blocks, maxLen, packed, |blocks|, v);
    RunCount(blocks, maxLen, packed, |blocks|, v);
    ManyPiecesExactlyWhen(blocks[v], maxLen, SegmentsBefore(blocks, maxLen, packed, |blocks|, v), |blocks|);
  }

  /** If some printed label of a run is past its total, so is the one of its piece number `|blocks|`, counted from 0. */
  lemma PrintedPast(blocks: seq<Text>, maxLen: nat, packed: nat, v: nat, k: nat)
    requires maxLen >= 1 && v < |blocks|
    requires var runs := ChopRuns(blocks, maxLen, packed, |blocks|);
      k < |runs[v]| && runs[v][k].prefix != [] && NumberAt(runs, packed, v, k) > TotalAt(runs, packed, v, k)
    ensures CountsPast(blocks, maxLen, packed, v)
  {
    var runs := ChopRuns(blocks, maxLen, packed, |blocks|);
    var before := SegmentsBefore(blocks, maxLen, packed, |blocks|, v);
    hide Chop, ChopRuns, RunStart, SegmentsBefore, LongerThanRoom, Label;
    PieceLabel(blocks, maxLen, packed, v, k);
    RunStartsAt(blocks, maxLen, packed, |blocks|, v);
    RunIsLong(blocks, maxLen, packed, v);
    LabelGrows(before + |blocks| + 1, before + |blocks|, NumberAt(runs, packed, v, k), TotalAt(runs, packed, v, k));
  }

  lemma PastIsPrinted(blocks: seq<Text>, maxLen: nat, packed: nat, v: nat)
    requires maxLen >= 1 && v < |blocks| && CountsPast(blocks, maxLen, packed, v)
    ensures !PrintedWithinTotals(ChopRuns(blocks, maxLen, packed, |blocks|), packed)
  {
    var runs: seq<seq<Piece>>, k: nat := ChopRuns(blocks, maxLen, packed, |blocks|), |blocks|;
    var before := SegmentsBefore(blocks, maxLen, packed, |blocks|, v);
    hide Chop, ChopRuns, RunStart, SegmentsBefore, LongerThanRoom;
    RunIsLong(blocks, maxLen, packed, v);
    RunStartsAt(blocks, maxLen, packed, |blocks|, v);
    PieceLabel(blocks, maxLen, packed, v, k);
    assert runs[v][k].prefix == Label(before + |blocks| + 1, before + |blocks|);
    assert NumberAt(runs, packed, v, k) > TotalAt(runs, packed, v, k);
  }

  /**
   * For all blocks: the chopped segments are the runs of the oversized blocks,
   * piece by piece labelled with position and announced total where that label
   * has room.  The labels that are printed all stay within their totals exactly
   * when no oversized block counts past: none is longer than the room behind
   * its first labels, as many as there are oversized blocks, while the next
   * label still has room.
   */
  lemma LabelsWithinTotalsExactlyWhen(blocks: seq<Text>, maxLen: nat)
    requires maxLen >= 1
    ensures var packed, over := |PackedGroups(blocks, maxLen)|, Oversized(blocks, maxLen);
      var runs := ChopRuns(over, maxLen, packed, |over|);
      && Flatten(runs) == ChoppedPieces(blocks, maxLen)
      && LabelledInOrder(runs, packed, maxLen)
      && (PrintedWithinTotals(runs, packed) <==> forall v: nat :: v < |over| ==> !CountsPast(over, maxLen, packed, v))
  {
    hide Chop, ChopRuns, ChopAll, PackedGroups, Oversized, LabelledAt, CountsPast;
    var packed, over := |PackedGroups(blocks, maxLen)|, Oversized(blocks, maxLen);
    var runs := ChopRuns(over, maxLen, packed, |over|);
    RunsAreAllPieces(over, maxLen, packed, |over|);
    forall v: nat, k: nat | v < |runs| && k < |runs[v]|
      ensures LabelledAt(runs, packed, maxLen, v, k)
    {
      PieceLabel(over, maxLen, packed, v, k);
    }
    if v: nat :| v < |over| && CountsPast(over, maxLen, packed, v) {
      PastIsPrinted(over, maxLen, packed, v);
    } else {
      forall v: nat, k: nat | v < |runs| && k < |runs[v]| && runs[v][k].prefix != []
        ensures NumberAt(runs, packed, v, k) <= TotalAt(runs, packed, v, k)
      {
        if NumberAt(runs, packed, v, k) > TotalAt(runs, packed, v, k) {
          PrintedPast(over, maxLen, packed, v, k);
        }
      }
    }
  }

  /** Under a limit of at most 6 no label is ever printed, and so none is past its total. */
  lemma ShortLimitsPrintNoLabels(blocks: seq<Text>, maxLen: nat, v: nat)
    requires 1 <= maxLen <= 6 && v < |Oversized(blocks, maxLen)|
    ensures !CountsPast(Oversized(blocks, maxLen), maxLen, |PackedGroups(blocks, maxLen)|, v)
  {
    var over, packed := Oversized(blocks, maxLen), |PackedGroups(blocks, maxLen)|;
    var before := SegmentsBefore(over, maxLen, packed, |over|, v);
    DecimalDigits(before + |over| + 1);
    DecimalDigits(before + |over|);
  }

  lemma {:induction false} ChopAllCount(blocks: seq<Text>, maxLen: nat, packed: nat, oversized: nat)
    requires maxLen >= 1 && forall i :: 0 <= i < |blocks| ==> |blocks[i]| > maxLen
    ensures |ChopAll(blocks, maxLen, packed, oversized)| >= 2 * |blocks|
  {
    if blocks == [] {
    } else {
      var pieces := Chop(blocks[0], maxLen, packed + 1, packed + oversized, 0);
      ChopAtLeastTwo(blocks[0], maxLen, packed + 1, packed + oversized, 0);
      ChopAllCount(blocks[1..], maxLen, packed + |pieces|, oversized);
    }
  }

  lemma {:induction false} OversizedAre(blocks: seq<Text>, maxLen: int)
    ensures forall i :: 0 <= i < |Oversized(blocks, maxLen)| ==> |Oversized(blocks, maxLen)[i]| > maxLen
  {
    if blocks == [] {
    } else {
      OversizedAre(blocks[1..], maxLen);
    }
  }

  lemma FirstChoppedPiece(blocks: seq<Text>, maxLen: nat, packed: nat, oversized: nat)
    requires maxLen >= 1 && blocks != [] && |blocks[0]| > maxLen
    ensures ChopAll(blocks, maxLen, packed, oversized) != []
    ensures ChopAll(blocks, maxLen, packed, oversized)[0].prefix
         == LabelIfRoom(packed + 1, packed + oversized, maxLen)
  {
  }

  /**
   * The total announced on the first chopped segment is the number of packed
   * groups plus the number of oversized blocks, which is always less than the
   * number of segments that are sent.
   */
  lemma FirstTotalFallsShort(blocks: seq<Text>, maxLen: nat)
    requires maxLen >= 1 && Oversized(blocks, maxLen) != []
    ensures var packed, oversized := |PackedGroups(blocks, maxLen)|, |Oversized(blocks, maxLen)|;
      && ChoppedPieces(blocks, maxLen) != []
      && ChoppedPieces(blocks, maxLen)[0].prefix == LabelIfRoom(packed + 1, packed + oversized, maxLen)
      && packed + oversized < |Packed(blocks, maxLen)|
  {
    hide Chop, ChopAll, PackedGroups, Oversized, Label;
    var over := Oversized(blocks, maxLen);
    var packed := |PackedGroups(blocks, maxLen)|;
    OversizedAre(blocks, maxLen);
    ChopAllCount(over, maxLen, packed, |over|);
    FirstChoppedPiece(over, maxLen, packed, |over|);
  }

  /** A label that counts past its own total: any single oversized block is sent as `[1/1] `, `[2/1] `, and so on. */
  lemma LabelPastTotalExample(block: Text, maxLen: nat)
    requires |block| > maxLen > 6
    ensures |Packed([block], maxLen)| >= 2
    ensures Label(1, 1) <= Packed([block], maxLen)[0] && Label(2, 1) <= Packed([block], maxLen)[1]
  {
    assert [] + [block] == [block] && !Fits([block], maxLen);
    assert Greedy([], [block], maxLen) == [[block]] + Greedy([], [], maxLen);
    assert Fitting([[block]], maxLen) == [] + Fitting([], maxLen);
    assert Oversized([block], maxLen) == [block] + [];
    assert PackedGroups([block], maxLen) == [];
    var pieces := Chop(block, maxLen, 1, 1, 0);
    assert ChopAll([block], maxLen, 0, 1) == pieces + [];
    assert Packed([block], maxLen) == Segments(pieces);
    ChopAtLeastTwo(block, maxLen, 1, 1, 0);
    ChopLabels(block, maxLen, 1, 1, 0, 0);
    ChopLabels(block, maxLen, 1, 1, 0, 1);
    assert |Decimal(1)| == 1 && |Decimal(2)| == 1;
  }

  // ----- Reading a label back -----

  function DigitCount(s: Text): (n: nat)
    ensures n <= |s|
  {
    if s != [] && IsDigit(s[0]) then 1 + DigitCount(s[1..]) else 0
  }

  datatype Labelled = Labelled(n: nat, m: nat, rest: Text)

  lemma {:induction false} LeadingDigits(s: Text)
    ensures forall i :: 0 <= i < DigitCount(s) ==> IsDigit(s[i])
  {
    if s != [] && IsDigit(s[0]) {
      LeadingDigits(s[1..]);
    }
  }

  /** A match of `(\d+)\] ` behind the first number of a label, and what follows it. */
  function ReadTotal(n: nat, b: Text): Option<Labelled> {
    var m := DigitCount(b);
    if m == 0 || !([CLOSE_BRACKET, SPACE] <= b[m..]) then None
    else
      LeadingDigits(b);
      Some(Labelled(n, Value(b[..m]), b[m + 2..]))
  }

  /** A match of `(\d+)\/(\d+)\] ` behind the bracket. */
  function ReadNumbers(a: Text): Option<Labelled> {
    var n := DigitCount(a);
    if n == 0 || n == |a| || a[n] != SLASH then None
    else
      LeadingDigits(a);
      ReadTotal(Value(a[..n]), a[n + 1..])
  }

  /** A match of `^\[(\d+)\/(\d+)\] ` at the start of a segment, and what follows it. */
  function ReadLabel(s: Text): Option<Labelled> {
    if s == [] || s[0] != OPEN_BRACKET then None else ReadNumbers(s[1..])
  }

  /** A segment without its label, if it starts with one. */
  function StripLabel(s: Text): Text {
    match ReadLabel(s)
    case Some(l) => l.rest
    case None => s
  }

  lemma {:induction false} DigitCountExact(digits: Text, rest: Text)
    requires forall i :: 0 <= i < |digits| ==> IsDigit(digits[i])
    requires rest != [] && !IsDigit(rest[0])
    ensures DigitCount(digits + rest) == |digits|
  {
    if digits == [] {
      assert digits + rest == rest;
    } else {
      assert (digits + rest)[1..] == digits[1..] + rest;
      DigitCountExact(digits[1..], rest);
    }
  }

  /** The part of a label after the slash. */
  lemma TotalIsRead(n: nat, m: Text, payload: Text)
    requires m != [] && forall i :: 0 <= i < |m| ==> IsDigit(m[i])
    ensures ReadTotal(n, m + ([CLOSE_BRACKET, SPACE] + payload)) == Some(Labelled(n, Value(m), payload))
  {
    hide DigitCount, Value;
    var tail := [CLOSE_BRACKET, SPACE] + payload;
    DigitCountExact(m, tail);
    assert (m + tail)[..|m|] == m && (m + tail)[|m|..] == tail;
    assert (m + tail)[|m| + 2..] == payload;
  }

  lemma NumbersAreRead(n: Text, m: Text, payload: Text)
    requires n != [] && forall i :: 0 <= i < |n| ==> IsDigit(n[i])
    requires m != [] && forall i :: 0 <= i < |m| ==> IsDigit(m[i])
    ensures ReadNumbers(n + ([SLASH] + (m + ([CLOSE_BRACKET, SPACE] + payload))))
         == Some(Labelled(Value(n), Value(m), payload))
  {
    hide DigitCount, Value, ReadTotal;
    var b := m + ([CLOSE_BRACKET, SPACE] + payload);
    DigitCountExact(n, [SLASH] + b);
    assert (n + ([SLASH] + b))[..|n|] == n && (n + ([SLASH] + b))[|n| + 1..] == b;
    TotalIsRead(Value(n), m, payload);
  }

  /** A label is a bracket, the number, a slash, the total, a bracket and a space. */
  lemma LabelIs(n: nat, m: nat)
    ensures Label(n, m) == [91] + Decimal(n) + [47] + Decimal(m) + [93, 32]
    ensures n < 10 && m < 10 ==> Label(n, m) == [91, 48 + n as CodeUnit, 47, 48 + m as CodeUnit, 93, 32]
  {
    if n < 10 && m < 10 {
      assert Label(n, m) == [91] + [48 + n as CodeUnit] + [47] + [48 + m as CodeUnit] + [93, 32];
    }
  }

  /** A printed label is read back with both its numbers and what it was put in front of. */
  lemma ReadLabelExact(n: nat, m: nat, payload: Text)
    ensures ReadLabel(Label(n, m) + payload) == Some(Labelled(n, m, payload))
  {
    hide ReadNumbers, Value, Decimal;
    DecimalDigits(n);
    DecimalDigits(m);
    ValueOfDecimal(n);
    ValueOfDecimal(m);
    NumbersAreRead(Decimal(n), Decimal(m), payload);
    LabelNested(Decimal(n), Decimal(m), payload);
  }

  lemma LabelNested(n: Text, m: Text, payload: Text)
    ensures [OPEN_BRACKET] + n + [SLASH] + m + [CLOSE_BRACKET, SPACE] + payload
         == [OPEN_BRACKET] + (n + ([SLASH] + (m + ([CLOSE_BRACKET, SPACE] + payload))))
  {
  }

  lemma StripPiece(p: Piece, n: nat, m: nat)
    requires p.prefix == Label(n, m)
    ensures StripLabel(p.Segment()) == p.payload
  {
    ReadLabelExact(n, m, p.payload);
  }

  function StripEach(segments: seq<Text>): (bare: seq<Text>)
    ensures |bare| == |segments|
    ensures forall i :: 0 <= i < |segments| ==> bare[i] == StripLabel(segments[i])
  {
    seq(|segments|, i requires 0 <= i < |segments| => StripLabel(segments[i]))
  }

  lemma PieceStrips(block: Text, maxLen: nat, startIndex: nat, totalSegments: nat, k: nat)
    requires maxLen >= 1 && k < |Chop(block, maxLen, startIndex, totalSegments, 0)|
    requires |Label(startIndex + k, Max(totalSegments, k))| < maxLen
    ensures var p := Chop(block, maxLen, startIndex, totalSegments, 0)[k]; StripLabel(p.Segment()) == p.payload
  {
    ChopLabels(block, maxLen, startIndex, totalSegments, 0, k);
    assert Max(totalSegments, 0 + k) == Max(totalSegments, k);
    StripPiece(Chop(block, maxLen, startIndex, totalSegments, 0)[k], startIndex + k, Max(totalSegments, k));
  }

  /** When every label has room, deleting the labels and joining the segments of a block restores the block. */
  lemma StrippingRestoresBlock(block: Text, maxLen: nat, startIndex: nat, totalSegments: nat)
    requires maxLen >= 1
    requires var pieces := Chop(block, maxLen, startIndex, totalSegments, 0);
      forall k :: 0 <= k < |pieces| ==> |Label(startIndex + k, Max(totalSegments, k))| < maxLen
    ensures Concat(StripEach(Segments(Chop(block, maxLen, startIndex, totalSegments, 0)))) == block
  {
    var pieces := Chop(block, maxLen, startIndex, totalSegments, 0);
    forall k | 0 <= k < |pieces|
      ensures StripLabel(pieces[k].Segment()) == pieces[k].payload
    {
      PieceStrips(block, maxLen, startIndex, totalSegments, k);
    }
    assert StripEach(Segments(pieces)) == Payloads(pieces);
    ChopConserves(block, maxLen, startIndex, totalSegments, 0);
  }
}
