/**
 * Splitting a reply into markdown blocks.
 *
 * `SplitMarkdownBlocks` is the line automaton of the adapter.  `Groups` is an
 * independent maximal-munch grammar over lines: a fence runs through the next
 * fence line, a table or a paragraph is a maximal run of its kind of line.
 */
module MarkdownBlocks {
  import opened JsStrings

  const FENCE_MARK: Text := [BACKTICK, BACKTICK, BACKTICK]
  const PARAGRAPH_BREAK: Text := [LF, LF]

  datatype LineKind = FenceLine | BlankLine | RowLine | ProseLine

  predicate IsFence(line: Text) {
    FENCE_MARK <= Trim(line)
  }

  predicate IsRow(line: Text) {
    var t := TrimStart(Trim(line));
    t != [] && t[0] == PIPE
  }

  function Classify(line: Text): LineKind {
    if IsFence(line) then FenceLine
    else if Trim(line) == [] then BlankLine
    else if IsRow(line) then RowLine
    else ProseLine
  }

  // ----- The grammar -----

  /** How many lines there are up to and including the next fence line. */
  function UntilFence(lines: seq<Text>): (n: nat)
    ensures n <= |lines|
  {
    if lines == [] then 0
    else if IsFence(lines[0]) then 1
    else 1 + UntilFence(lines[1..])
  }

  function RunLength(kind: LineKind, lines: seq<Text>): (n: nat)
    ensures n <= |lines|
  {
    if lines != [] && Classify(lines[0]) == kind then 1 + RunLength(kind, lines[1..]) else 0
  }

  function GroupLength(lines: seq<Text>): (n: nat)
    requires lines != [] && Classify(lines[0]) != BlankLine
    ensures 0 < n <= |lines|
  {
    if IsFence(lines[0]) then 1 + UntilFence(lines[1..])
    else RunLength(Classify(lines[0]), lines)
  }

  function Groups(lines: seq<Text>): seq<seq<Text>> {
    if lines == [] then []
    else if Classify(lines[0]) == BlankLine then Groups(lines[1..])
    else
      var n := GroupLength(lines);
      [lines[..n]] + Groups(lines[n..])
  }

  function BlockText(group: seq<Text>): Text {
    Trim(JoinLines(group))
  }

  function BlockTexts(groups: seq<seq<Text>>): (blocks: seq<Text>)
    ensures |blocks| == |groups|
    ensures forall i :: 0 <= i < |groups| ==> blocks[i] == BlockText(groups[i])
  {
    seq(|groups|, i requires 0 <= i < |groups| => BlockText(groups[i]))
  }

  /** The blocks of `text` according to the grammar. */
  function Blocks(text: Text): seq<Text> {
    if text == [] then [] else BlockTexts(Groups(SplitLines(text)))
  }

  // ----- The automaton -----

  /** How many lines of `rest` still belong to the group that is open. */
  function Remaining(inCodeBlock: bool, inTable: bool, rest: seq<Text>): (n: nat)
    ensures n <= |rest|
  {
    if inCodeBlock then UntilFence(rest) else RunLength(if inTable then RowLine else ProseLine, rest)
  }

  /** What the automaton still has to deliver when `current` is open and `rest` is unread. */
  ghost function Resume(current: seq<Text>, inCodeBlock: bool, inTable: bool, rest: seq<Text>): seq<seq<Text>> {
    if current == [] then Groups(rest)
    else
      var n := Remaining(inCodeBlock, inTable, rest);
      [current + rest[..n]] + Groups(rest[n..])
  }

  /** All blocks of the whole text, as seen from the middle of the scan. */
  ghost function Outcome(blocks: seq<Text>, current: seq<Text>, inCodeBlock: bool, inTable: bool,
                         rest: seq<Text>): seq<Text>
  {
    blocks + BlockTexts(Resume(current, inCodeBlock, inTable, rest))
  }

  /** The closure `flush`: deliver the open group, if there is one. */
  function Flush(blocks: seq<Text>, current: seq<Text>): seq<Text> {
    if current != [] then blocks + [Trim(JoinLines(current))] else blocks
  }

  /** Flushing between two groups does not change the outcome. */
  lemma FlushKeepsOutcome(blocks: seq<Text>, current: seq<Text>, inTable: bool, rest: seq<Text>)
    requires current != [] ==> RunLength(if inTable then RowLine else ProseLine, rest) == 0
    ensures Outcome(blocks, current, false, inTable, rest) == Outcome(Flush(blocks, current), [], false, false, rest)
  {
    if current != [] {
      assert current + rest[..0] == current;
      assert rest[0..] == rest;
    }
  }

  lemma ResumeOpen(current: seq<Text>, inCodeBlock: bool, inTable: bool, rest: seq<Text>)
    requires current != []
    ensures var n := Remaining(inCodeBlock, inTable, rest);
      Resume(current, inCodeBlock, inTable, rest) == [current + rest[..n]] + Groups(rest[n..])
  {
  }

  /** Moving the first line of `rest` over does not change the group that is read and what follows it. */
  lemma MoveLine(current: seq<Text>, rest: seq<Text>, n: nat)
    requires n < |rest|
    ensures current + rest[..n + 1] == current + [rest[0]] + rest[1..][..n]
    ensures rest[n + 1..] == rest[1..][n..]
  {
    assert rest[..n + 1] == [rest[0]] + rest[1..][..n];
    assert current + ([rest[0]] + rest[1..][..n]) == current + [rest[0]] + rest[1..][..n];
  }

  /** A line that opens a group. */
  lemma PushOpens(inCodeBlock: bool, inTable: bool, rest: seq<Text>)
    requires rest != [] && inCodeBlock == IsFence(rest[0])
    requires !inCodeBlock ==> Classify(rest[0]) == if inTable then RowLine else ProseLine
    ensures Groups(rest) == Resume([rest[0]], inCodeBlock, inTable, rest[1..])
  {
    var n := Remaining(inCodeBlock, inTable, rest[1..]);
    assert GroupLength(rest) == n + 1;
    assert Groups(rest) == [rest[..n + 1]] + Groups(rest[n + 1..]);
    hide Groups, Remaining, Resume;
    MoveLine([], rest, n);
    assert [] + rest[..n + 1] == rest[..n + 1] && [] + [rest[0]] == [rest[0]];
    ResumeOpen([rest[0]], inCodeBlock, inTable, rest[1..]);
  }

  /** A line that continues the open group. */
  lemma PushContinues(current: seq<Text>, inCodeBlock: bool, inTable: bool, rest: seq<Text>)
    requires rest != [] && current != []
    requires if inCodeBlock then !IsFence(rest[0]) else Classify(rest[0]) == if inTable then RowLine else ProseLine
    ensures Resume(current, inCodeBlock, inTable, rest) == Resume(current + [rest[0]], inCodeBlock, inTable, rest[1..])
  {
    var n := Remaining(inCodeBlock, inTable, rest[1..]);
    assert Remaining(inCodeBlock, inTable, rest) == n + 1;
    hide Groups, Remaining, Resume;
    MoveLine(current, rest, n);
    ResumeOpen(current, inCodeBlock, inTable, rest);
    ResumeOpen(current + [rest[0]], inCodeBlock, inTable, rest[1..]);
  }

  /** The line that opens a group, or that continues it, moves into `current`. */
  lemma PushKeepsOutcome(blocks: seq<Text>, current: seq<Text>, inCodeBlock: bool, inTable: bool, rest: seq<Text>)
    requires rest != []
    requires if current == [] then inCodeBlock == IsFence(rest[0]) else inCodeBlock ==> !IsFence(rest[0])
    requires !inCodeBlock ==> Classify(rest[0]) == if inTable then RowLine else ProseLine
    ensures Outcome(blocks, current, inCodeBlock && current != [], inTable, rest)
         == Outcome(blocks, current + [rest[0]], inCodeBlock, inTable, rest[1..])
  {
    hide Groups, Classify, IsFence;
    if current == [] {
      assert Resume([], false, inTable, rest) == Groups(rest);
      hide Resume;
      assert [] + [rest[0]] == [rest[0]];
      PushOpens(inCodeBlock, inTable, rest);
    } else {
      hide Resume;
      PushContinues(current, inCodeBlock, inTable, rest);
    }
  }

  /** A fence line read inside a fenced block closes it. */
  lemma CloseKeepsOutcome(blocks: seq<Text>, current: seq<Text>, rest: seq<Text>)
    requires current != [] && rest != [] && IsFence(rest[0])
    ensures Outcome(blocks, current, true, false, rest)
         == Outcome(Flush(blocks, current + [rest[0]]), [], false, false, rest[1..])
  {
    assert UntilFence(rest) == 1;
    assert current + rest[..1] == current + [rest[0]];
    BlockTextsPrepend(current + [rest[0]], Groups(rest[1..]));
  }

  lemma BlockTextsPrepend(group: seq<Text>, groups: seq<seq<Text>>)
    ensures BlockTexts([group] + groups) == [BlockText(group)] + BlockTexts(groups)
  {
  }

  lemma OutcomeAtStart(lines: seq<Text>)
    ensures Outcome([], [], false, false, lines[0..]) == BlockTexts(Groups(lines))
  {
  }

  lemma OutcomeAtEnd(blocks: seq<Text>)
    ensures Outcome(blocks, [], false, false, []) == blocks
  {
  }

  method SplitMarkdownBlocks(text: Text) returns (blocks: seq<Text>)
    ensures blocks == Blocks(text)
  {
    if text == [] {
      return [];
    }
    blocks := [];
    var lines := SplitLines(text);
    var current: seq<Text> := [];
    var inCodeBlock := false;
    var inTable := false;
    ghost var all := BlockTexts(Groups(lines));
    hide Outcome, Groups, Trim;
    OutcomeAtStart(lines);

    for i := 0 to |lines|
      invariant inCodeBlock ==> current != [] && !inTable
      invariant inTable ==> current != []
      invariant Outcome(blocks, current, inCodeBlock, inTable, lines[i..]) == all
    {
      var rawLine := lines[i];
      var trimmed := Trim(rawLine);
      ghost var rest := lines[i..];
      assert rest[0] == rawLine && rest[1..] == lines[i + 1..];

      if FENCE_MARK <= trimmed {
        if !inCodeBlock {
          FlushKeepsOutcome(blocks, current, inTable, rest);
          blocks, current := Flush(blocks, current), [];
          inTable := false;
          PushKeepsOutcome(blocks, [], true, false, rest);
        } else {
          CloseKeepsOutcome(blocks, current, rest);
        }
        current := current + [rawLine];
        inCodeBlock := !inCodeBlock;
        if !inCodeBlock {
          blocks, current := Flush(blocks, current), [];
        }
        continue;
      }

      if inCodeBlock {
        PushKeepsOutcome(blocks, current, true, false, rest);
        current := current + [rawLine];
        continue;
      }

      if trimmed == [] {
        FlushKeepsOutcome(blocks, current, inTable, rest);
        blocks, current := Flush(blocks, current), [];
        inTable := false;
        continue;
      }

      if IsRow(rawLine) {
        if !inTable {
          FlushKeepsOutcome(blocks, current, false, rest);
          blocks, current := Flush(blocks, current), [];
          inTable := true;
        }
        PushKeepsOutcome(blocks, current, false, true, rest);
        current := current + [rawLine];
        continue;
      }

      if inTable {
        FlushKeepsOutcome(blocks, current, true, rest);
        blocks, current := Flush(blocks, current), [];
        inTable := false;
      }
      PushKeepsOutcome(blocks, current, false, false, rest);
      current := current + [rawLine];
    }

    FlushKeepsOutcome(blocks, current, inTable, []);
    blocks := Flush(blocks, current);
    OutcomeAtEnd(blocks);
  }
}
