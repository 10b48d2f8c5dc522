/**
 * What the kinds of lines are, in code units: 96 is a backtick, 124 a vertical
 * bar, 10 a line feed.
 */
module LineLaws {
  import opened JsStrings
  import opened MarkdownBlocks
  import opened MarkdownLaws

  /** The code units that count as white space, one by one. */
  lemma SpacesAre(c: CodeUnit)
    ensures IsSpace(c) <==> c in {
      9, 10, 11, 12, 13, 32, 160, 5760, 8192, 8193, 8194, 8195, 8196, 8197, 8198, 8199, 8200, 8201, 8202,
      8232, 8233, 8239, 8287, 12288, 65279}
  {
  }

  /** `t` is `s` without the white space around it. */
  ghost predicate IsTrimOf(t: Text, s: Text) {
    exists pre: Text, post: Text :: s == pre + t + post
      && (forall i :: 0 <= i < |pre| ==> IsSpace(pre[i])) && (forall i :: 0 <= i < |post| ==> IsSpace(post[i]))
      && (t != [] ==> !IsSpace(t[0]) && !IsSpace(t[|t| - 1]))
  }

  lemma {:induction false} AllSpaceIsSpaces(s: Text)
    requires AllSpace(s)
    ensures forall i :: 0 <= i < |s| ==> IsSpace(s[i])
    decreases |s|
  {
    if s == [] {
    } else {
      TrimEndAppend([s[0]], s[1..]);
      assert [s[0]] + s[1..] == s;
      AllSpaceIsSpaces(s[1..]);
    }
  }

  lemma TrimOfParts(s: Text, pre: Text, mid: Text, t: Text, post: Text)
    requires s == pre + mid && mid == t + post
    ensures s == pre + t + post
    ensures t != [] ==> t[0] == mid[0]
  {
  }

  /** Trimming takes away exactly the white space at both ends. */
  lemma TrimIs(s: Text)
    ensures IsTrimOf(Trim(s), s)
  {
    hide TrimStart, TrimEnd, AllSpace;
    var pre := TrimStartSplits(s);
    var post := TrimEndSplits(TrimStart(s));
    AllSpaceIsSpaces(pre);
    AllSpaceIsSpaces(post);
    TrimOfParts(s, pre, TrimStart(s), Trim(s), post);
  }

  /** The trimmed line starts with three backticks. */
  predicate ThreeBackticks(line: Text) {
    var t := Trim(line);
    |t| >= 3 && t[0] == 96 && t[1] == 96 && t[2] == 96
  }

  /** A line is a fence exactly when its trimmed text starts with three backticks. */
  lemma FenceExactlyWhen(line: Text)
    ensures Classify(line) == FenceLine <==> ThreeBackticks(line)
    ensures IsFence(line) <==> ThreeBackticks(line)
  {
    var t := Trim(line);
    if |t| >= 3 {
      assert t[..3] == [t[0], t[1], t[2]];
    }
  }

  /** A line is blank exactly when nothing is left of it, and a row exactly when what is left starts with a bar. */
  lemma BlankAndRowExactlyWhen(line: Text)
    ensures Classify(line) == BlankLine <==> Trim(line) == []
    ensures Classify(line) == RowLine <==> Trim(line) != [] && Trim(line)[0] == 124
  {
    FenceExactlyWhen(line);
    var pre := TrimStartSplits(line);
    var mid := TrimStart(line);
    var post := TrimEndSplits(mid);
    if Trim(line) != [] {
      assert Trim(line)[0] == mid[0];
    }
  }

  /** A line that starts with one or two backticks and then something else opens no fence: it is plain text. */
  lemma FewBackticksAreProse(line: Text)
    requires var t := Trim(line); |t| >= 1 && t[0] == 96 && (|t| == 1 || t[1] != 96 || |t| == 2 || t[2] != 96)
    ensures Classify(line) == ProseLine
  {
    FenceExactlyWhen(line);
    BlankAndRowExactlyWhen(line);
  }

  /** The text is split at every line feed and nowhere else. */
  lemma LinesAre(lines: seq<Text>)
    requires lines != [] && forall i :: 0 <= i < |lines| ==> 10 !in lines[i]
    ensures SplitLines(Join(lines, [10])) == lines
  {
    SplitOfJoin(lines);
  }

  /** The runs of non-blank lines, `open` being the one that is being read. */
  function Paragraphs(lines: seq<Text>, open: seq<Text>): seq<seq<Text>>
    decreases |lines|
  {
    var closed := if open == [] then [] else [open];
    if lines == [] then closed
    else if Trim(lines[0]) == [] then closed + Paragraphs(lines[1..], [])
    else Paragraphs(lines[1..], open + [lines[0]])
  }

  /** Neither fences nor rows. */
  ghost predicate Plain(lines: seq<Text>) {
    forall i :: 0 <= i < |lines| ==> !ThreeBackticks(lines[i]) && !(Trim(lines[i]) != [] && Trim(lines[i])[0] == 124)
  }

  lemma PlainKinds(lines: seq<Text>)
    requires Plain(lines)
    ensures forall i :: 0 <= i < |lines| ==> Classify(lines[i]) == if Trim(lines[i]) == [] then BlankLine else ProseLine
  {
    forall i | 0 <= i < |lines|
      ensures Classify(lines[i]) == if Trim(lines[i]) == [] then BlankLine else ProseLine
    {
      FenceExactlyWhen(lines[i]);
      BlankAndRowExactlyWhen(lines[i]);
    }
  }

  lemma {:induction false} PlainIsCutAtBlanks(lines: seq<Text>, open: seq<Text>)
    requires Plain(lines)
    ensures Resume(open, false, false, lines) == Paragraphs(lines, open)
    decreases |lines|
  {
    PlainKinds(lines);
    if lines == [] {
      ResumeAtEnd(open);
    } else {
      var rest := lines[1..];
      assert Plain(rest);
      var fence := IsFence(lines[0]);
      FenceExactlyWhen(lines[0]);
      hide Trim, Groups, Plain, ThreeBackticks, IsFence;
      if Classify(lines[0]) == BlankLine {
        PlainIsCutAtBlanks(rest, []);
        BlankClosesProse(open, lines);
      } else {
        PlainIsCutAtBlanks(rest, open + [lines[0]]);
        if open == [] {
          PushOpens(false, false, lines);
          assert [] + [lines[0]] == [lines[0]];
          ResumeClosed(lines);
        } else {
          PushContinues(open, false, false, lines);
        }
      }
    }
  }

  lemma ResumeClosed(lines: seq<Text>)
    ensures Resume([], false, false, lines) == Groups(lines)
  {
  }

  lemma ResumeAtEnd(open: seq<Text>)
    ensures Resume(open, false, false, []) == if open == [] then [] else [open]
  {
    assert open + [] == open;
  }

  lemma BlankClosesProse(open: seq<Text>, lines: seq<Text>)
    requires lines != [] && Classify(lines[0]) == BlankLine
    ensures Resume(open, false, false, lines) ==
      (if open == [] then [] else [open]) + Resume([], false, false, lines[1..])
  {
    assert Groups(lines) == Groups(lines[1..]);
    assert Remaining(false, false, lines) == 0;
    hide Groups;
    assert open + lines[..0] == open && lines[0..] == lines;
    assert [] + Groups(lines[1..]) == Groups(lines[1..]);
  }

  /** A text without fences and rows is cut exactly at its blank lines. */
  lemma PlainTextIsCutAtBlankLines(text: Text)
    requires text != [] && Plain(SplitLines(text))
    ensures Blocks(text) == BlockTexts(Paragraphs(SplitLines(text), []))
  {
    PlainIsCutAtBlanks(SplitLines(text), []);
    ResumeClosed(SplitLines(text));
  }

  /** Inline code at the start of a line is no fence: a backticked letter, ` b`, a blank line and `c` are two blocks. */
  lemma InlineCodeExample()
    ensures Blocks([96, 97, 96, 32, 98] + [10, 10] + [99]) == [[96, 97, 96, 32, 98], [99]]
  {
    var a: Text, b: Text := [96, 97, 96, 32, 98], [99];
    SplitSingle(a);
    SplitSingle(b);
    ProseLineIsBlock(a);
    ProseLineIsBlock(b);
    assert [a, b][1..] == [b];
    assert a + [10, 10] + b == Join([a, b], PARAGRAPH_BREAK);
    ParseOfPrint([a, b]);
  }

  /** A trimmed line of plain text is a block of its own. */
  lemma ProseLineIsBlock(line: Text)
    requires line != [] && !IsSpace(line[0]) && !IsSpace(line[|line| - 1]) && 10 !in line
    requires line[0] != 124 && (line[0] != 96 || |line| < 3 || line[1] != 96 || line[2] != 96)
    ensures ClosedBlock(line)
  {
    SplitSingle(line);
    assert TrimStart(line) == line && TrimEnd(line) == line;
    FenceExactlyWhen(line);
    BlankAndRowExactlyWhen(line);
    assert UniformGroup([line], ProseLine);
  }
}
