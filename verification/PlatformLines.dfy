/** The text of written lines on the outside, in ISO-Latin-1 and with the line ends of the platform there. */
module PlatformLines {
  import opened Bytes
  import CodePage
  import TextPath

  const LF: byte := 0x0A
  const CR: byte := 0x0D

  /** The line end of the platform, as the mode of the connection tells. */
  function End(mode: int): (e: seq<byte>)
    ensures 1 <= |e| <= 2 && (|e| == 2 ==> e[0] != e[1])
  {
    if mode == 1 then [LF] else if mode == 2 then [CR] else if mode == 3 then [CR, LF] else [LF, CR]
  }

  predicate EndAt(text: seq<byte>, end: seq<byte>, i: nat) {
    i + |end| <= |text| && text[i..i + |end|] == end
  }

  ghost predicate Contains(text: seq<byte>, end: seq<byte>) {
    exists i: nat :: EndAt(text, end, i)
  }

  /** Where the first line end is; the length of the text if there is none. */
  function FindEnd(text: seq<byte>, end: seq<byte>): (r: nat)
    ensures r <= |text|
  {
    if |text| < |end| || text == [] then |text| else if text[..|end|] == end then 0 else 1 + FindEnd(text[1..], end)
  }

  /** The lines of a text, without their ends. */
  function Split(text: seq<byte>, end: seq<byte>): seq<seq<byte>>
    decreases |text|
  {
    var i := FindEnd(text, end);
    if text == [] then []
    else if i + |end| > |text| || end == [] then [text]
    else [text[..i]] + Split(text[i + |end|..], end)
  }

  lemma {:induction false} FindEndIs(text: seq<byte>, end: seq<byte>, i: nat)
    requires EndAt(text, end, i) && end != [] && forall j: nat :: j < i ==> !EndAt(text, end, j)
    ensures FindEnd(text, end) == i
  {
    if i > 0 {
      assert !EndAt(text, end, 0) && text[0..|end|] == text[..|end|];
      assert text[1..][i - 1..i - 1 + |end|] == text[i..i + |end|];
      forall j: nat | j < i - 1
        ensures !EndAt(text[1..], end, j)
      {
        assert !EndAt(text, end, j + 1);
        assert j + 1 + |end| <= |text| ==> text[1..][j..j + |end|] == text[j + 1..j + 1 + |end|];
      }
      FindEndIs(text[1..], end, i - 1);
    } else {
      assert text[0..|end|] == text[..|end|];
    }
  }

  /** The least place with a line end. */
  lemma {:induction false} FirstPlace(text: seq<byte>, end: seq<byte>, i: nat) returns (first: nat)
    requires EndAt(text, end, i)
    ensures first <= i && EndAt(text, end, first) && forall j: nat :: j < first ==> !EndAt(text, end, j)
  {
    if j: nat :| j < i && EndAt(text, end, j) {
      first := FirstPlace(text, end, j);
    } else {
      first := i;
    }
  }

  /** A line with its end: no end starts in the line but in front of its last place, so inside it. */
  lemma EndInLine(line: seq<byte>, end: seq<byte>, tail: seq<byte>, j: nat)
    requires 1 <= |end| <= 2 && (|end| == 2 ==> end[0] != end[1]) && j < |line|
    ensures EndAt(line + end + tail, end, j) <==> EndAt(line, end, j)
  {
    var text := line + end + tail;
    if j + |end| <= |line| {
      assert text[j..j + |end|] == line[j..j + |end|];
    } else {
      assert |end| == 2 && text[j + 1] == end[0];
      AtMeans(text, end, j);
    }
  }

  lemma AtMeans(text: seq<byte>, end: seq<byte>, i: nat)
    ensures EndAt(text, end, i) && |end| == 2 ==> text[i + 1] == end[1]
  {
    if EndAt(text, end, i) && |end| == 2 {
      assert text[i..i + 2][1] == text[i + 1];
    }
  }

  /** The first line is cut off as it is if and only if it has no line end in it. */
  lemma FirstCut(line: seq<byte>, end: seq<byte>, tail: seq<byte>)
    requires 1 <= |end| <= 2 && (|end| == 2 ==> end[0] != end[1])
    ensures var text := line + end + tail; var i := FindEnd(text, end);
            && EndAt(text, end, i) && i <= |line| && (i == |line| <==> !Contains(line, end))
            && text[..|line|] == line && text[|line| + |end|..] == tail
  {
    var text := line + end + tail;
    assert text[|line|..|line| + |end|] == end;
    forall j: nat | j < |line|
      ensures EndAt(text, end, j) <==> EndAt(line, end, j)
    {
      EndInLine(line, end, tail, j);
    }
    var first := FirstPlace(text, end, |line|);
    FindEndIs(text, end, first);
    if first < |line| {
      assert EndAt(line, end, first);
    }
  }

  function TranslateAll(lines: seq<seq<byte>>): seq<seq<byte>> {
    seq(|lines|, i requires 0 <= i < |lines| => CodePage.Translate(CodePage.E2A, lines[i]))
  }

  /** The line ends written are those of the platform. */
  lemma EndsTranslated(mode: int)
    ensures CodePage.Translate(CodePage.E2A, TextPath.NewLine(mode)) == End(mode)
  {
  }

  /** Outside, each line is followed by the line end of the platform. */
  lemma FirstOutside(lines: seq<seq<byte>>, mode: int)
    requires lines != []
    ensures TextPath.Outside(lines, mode) == CodePage.Translate(CodePage.E2A, lines[0]) + End(mode) + TextPath.Outside(lines[1..], mode)
    ensures TranslateAll(lines) == [CodePage.Translate(CodePage.E2A, lines[0])] + TranslateAll(lines[1..])
  {
    hide CodePage.Translate, CodePage.E2A, TextPath.NewLine, End;
    EndsTranslated(mode);
    CodePage.TranslateAppend(CodePage.E2A, lines[0] + TextPath.NewLine(mode), TextPath.Written(lines[1..], mode));
    CodePage.TranslateAppend(CodePage.E2A, lines[0], TextPath.NewLine(mode));
  }

  /** No line, as it looks outside, has the line end of the platform in it. */
  ghost predicate NoneContains(lines: seq<seq<byte>>, mode: int) {
    forall line :: line in lines ==> !Contains(CodePage.Translate(CodePage.E2A, line), End(mode))
  }

  lemma FirstContains(lines: seq<seq<byte>>, mode: int)
    requires lines != []
    ensures NoneContains(lines, mode) <==> !Contains(CodePage.Translate(CodePage.E2A, lines[0]), End(mode)) && NoneContains(lines[1..], mode)
  {
    hide Contains, CodePage.Translate, End;
    assert lines == [lines[0]] + lines[1..];
  }

  lemma FirstSplit(line: seq<byte>, end: seq<byte>, tail: seq<byte>, others: seq<seq<byte>>)
    requires 1 <= |end| <= 2 && (|end| == 2 ==> end[0] != end[1])
    ensures Split(line + end + tail, end) == [line] + others <==> !Contains(line, end) && Split(tail, end) == others
  {
    hide FindEnd, Contains, EndAt;
    FirstCut(line, end, tail);
    var text := line + end + tail;
    var i := FindEnd(text, end);
    AtIs(text, end, i);
    var split := Split(text, end);
    assert split == [text[..i]] + Split(text[i + |end|..], end);
    assert split[0] == text[..i] && split[1..] == Split(text[i + |end|..], end);
    assert ([line] + others)[0] == line && ([line] + others)[1..] == others;
    assert |text[..i]| == i;
  }

  lemma AtIs(text: seq<byte>, end: seq<byte>, i: nat)
    requires EndAt(text, end, i)
    ensures i + |end| <= |text|
  {
  }

  /**
   A program outside that splits the text at the line ends of its platform finds the lines that were
   written, translated, if and only if none of them contains such a line end.
   */
  lemma {:induction false} PlatformFindsLines(lines: seq<seq<byte>>, mode: int)
    ensures Split(TextPath.Outside(lines, mode), End(mode)) == TranslateAll(lines) <==> NoneContains(lines, mode)
  {
    hide Split, CodePage.Translate, TextPath.Outside, NoneContains, End, Contains;
    if lines == [] {
      NothingWritten(mode);
    } else {
      var line := CodePage.Translate(CodePage.E2A, lines[0]);
      FirstOutside(lines, mode);
      FirstSplit(line, End(mode), TextPath.Outside(lines[1..], mode), TranslateAll(lines[1..]));
      FirstContains(lines, mode);
      PlatformFindsLines(lines[1..], mode);
    }
  }

  lemma NothingWritten(mode: int)
    ensures Split(TextPath.Outside([], mode), End(mode)) == TranslateAll([]) && NoneContains([], mode)
  {
  }
}
