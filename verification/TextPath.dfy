/** Lines written with `nputline` on one side come back from `ngetline` on the other. */
module TextPath {
  import opened Bytes
  import opened TextLines
  import CodePage

  /** The line end that `nputstr` appends. */
  function NewLine(mode: int): seq<byte> {
    if mode == 1 then [CHAR_LF]
    else if mode == 2 then [CHAR_CR]
    else if mode == 3 then [CHAR_CR, CHAR_LF]
    else [CHAR_LF, CHAR_CR]
  }

  /** What writing all lines puts into the stream, before translation. */
  function Written(lines: seq<seq<byte>>, mode: int): seq<byte> {
    if lines == [] then [] else lines[0] + NewLine(mode) + Written(lines[1..], mode)
  }

  lemma {:induction false} WrittenSnoc(lines: seq<seq<byte>>, last: seq<byte>, mode: int)
    ensures Written(lines + [last], mode) == Written(lines, mode) + (last + NewLine(mode))
  {
    if lines == [] {
      assert [last][1..] == [] && [] + [last] == [last];
    } else {
      assert (lines + [last])[1..] == lines[1..] + [last];
      WrittenSnoc(lines[1..], last, mode);
    }
  }

  /** The bytes that reach the outside when the lines are written. */
  function Outside(lines: seq<seq<byte>>, mode: int): seq<byte> {
    CodePage.Translate(CodePage.E2A, Written(lines, mode))
  }

  /** What a reader sees of bytes written on the other side. */
  function Seen(text: seq<byte>, mode: int): seq<byte> {
    Normal(CodePage.Translate(CodePage.A2E, CodePage.Translate(CodePage.E2A, text)), mode)
  }

  lemma SeenAppend(a: seq<byte>, b: seq<byte>, mode: int)
    ensures Seen(a + b, mode) == Seen(a, mode) + Seen(b, mode)
  {
    var a', b' := CodePage.Translate(CodePage.E2A, a), CodePage.Translate(CodePage.E2A, b);
    CodePage.TranslateAppend(CodePage.E2A, a, b);
    CodePage.TranslateAppend(CodePage.A2E, a', b');
    NormalAppend(CodePage.Translate(CodePage.A2E, a'), CodePage.Translate(CodePage.A2E, b'), mode);
  }

  lemma SeenOne(c: byte, mode: int)
    ensures Seen([c], mode) == NormalChar(CodePage.A2E(CodePage.E2A(c)), mode)
  {
    hide CodePage.E2A, CodePage.A2E;
    var there := CodePage.Translate(CodePage.E2A, [c]);
    assert there == [CodePage.E2A(c)];
    assert CodePage.Translate(CodePage.A2E, there) == [CodePage.A2E(CodePage.E2A(c))];
    NormalOne(CodePage.A2E(CodePage.E2A(c)), mode);
  }

  lemma NormalOne(c: byte, mode: int)
    ensures Normal([c], mode) == NormalChar(c, mode)
  {
    assert [c][1..] == [] && NormalChar(c, mode) + [] == NormalChar(c, mode);
  }

  /** All four line end conventions are undone. */
  lemma SeenOfNewLine(mode: int)
    ensures Seen(NewLine(mode), mode) == [CHAR_LF]
  {
    hide Seen, CodePage.E2A, CodePage.A2E;
    CodePage.LineEndsFaithful();
    SeenOne(CHAR_CR, mode);
    SeenOne(CHAR_LF, mode);
    SeenAppend([CHAR_CR], [CHAR_LF], mode);
    SeenAppend([CHAR_LF], [CHAR_CR], mode);
    assert [CHAR_CR] + [CHAR_LF] == [CHAR_CR, CHAR_LF];
    assert [CHAR_LF] + [CHAR_CR] == [CHAR_LF, CHAR_CR];
  }

  predicate Plain(line: seq<byte>) {
    forall i :: 0 <= i < |line| ==> line[i] != CHAR_CR && line[i] != CHAR_LF
  }

  /** Every character survives the way to the outside and back. */
  predicate AllFaithful(line: seq<byte>) {
    forall i :: 0 <= i < |line| ==> CodePage.Faithful(CodePage.E2A, CodePage.A2E, line[i])
  }

  /** A line of `n` characters at most, that all survive and are no line ends. */
  predicate Fits(line: seq<byte>, n: nat) {
    Plain(line) && AllFaithful(line) && |line| <= n
  }

  predicate AllFit(lines: seq<seq<byte>>, n: nat) {
    forall i :: 0 <= i < |lines| ==> Fits(lines[i], n)
  }

  lemma SeenFirst(line: seq<byte>, mode: int)
    requires line != []
    ensures Seen(line, mode) == NormalChar(CodePage.A2E(CodePage.E2A(line[0])), mode) + Seen(line[1..], mode)
  {
    assert line == [line[0]] + line[1..];
    SeenAppend([line[0]], line[1..], mode);
    SeenOne(line[0], mode);
  }

  lemma {:induction false} SeenShorter(line: seq<byte>, mode: int)
    ensures |Seen(line, mode)| <= |line|
  {
    if line != [] {
      SeenFirst(line, mode);
      SeenShorter(line[1..], mode);
    }
  }

  predicate Survives(c: byte) {
    c != CHAR_CR && c != CHAR_LF && CodePage.Faithful(CodePage.E2A, CodePage.A2E, c)
  }

  lemma FirstSurvives(line: seq<byte>)
    requires line != []
    ensures Plain(line) && AllFaithful(line) <==> Survives(line[0]) && Plain(line[1..]) && AllFaithful(line[1..])
    ensures CHAR_LF in line <==> line[0] == CHAR_LF || CHAR_LF in line[1..]
  {
    hide CodePage.Faithful;
    assert line == [line[0]] + line[1..];
  }

  /** A line without a line end that is seen as it was written is plain and faithful, and such a line is. */
  lemma {:induction false} SeenAsWritten(line: seq<byte>, mode: int)
    ensures Seen(line, mode) == line && CHAR_LF !in line <==> Plain(line) && AllFaithful(line)
  {
    hide Seen, NormalChar, Plain, AllFaithful, Survives;
    if line == [] {
      NothingSurvives(mode);
    } else {
      var first, rest := NormalChar(CodePage.A2E(CodePage.E2A(line[0])), mode), line[1..];
      SeenFirst(line, mode);
      SeenShorter(rest, mode);
      SeenAsWritten(rest, mode);
      CharSeen(line[0], mode);
      FirstSurvives(line);
      FirstApart(first, Seen(rest, mode), line);
    }
  }

  lemma NothingSurvives(mode: int)
    ensures Seen([], mode) == [] && Plain([]) && AllFaithful([])
  {
  }

  /** Two parts make up a list exactly if one is its head and the other its tail, when they cannot be cut elsewhere. */
  lemma FirstApart<T>(first: seq<T>, others: seq<T>, whole: seq<T>)
    requires whole != []
    requires (|first| <= 1 && |others| < |whole|) || (|first| >= 1 && |others| >= |whole| - 1)
    ensures first + others == whole <==> first == [whole[0]] && others == whole[1..]
  {
    assert whole == [whole[0]] + whole[1..];
    if first + others == whole {
      assert |first| == 1 && (first + others)[0] == first[0] && (first + others)[1..] == others;
    }
  }

  lemma CharSeen(c: byte, mode: int)
    ensures var first := NormalChar(CodePage.A2E(CodePage.E2A(c)), mode);
            |first| <= 1 && (first == [c] && c != CHAR_LF <==> Survives(c))
  {
    CodePage.LineEndsFaithful();
  }

  // ---- the pieces of written lines ----

  /** The text a reader sees of written lines. */
  function Ended(lines: seq<seq<byte>>, mode: int): seq<byte> {
    if lines == [] then [] else Seen(lines[0], mode) + [CHAR_LF] + Ended(lines[1..], mode)
  }

  lemma {:induction false} SeenIsEnded(lines: seq<seq<byte>>, mode: int)
    ensures Seen(Written(lines, mode), mode) == Ended(lines, mode)
  {
    if lines != [] {
      SeenAppend(lines[0] + NewLine(mode), Written(lines[1..], mode), mode);
      SeenAppend(lines[0], NewLine(mode), mode);
      SeenOfNewLine(mode);
      SeenIsEnded(lines[1..], mode);
    }
  }

  /** The pieces of a text that is ended by a line end behind it. */
  function EndedPieces(text: seq<byte>, n: nat): seq<seq<byte>>
    requires n >= 1
    decreases |text|
  {
    if FirstEnd(text) == |text| then Chop(text, n) else Chop(FirstLine(text), n) + EndedPieces(AfterLine(text), n)
  }

  /** A text and a line end behind it: its first line is ended by it if it has no line end itself. */
  lemma FirstOfEnded(text: seq<byte>, tail: seq<byte>)
    ensures var whole := text + [CHAR_LF] + tail;
            && FirstLine(whole) == FirstLine(text)
            && AfterLine(whole) == if FirstEnd(text) == |text| then tail else AfterLine(text) + [CHAR_LF] + tail
  {
    hide FirstEnd;
    var i, ended := FirstEnd(text), text + [CHAR_LF];
    CutOfFirst(text, [CHAR_LF], i);
    CutOfFirst(ended, tail, i);
    EndBehind(text, i);
    FirstEndUnique(ended + tail, i);
    RestOfFirst(ended, tail, i + 1);
    if i < |text| {
      RestOfFirst(text, [CHAR_LF], i + 1);
    } else {
      assert ended[i + 1..] == [] && [] + tail == tail;
    }
  }

  lemma EndBehind(text: seq<byte>, i: nat)
    requires i <= |text|
    ensures (text + [CHAR_LF])[i] == if i < |text| then text[i] else CHAR_LF
  {
  }

  lemma {:induction false} PiecesOfEnded(text: seq<byte>, tail: seq<byte>, n: nat)
    requires n >= 1
    ensures Pieces(text + [CHAR_LF] + tail, n) == EndedPieces(text, n) + Pieces(tail, n)
    decreases |text|
  {
    hide FirstEnd, Chop, Pieces, FirstLine;
    FirstOfEnded(text, tail);
    FirstPieces(text + [CHAR_LF] + tail, n);
    if FirstEnd(text) == |text| {
      WholeLine(text);
    } else {
      PiecesOfEnded(AfterLine(text), tail, n);
      Assoc(Chop(FirstLine(text), n), EndedPieces(AfterLine(text), n), Pieces(tail, n));
    }
  }

  lemma WholeLine(text: seq<byte>)
    requires FirstEnd(text) == |text|
    ensures FirstLine(text) == text
  {
  }

  lemma {:induction false} ChopSize(line: seq<byte>, n: nat)
    requires n >= 1
    ensures |Chop(line, n)| >= 1 && (|Chop(line, n)| == 1 <==> |line| <= n)
  {
    if |line| > n {
      ChopSize(line[n..], n);
    }
  }

  /** There is one piece at least, and just the text itself if it has no line end and fits. */
  lemma {:induction false} EndedPiecesSize(text: seq<byte>, n: nat)
    requires n >= 1
    ensures |EndedPieces(text, n)| >= 1
    ensures if CHAR_LF !in text && |text| <= n then EndedPieces(text, n) == [text] else |EndedPieces(text, n)| > 1
    decreases |text|
  {
    var i := FirstEnd(text);
    if i == |text| {
      assert text[..i] == text;
      ChopSize(text, n);
    } else {
      assert text[i] == CHAR_LF;
      ChopSize(FirstLine(text), n);
      EndedPiecesSize(AfterLine(text), n);
    }
  }

  lemma FitsAsWritten(line: seq<byte>, n: nat, mode: int)
    requires n >= 1
    ensures EndedPieces(Seen(line, mode), n) == [line] <==> Fits(line, n)
  {
    hide Seen, EndedPieces;
    EndedPiecesSize(Seen(line, mode), n);
    SeenAsWritten(line, mode);
  }

  lemma FirstFits(lines: seq<seq<byte>>, n: nat)
    requires lines != []
    ensures AllFit(lines, n) <==> Fits(lines[0], n) && AllFit(lines[1..], n)
  {
    hide Fits;
    assert lines == [lines[0]] + lines[1..];
  }

  lemma FirstWritten(lines: seq<seq<byte>>, n: nat, mode: int)
    requires n >= 1 && lines != []
    ensures Pieces(Ended(lines, mode), n) == EndedPieces(Seen(lines[0], mode), n) + Pieces(Ended(lines[1..], mode), n)
  {
    hide Seen, Pieces, EndedPieces;
    PiecesOfEnded(Seen(lines[0], mode), Ended(lines[1..], mode), n);
  }

  /** Read in pieces, what was written for lines is these lines if and only if they all fit. */
  lemma {:induction false} PiecesOfWritten(lines: seq<seq<byte>>, n: nat, mode: int)
    requires n >= 1
    ensures |Pieces(Ended(lines, mode), n)| >= |lines|
    ensures Pieces(Ended(lines, mode), n) == lines <==> AllFit(lines, n)
  {
    if lines != [] {
      hide *;
      EndedPiecesSize(Seen(lines[0], mode), n);
      FitsAsWritten(lines[0], n, mode);
      PiecesOfWritten(lines[1..], n, mode);
      FirstWritten(lines, n, mode);
      FirstFits(lines, n);
      FirstApart(EndedPieces(Seen(lines[0], mode), n), Pieces(Ended(lines[1..], mode), n), lines);
    }
  }

  /**
   Lines come back unchanged, under each of the four line end conventions, if and only if each of
   them fits the reader's buffer and consists of characters that survive the translation and are no
   line ends.
   */
  lemma TextRoundTrip(lines: seq<seq<byte>>, n: nat, mode: int)
    requires n >= 1
    ensures var read := Normal(CodePage.Translate(CodePage.A2E, Outside(lines, mode)), mode);
            AllLines(read, n, false, false) == lines <==> AllFit(lines, n)
  {
    SeenIsEnded(lines, mode);
    PiecesOfWritten(lines, n, mode);
    LinesArePieces(Ended(lines, mode), n);
  }
}
