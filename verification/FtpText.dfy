/**
 Text transfer in both directions: which lines come back from an upload followed by a download.
 Lines are what stands between CR LF ends, so they are free of both characters.
 */
module FtpText {
  import opened Bytes
  import opened CodePage
  import opened FtpRecords

  const SPACE: byte := 0x20

  function TextOf(lines: seq<seq<byte>>): seq<byte> {
    if lines == [] then [] else lines[0] + [CR, LF] + TextOf(lines[1..])
  }

  predicate NoLf(line: seq<byte>) {
    LF !in line
  }

  predicate IsLine(line: seq<byte>) {
    NoLf(line) && CR !in line
  }

  predicate AllLines(lines: seq<seq<byte>>) {
    forall i :: 0 <= i < |lines| ==> IsLine(lines[i])
  }

  predicate AllNoLf(lines: seq<seq<byte>>) {
    forall i :: 0 <= i < |lines| ==> NoLf(lines[i])
  }

  predicate AllShort(lines: seq<seq<byte>>, size: nat) {
    forall i :: 0 <= i < |lines| ==> |lines[i]| < size
  }

  // ---- exactly the short lines are one record each ----

  lemma CrDropped(line: seq<byte>, rest: seq<byte>)
    requires CR !in line
    ensures DropCr(line + [CR, LF] + rest) == line + [LF] + DropCr(rest)
  {
    var end := [CR, LF] + rest;
    PlainDropCr(line, end);
    assert line + [CR, LF] + rest == line + end;
    assert end[1..] == [LF] + rest && ([LF] + rest)[1..] == rest;
    assert DropCr([LF] + rest) == [LF] + DropCr(rest);
    assert DropCr(end) == [] + DropCr([LF] + rest);
  }

  lemma {:induction false} PlainDropCr(line: seq<byte>, rest: seq<byte>)
    requires CR !in line
    ensures DropCr(line + rest) == line + DropCr(rest)
  {
    if line == [] {
      assert line + rest == rest;
    } else {
      assert (line + rest)[1..] == line[1..] + rest;
      PlainDropCr(line[1..], rest);
    }
  }

  /** The records of lines that are all ended. */
  function EndedLines(lines: seq<seq<byte>>, size: nat): seq<seq<byte>>
    requires size > 0
  {
    if lines == [] then [] else EndedLine(lines[0], size) + EndedLines(lines[1..], size)
  }

  lemma {:induction false} LinesAreEnded(lines: seq<seq<byte>>, size: nat)
    requires AllLines(lines) && size > 0
    ensures LineRecords(DropCr(TextOf(lines)), size) == EndedLines(lines, size)
  {
    if lines != [] {
      var rest := TextOf(lines[1..]);
      CrDropped(lines[0], rest);
      LineEnds(lines[0], DropCr(rest), size);
      LinesAreEnded(lines[1..], size);
    }
  }

  lemma {:induction false} EndedLineSize(line: seq<byte>, size: nat)
    requires size > 0
    ensures |EndedLine(line, size)| >= 1
    ensures if |line| < size then EndedLine(line, size) == [line] else |EndedLine(line, size)| > 1
    decreases |line|
  {
    if |line| >= size {
      EndedLineSize(line[size..], size);
    }
  }

  lemma {:induction false} EndedLinesSize(lines: seq<seq<byte>>, size: nat)
    requires size > 0
    ensures |EndedLines(lines, size)| >= |lines|
    ensures if AllShort(lines, size) then EndedLines(lines, size) == lines else |EndedLines(lines, size)| > |lines|
  {
    if lines != [] {
      EndedLineSize(lines[0], size);
      EndedLinesSize(lines[1..], size);
      assert AllShort(lines, size) <==> |lines[0]| < size && AllShort(lines[1..], size) by {
        assert lines == [lines[0]] + lines[1..];
      }
      assert lines == [lines[0]] + lines[1..];
    }
  }

  lemma CutIsEnded(fm: Format, lines: seq<seq<byte>>)
    requires !fm.binary && fm.Valid() && AllLines(lines)
    ensures Cut(fm, [], TextOf(lines)) == EndedLines(lines, fm.Size())
  {
    var text := TextOf(lines);
    CutIsLines(fm, [], text);
    assert [] + DropCr(text) == DropCr(text);
    LinesAreEnded(lines, fm.Size());
  }

  /** The records cut off a text are its lines if and only if every line is shorter than a record. */
  lemma CutIffShort(fm: Format, lines: seq<seq<byte>>)
    requires !fm.binary && fm.Valid() && AllLines(lines)
    ensures Cut(fm, [], TextOf(lines)) == lines <==> AllShort(lines, fm.Size())
  {
    CutIsEnded(fm, lines);
    EndedLinesSize(lines, fm.Size());
  }

  // ---- one line through the file ----

  /** What a record is on the wire, without its line end. */
  function LineOf(record: seq<byte>): (r: seq<byte>)
    ensures Unit(false, record) == r + [CR, LF]
  {
    Translate(E2A, UpToNull(DropBlanks(record)))
  }

  /** The file's record for a short line. */
  function RecordOf(fm: Format, line: seq<byte>): seq<byte> {
    Padded(fm, Coded(fm, line))
  }

  predicate AllFaithful(line: seq<byte>) {
    forall i :: 0 <= i < |line| ==> Faithful(A2E, E2A, line[i])
  }

  /** A line that is not empty, of characters that survive, and does not end with a space unless it is one. */
  predicate Returns(line: seq<byte>) {
    line != [] && AllFaithful(line) && (|line| == 1 || line[|line| - 1] != SPACE)
  }

  lemma {:induction false} FillIsDropped(record: seq<byte>, n: nat)
    requires record != []
    ensures DropBlanks(record + Fill(BLANK, n)) == DropBlanks(record)
    decreases n
  {
    var padded := record + Fill(BLANK, n);
    if n == 0 {
      assert padded == record;
    } else {
      assert padded[..|padded| - 1] == record + Fill(BLANK, n - 1);
      FillIsDropped(record, n - 1);
    }
  }

  /** Blanks are dropped exactly from longer records that end with one. */
  lemma DropsIff(record: seq<byte>)
    requires record != []
    ensures DropBlanks(record) == record <==> |record| == 1 || record[|record| - 1] != BLANK
    ensures |DropBlanks(record)| == |record| ==> DropBlanks(record) == record
  {
  }

  predicate NoNulls(s: seq<byte>) {
    forall i :: 0 <= i < |s| ==> s[i] != 0
  }

  lemma CodedHasNoNull(line: seq<byte>)
    ensures NoNulls(Translate(A2E, line))
  {
    forall i | 0 <= i < |line|
      ensures A2E(line[i]) != 0
    {
      NoNull(line[i]);
    }
  }

  /** What is left of a record without null bytes once its fill is dropped. */
  lemma KeptOfRecord(some: seq<byte>, n: nat)
    requires some != [] && NoNulls(some)
    ensures UpToNull(DropBlanks(some + Fill(BLANK, n))) == DropBlanks(some)
  {
    FillIsDropped(some, n);
    var kept := DropBlanks(some);
    UpToNullIs(kept, |kept|);
    assert kept[..|kept|] == kept;
  }

  /** What the file holds for a line, before the fill. */
  function SomeOf(line: seq<byte>): (r: seq<byte>)
    ensures r != []
  {
    if line == [] then [BLANK] else Translate(A2E, line)
  }

  lemma RecordIsFilled(fm: Format, line: seq<byte>)
    requires !fm.binary
    ensures RecordOf(fm, line) == SomeOf(line) + Fill(BLANK, |RecordOf(fm, line)| - |SomeOf(line)|)
  {
  }

  lemma LineOfRecord(fm: Format, line: seq<byte>)
    requires !fm.binary
    ensures LineOf(RecordOf(fm, line)) == Translate(E2A, DropBlanks(SomeOf(line)))
  {
    RecordIsFilled(fm, line);
    CodedHasNoNull(line);
    KeptOfRecord(SomeOf(line), |RecordOf(fm, line)| - |SomeOf(line)|);
  }

  lemma ThereAndBack(line: seq<byte>)
    ensures Translate(E2A, Translate(A2E, line)) == line <==> AllFaithful(line)
  {
    var back := Translate(E2A, Translate(A2E, line));
    assert forall i :: 0 <= i < |line| ==> (back[i] == line[i] <==> Faithful(A2E, E2A, line[i]));
  }

  lemma SpaceIsBlank(c: byte)
    requires Faithful(A2E, E2A, c)
    ensures A2E(c) == BLANK <==> c == SPACE
  {
    BlankIsSpace();
  }

  lemma LastOfCoded(line: seq<byte>)
    requires line != [] && AllFaithful(line)
    ensures SomeOf(line)[|line| - 1] == BLANK <==> line[|line| - 1] == SPACE
  {
    SpaceIsBlank(line[|line| - 1]);
  }

  /** Nothing of the record is dropped, so only the characters decide. */
  lemma KeptComesBack(line: seq<byte>)
    requires line != [] && (|line| == 1 || SomeOf(line)[|line| - 1] != BLANK)
    ensures Translate(E2A, DropBlanks(SomeOf(line))) == line <==> AllFaithful(line)
  {
    DropsIff(SomeOf(line));
    ThereAndBack(line);
  }

  /** The record gets shorter. */
  lemma DroppedDiffers(line: seq<byte>)
    requires |line| > 1 && SomeOf(line)[|line| - 1] == BLANK
    ensures Translate(E2A, DropBlanks(SomeOf(line))) != line
  {
    DropsIff(SomeOf(line));
    assert |DropBlanks(SomeOf(line))| != |line|;
  }

  /** A line that makes one record comes back if and only if it `Returns`. */
  lemma LineComesBack(fm: Format, line: seq<byte>)
    requires !fm.binary
    ensures LineOf(RecordOf(fm, line)) == line <==> Returns(line)
  {
    LineOfRecord(fm, line);
    if line == [] {
      DropsIff([BLANK]);
    } else {
      if AllFaithful(line) {
        LastOfCoded(line);
      }
      if |line| == 1 || SomeOf(line)[|line| - 1] != BLANK {
        KeptComesBack(line);
      } else {
        DroppedDiffers(line);
      }
    }
  }

  // ---- all lines ----

  function LinesOf(file: seq<seq<byte>>): (r: seq<seq<byte>>)
    ensures |r| == |file| && forall i :: 0 <= i < |r| ==> r[i] == LineOf(file[i])
  {
    if file == [] then [] else [LineOf(file[0])] + LinesOf(file[1..])
  }

  lemma {:induction false} DownloadIsText(file: seq<seq<byte>>)
    ensures Downloaded(false, file) == TextOf(LinesOf(file))
  {
    if file != [] {
      DownloadIsText(file[1..]);
      assert LinesOf(file)[1..] == LinesOf(file[1..]);
    }
  }

  lemma FirstOfText(line: seq<byte>, rest: seq<byte>)
    requires NoLf(line)
    ensures FirstLine(line + [CR, LF] + rest) == line + [CR]
    ensures (line + [CR, LF] + rest)[|line| + 2..] == rest
  {
    var text := line + [CR, LF] + rest;
    assert text == (line + [CR]) + ([LF] + rest);
    FirstLineAfter(line + [CR], [LF] + rest);
    assert FirstLine([LF] + rest) == [] && line + [CR] + [] == line + [CR];
  }

  /** Lines can be told from their text. */
  lemma {:induction false} TextDetermines(a: seq<seq<byte>>, b: seq<seq<byte>>)
    requires AllNoLf(a) && AllNoLf(b) && TextOf(a) == TextOf(b)
    ensures a == b
  {
    if a != [] && b != [] {
      FirstOfText(a[0], TextOf(a[1..]));
      FirstOfText(b[0], TextOf(b[1..]));
      assert a[0] == (a[0] + [CR])[..|a[0]|] && b[0] == (b[0] + [CR])[..|b[0]|];
      TextDetermines(a[1..], b[1..]);
      assert a == [a[0]] + a[1..] && b == [b[0]] + b[1..];
    }
  }

  lemma CodedNoLf(record: seq<byte>)
    requires NoLf(record)
    ensures 0x25 !in Translate(A2E, record)
  {
    forall i | 0 <= i < |record|
      ensures Translate(A2E, record)[i] != 0x25
    {
      OnlyLfToEbcdic(record[i]);
    }
  }

  lemma LineOfNoLf(record: seq<byte>)
    requires 0x25 !in record
    ensures NoLf(LineOf(record))
  {
    var kept := UpToNull(DropBlanks(record));
    forall i | 0 <= i < |kept|
      ensures E2A(kept[i]) != LF
    {
      OnlyLfToAscii(kept[i]);
    }
  }

  lemma {:induction false} EndedLineNoLf(line: seq<byte>, size: nat)
    requires NoLf(line) && size > 0
    ensures AllNoLf(EndedLine(line, size))
    decreases |line|
  {
    if |line| >= size {
      EndedLineNoLf(line[size..], size);
    }
  }

  lemma {:induction false} EndedNoLf(lines: seq<seq<byte>>, size: nat)
    requires AllLines(lines) && size > 0
    ensures AllNoLf(EndedLines(lines, size))
  {
    if lines != [] {
      EndedLineNoLf(lines[0], size);
      EndedNoLf(lines[1..], size);
    }
  }

  lemma {:induction false} StoredIs(fm: Format, cut: seq<seq<byte>>, i: nat)
    requires i < |cut|
    ensures Stored(fm, cut)[i] == RecordOf(fm, cut[i])
  {
    hide Padded, Coded;
    if i > 0 {
      StoredIs(fm, cut[1..], i - 1);
    }
  }

  lemma RecordNoLf(fm: Format, line: seq<byte>)
    requires !fm.binary && fm.Valid() && NoLf(line)
    ensures NoLf(LineOf(RecordOf(fm, line)))
  {
    CodedNoLf(line);
    LineOfNoLf(RecordOf(fm, line));
  }

  lemma StoredNoLf(fm: Format, cut: seq<seq<byte>>)
    requires !fm.binary && fm.Valid() && AllNoLf(cut)
    ensures AllNoLf(LinesOf(Stored(fm, cut)))
  {
    hide LineOf, RecordOf, NoLf;
    forall i | 0 <= i < |cut|
      ensures NoLf(LineOf(Stored(fm, cut)[i]))
    {
      StoredIs(fm, cut, i);
      RecordNoLf(fm, cut[i]);
    }
  }

  /** A short line comes back as itself, one record each. */
  lemma ShortLinesIff(fm: Format, lines: seq<seq<byte>>)
    requires !fm.binary && fm.Valid() && AllShort(lines, fm.Size())
    ensures LinesOf(Stored(fm, lines)) == lines <==> forall i :: 0 <= i < |lines| ==> Returns(lines[i])
  {
    var back := LinesOf(Stored(fm, lines));
    forall i | 0 <= i < |lines|
      ensures back[i] == lines[i] <==> Returns(lines[i])
    {
      StoredIs(fm, lines, i);
      LineComesBack(fm, lines[i]);
    }
  }

  /**
   Lines come back unchanged from text upload and text download if and only if each of them is
   shorter than a record, is not empty, consists of characters that survive both translations, and
   does not end with a space unless it is a single one. No lines at all come back if the file was there.
   */
  lemma TextRoundTrip(fm: Format, lines: seq<seq<byte>>, doAppend: bool)
    requires !fm.binary && fm.Valid() && AllLines(lines)
    ensures Downloaded(false, Uploaded(fm, TextOf(lines), doAppend)) == TextOf(lines)
       <==> (lines != [] || doAppend) && forall i :: 0 <= i < |lines| ==> |lines[i]| < fm.Size() && Returns(lines[i])
  {
    var cut := EndedLines(lines, fm.Size());
    CutIsEnded(fm, lines);
    EndedLinesSize(lines, fm.Size());
    var stored := Uploaded(fm, TextOf(lines), doAppend);
    if lines == [] {
      DownloadIsText(stored);
      return;
    }
    assert stored == Stored(fm, cut);
    DownloadIsText(stored);
    EndedNoLf(lines, fm.Size());
    StoredNoLf(fm, cut);
    if TextOf(LinesOf(stored)) == TextOf(lines) {
      TextDetermines(LinesOf(stored), lines);
    }
    assert Downloaded(false, stored) == TextOf(lines) <==> LinesOf(stored) == lines;
    if AllShort(lines, fm.Size()) {
      ShortLinesIff(fm, lines);
    }
  }

  // ---- what comes back of any lines ----

  /** A line without its trailing spaces, but with one character at least. */
  function Stripped(line: seq<byte>): seq<byte> {
    if line == [] then [SPACE] else if |line| > 1 && line[|line| - 1] == SPACE then Stripped(line[..|line| - 1]) else line
  }

  function StrippedAll(lines: seq<seq<byte>>): (r: seq<seq<byte>>)
    ensures |r| == |lines| && forall i :: 0 <= i < |r| ==> r[i] == Stripped(lines[i])
  {
    seq(|lines|, i requires 0 <= i < |lines| => Stripped(lines[i]))
  }

  predicate EachFaithful(lines: seq<seq<byte>>) {
    forall i :: 0 <= i < |lines| ==> AllFaithful(lines[i])
  }

  lemma {:induction false} DropIsStrip(line: seq<byte>)
    requires line != [] && AllFaithful(line)
    ensures Translate(E2A, DropBlanks(Translate(A2E, line))) == Stripped(line)
  {
    hide E2A, A2E;
    var n := |line| - 1;
    LastOfCoded(line);
    if |line| > 1 && line[n] == SPACE {
      assert Translate(A2E, line)[..n] == Translate(A2E, line[..n]);
      DropIsStrip(line[..n]);
    } else {
      ThereAndBack(line);
    }
  }

  /** A line of characters that survive comes back without its trailing spaces; an empty one as a space. */
  lemma LineComesBackStripped(fm: Format, line: seq<byte>)
    requires !fm.binary && AllFaithful(line)
    ensures LineOf(RecordOf(fm, line)) == Stripped(line)
  {
    LineOfRecord(fm, line);
    if line == [] {
      BlankIsSpace();
      DropsIff([BLANK]);
    } else {
      DropIsStrip(line);
    }
  }

  lemma {:induction false} EndedLineFaithful(line: seq<byte>, size: nat)
    requires AllFaithful(line) && size > 0
    ensures EachFaithful(EndedLine(line, size))
    decreases |line|
  {
    hide Faithful;
    if |line| >= size {
      EndedLineFaithful(line[size..], size);
    }
  }

  lemma {:induction false} EndedLinesFaithful(lines: seq<seq<byte>>, size: nat)
    requires EachFaithful(lines) && size > 0
    ensures EachFaithful(EndedLines(lines, size))
  {
    hide AllFaithful;
    if lines != [] {
      EndedLineFaithful(lines[0], size);
      EndedLinesFaithful(lines[1..], size);
    }
  }

  lemma StoredStripped(fm: Format, cut: seq<seq<byte>>)
    requires !fm.binary && EachFaithful(cut)
    ensures LinesOf(Stored(fm, cut)) == StrippedAll(cut)
  {
    hide LineOf, RecordOf, Stripped, AllFaithful;
    forall i | 0 <= i < |cut|
      ensures LinesOf(Stored(fm, cut))[i] == Stripped(cut[i])
    {
      StoredIs(fm, cut, i);
      LineComesBackStripped(fm, cut[i]);
    }
  }

  /**
   Text of characters that survive comes back, whatever its lines are: cut at the record length, an
   exact multiple followed by an empty record, and without trailing spaces; a new file has one record
   at least.
   */
  lemma TextComesBackStripped(fm: Format, lines: seq<seq<byte>>, doAppend: bool)
    requires !fm.binary && fm.Valid() && AllLines(lines) && EachFaithful(lines)
    ensures var records := if lines == [] && !doAppend then [[]] else EndedLines(lines, fm.Size());
            Downloaded(false, Uploaded(fm, TextOf(lines), doAppend)) == TextOf(StrippedAll(records))
  {
    hide LineOf, Stripped, AllFaithful, Padded, Coded;
    var cut := EndedLines(lines, fm.Size());
    CutIsEnded(fm, lines);
    EndedLinesSize(lines, fm.Size());
    EndedLinesFaithful(lines, fm.Size());
    if lines == [] && !doAppend {
      NewFile(fm);
    } else {
      StoredStripped(fm, cut);
      DownloadIsText(Stored(fm, cut));
    }
  }

  lemma NewFile(fm: Format)
    requires !fm.binary
    ensures Downloaded(false, [Padded(fm, [])]) == TextOf(StrippedAll([[]]))
  {
    assert Coded(fm, []) == [] && RecordOf(fm, []) == Padded(fm, []);
    LineComesBackStripped(fm, []);
    DownloadIsText([Padded(fm, [])]);
    assert LinesOf([Padded(fm, [])]) == StrippedAll([[]]);
  }

  lemma EndOfLine(line: seq<byte>)
    requires CR !in line
    ensures DropCr(line + [CR, LF]) == line + [LF]
  {
    PlainDropCr(line, [CR, LF]);
    assert [CR, LF][1..] == [LF] && [LF][1..] == [];
    assert DropCr([LF]) == [LF] + DropCr([]);
    assert DropCr([CR, LF]) == [] + DropCr([LF]);
  }

  /** A line of exactly the record length does not: the line end makes a second, empty record of it. */
  lemma ExactLineGetsBlankLine(fm: Format, line: seq<byte>)
    requires !fm.binary && fm.Valid() && |line| == fm.Size() && LF !in line && CR !in line
    ensures Cut(fm, [], line + [CR, LF]) == [line, []]
  {
    CutIsLines(fm, [], line + [CR, LF]);
    EndOfLine(line);
    assert [] + (line + [LF]) == line + [LF] + [];
    LineEnds(line, [], fm.Size());
    EndedSplits(line, [], fm.Size());
    assert line + [] == line;
  }
}
