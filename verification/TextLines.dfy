/**
 What a sequence of `ngetline` calls on a text stream means, without blocks, buffers
 or positions: the text is normalised (ignored characters dropped, line ends mapped to LF),
 split at line ends, and each line is chopped into pieces that fit the caller's buffer.
 */
module TextLines {
  import opened Bytes

  const CHAR_CR: byte := 0x0D
  const CHAR_LF: byte := 0x25

  // lineEndMode: 0 = LF-CR, 1 = LF, 2 = CR, 3 = CR-LF
  const MODE_CR := 2

  function LineEnd(mode: int): byte {
    if mode == MODE_CR then CHAR_CR else CHAR_LF
  }

  function NormalChar(c: byte, mode: int): seq<byte> {
    if c == LineEnd(mode) then [CHAR_LF]
    else if c == CHAR_CR || c == CHAR_LF then []
    else [c]
  }

  /** The text that counts: one LF per line end, no other CR or LF. */
  function Normal(raw: seq<byte>, mode: int): seq<byte> {
    if raw == [] then [] else NormalChar(raw[0], mode) + Normal(raw[1..], mode)
  }

  lemma {:induction false} NormalAppend(a: seq<byte>, b: seq<byte>, mode: int)
    ensures Normal(a + b, mode) == Normal(a, mode) + Normal(b, mode)
  {
    if a == [] {
      assert a + b == b;
    } else {
      assert (a + b)[1..] == a[1..] + b;
      NormalAppend(a[1..], b, mode);
    }
  }

  // ---- the specification: split at line ends, chop to size ----

  /** Index of the first line end, or the length of the text. */
  function FirstEnd(text: seq<byte>): (i: nat)
    ensures i <= |text|
    ensures CHAR_LF !in text[..i]
    ensures i < |text| ==> text[i] == CHAR_LF
  {
    |Before(text, CHAR_LF)|
  }

  /** The beginning of a text, first character apart. */
  lemma HeadApart(text: seq<byte>, i: nat)
    requires 0 < i <= |text|
    ensures text[..i] == [text[0]] + text[1..][..i - 1] && text[i..] == text[1..][i - 1..]
  {
  }

  lemma {:induction false} FirstEndUnique(text: seq<byte>, i: nat)
    requires i <= |text| && CHAR_LF !in text[..i]
    requires i < |text| ==> text[i] == CHAR_LF
    ensures FirstEnd(text) == i
  {
    if i > 0 {
      HeadApart(text, i);
      FirstEndUnique(text[1..], i - 1);
    }
  }

  function FirstLine(text: seq<byte>): seq<byte> {
    text[..FirstEnd(text)]
  }

  /** The text behind its first line. */
  function AfterLine(text: seq<byte>): seq<byte> {
    var i := FirstEnd(text);
    if i < |text| then text[i + 1..] else []
  }

  /** A line in pieces of `n` characters: an empty line is one empty piece, an exact multiple gives no extra piece. */
  function Chop(line: seq<byte>, n: nat): seq<seq<byte>>
    requires n >= 1
  {
    if |line| <= n then [line] else [line[..n]] + Chop(line[n..], n)
  }

  function Pieces(text: seq<byte>, n: nat): seq<seq<byte>>
    requires n >= 1
    decreases |text|
  {
    if text == [] then [] else Chop(FirstLine(text), n) + Pieces(AfterLine(text), n)
  }

  // ---- one call, seen on normalised text ----

  datatype Taken = Taken(line: seq<byte>, rest: seq<byte>, full: bool)

  /** Up to `n` characters of the text, ending early at a line end. */
  function Take(text: seq<byte>, n: nat, keepNL: bool): Taken {
    if n == 0 then Taken([], text, !keepNL)
    else if text == [] then Taken([], [], false)
    else if text[0] == CHAR_LF then
      Taken(if keepNL then [CHAR_LF] else [], text[1..], false)
    else
      var t := Take(text[1..], n - 1, keepNL);
      Taken([text[0]] + t.line, t.rest, t.full)
  }

  /** The text a call starts on: `skip` says that the last line exactly filled the buffer. */
  function Start(text: seq<byte>, skip: bool): seq<byte> {
    if skip && text != [] && text[0] == CHAR_LF then text[1..] else text
  }

  /** One call: no line at the end of the text, else the next piece, the rest and the new flag. */
  function Next(text: seq<byte>, n: nat, skip: bool, keepNL: bool): Option<Taken> {
    if Start(text, skip) == [] then None else Some(Take(Start(text, skip), n, keepNL))
  }

  lemma {:induction false} TakeShrinks(text: seq<byte>, n: nat, keepNL: bool)
    ensures |Take(text, n, keepNL).line| <= n
    ensures |Take(text, n, keepNL).rest| <= |text|
    ensures n >= 1 && text != [] ==> |Take(text, n, keepNL).rest| < |text|
  {
    if n > 0 && text != [] && text[0] != CHAR_LF {
      TakeShrinks(text[1..], n - 1, keepNL);
    }
  }

  /** With the line end kept, the line and the rest are the text; a kept line never sets the flag. */
  lemma {:induction false} TakeConserves(text: seq<byte>, n: nat)
    ensures var t := Take(text, n, true); t.line + t.rest == text && !t.full
  {
    if n > 0 && text != [] && text[0] != CHAR_LF {
      var t := Take(text[1..], n - 1, true);
      TakeConserves(text[1..], n - 1);
      assert ([text[0]] + t.line) + t.rest == [text[0]] + (t.line + t.rest) == [text[0]] + text[1..];
    }
  }

  /** All the lines that calls return until one reports the end. */
  function AllLines(text: seq<byte>, n: nat, skip: bool, keepNL: bool): seq<seq<byte>>
    requires n >= 1
    decreases |text|
  {
    match Next(text, n, skip, keepNL)
    case None => []
    case Some(t) =>
      TakeShrinks(Start(text, skip), n, keepNL);
      [t.line] + AllLines(t.rest, n, t.full, keepNL)
  }

  /** The first of the lines that calls return, put behind those returned before. */
  lemma FirstOfAllLines(before: seq<seq<byte>>, text: seq<byte>, n: nat, skip: bool)
    requires n >= 1
    ensures match Next(text, n, skip, false)
            case None => before + AllLines(text, n, skip, false) == before
            case Some(t) => |t.rest| < |text| && before + AllLines(text, n, skip, false) == (before + [t.line]) + AllLines(t.rest, n, t.full, false)
  {
    TakeShrinks(Start(text, skip), n, false);
  }

  /** Closed form of one call that drops the line end. */
  lemma {:induction false} TakeByFirstEnd(text: seq<byte>, n: nat)
    ensures var i := FirstEnd(text); var t := Take(text, n, false);
            if n <= i then t == Taken(text[..n], text[n..], true)
            else t == Taken(text[..i], AfterLine(text), false)
  {
    if n > 0 && text != [] && text[0] != CHAR_LF {
      TakeByFirstEnd(text[1..], n - 1);
      var i := FirstEnd(text);
      assert i == 1 + FirstEnd(text[1..]) && AfterLine(text) == AfterLine(text[1..]);
      if n <= i {
        HeadApart(text, n);
      } else {
        HeadApart(text, i);
      }
    }
  }

  /** Behind a full piece of a longer line stands the rest of that line. */
  lemma FirstEndAfterFull(text: seq<byte>, n: nat)
    requires n <= FirstEnd(text)
    ensures FirstEnd(text[n..]) == FirstEnd(text) - n
    ensures AfterLine(text[n..]) == AfterLine(text)
    ensures n <= |FirstLine(text)| && FirstLine(text[n..]) == FirstLine(text)[n..] && FirstLine(text)[..n] == text[..n]
  {
    hide FirstEnd;
    var i := FirstEnd(text);
    assert text[n..][..i - n] == text[..i][n..];
    FirstEndUnique(text[n..], i - n);
  }

  lemma ChopFull(line: seq<byte>, n: nat, tail: seq<seq<byte>>)
    requires 1 <= n < |line|
    ensures Chop(line, n) + tail == [line[..n]] + (Chop(line[n..], n) + tail)
  {
  }

  /** Taking a full piece off a longer line leaves the pieces of the rest. */
  lemma PiecesAfterFull(text: seq<byte>, n: nat)
    requires 1 <= n < FirstEnd(text)
    ensures Pieces(text, n) == [text[..n]] + Pieces(text[n..], n)
  {
    FirstEndAfterFull(text, n);
    FirstPieces(text, n);
    FirstPieces(text[n..], n);
    ChopFull(FirstLine(text), n, Pieces(AfterLine(text), n));
  }

  lemma FirstPieces(text: seq<byte>, n: nat)
    requires n >= 1 && text != []
    ensures Pieces(text, n) == Chop(FirstLine(text), n) + Pieces(AfterLine(text), n)
  {
  }

  /** Repeated calls on any text return the chopped lines of the text. */
  lemma {:induction false} LinesArePieces(text: seq<byte>, n: nat)
    requires n >= 1
    ensures AllLines(text, n, false, false) == Pieces(text, n)
    decreases |text|
  {
    if text != [] {
      TakeByFirstEnd(text, n);
      TakeShrinks(text, n, false);
      var i := FirstEnd(text);
      if i < n {
        LinesArePieces(AfterLine(text), n);
      } else if i == n {
        // the line end behind an exactly filled buffer is swallowed by the next call
        assert AfterLine(text) == Start(text[n..], true);
        LinesArePieces(AfterLine(text), n);
        assert AllLines(text[n..], n, true, false) == AllLines(AfterLine(text), n, false, false);
      } else {
        LinesArePieces(text[n..], n);
        PiecesAfterFull(text, n);
        assert Start(text[n..], true) == text[n..];
      }
    }
  }

  /**
   The carried flag is not set when a stream is created. The lines come out right for either
   value exactly when the text does not start with a line end.
   */
  lemma InitialFlagMatters(text: seq<byte>, n: nat)
    requires n >= 1
    ensures AllLines(text, n, true, false) == Pieces(text, n) <==> text == [] || text[0] != CHAR_LF
  {
    LinesArePieces(text, n);
    if text != [] && text[0] == CHAR_LF {
      LinesArePieces(text[1..], n);
      assert AllLines(text, n, true, false) == AllLines(text[1..], n, false, false);
      assert AfterLine(text) == text[1..] && Chop(text[..0], n) == [[]];
      assert Pieces(text, n) == [[]] + Pieces(text[1..], n);
    }
  }

  /** With the line ends kept, the pieces put together are the whole normalised text. */
  lemma {:induction false} KeptLinesConserve(text: seq<byte>, n: nat)
    requires n >= 1
    ensures Concat(AllLines(text, n, false, true)) == text
    decreases |text|
  {
    if text != [] {
      TakeShrinks(text, n, true);
      TakeConserves(text, n);
      var t := Take(text, n, true);
      KeptLinesConserve(t.rest, n);
    }
  }

  // ---- a call under way: `out` is stored, `text` is still to come ----

  function Continue(out: seq<byte>, text: seq<byte>, n: nat, skip: bool, keepNL: bool): Option<Taken> {
    if out == [] then Next(text, n, skip, keepNL)
    else if |out| > n then None
    else
      var t := Take(text, n - |out|, keepNL);
      Some(Taken(out + t.line, t.rest, t.full))
  }

  lemma ContinueAtEnd(text: seq<byte>, out: seq<byte>, n: nat, keepNL: bool)
    requires |out| < n
    ensures Continue(out, [CHAR_LF] + text, n, false, keepNL)
         == Some(Taken(if keepNL then out + [CHAR_LF] else out, text, false))
  {
    assert ([CHAR_LF] + text)[1..] == text;
    if out == [] {
      assert out + [CHAR_LF] == [CHAR_LF];
    } else {
      assert out + [] == out;
    }
  }

  lemma ContinueWith(c: byte, text: seq<byte>, out: seq<byte>, n: nat, skip: bool, keepNL: bool)
    requires |out| < n && (skip ==> out == []) && c != CHAR_LF
    ensures Continue(out, [c] + text, n, skip, keepNL) == Continue(out + [c], text, n, false, keepNL)
  {
    assert ([c] + text)[1..] == text;
    assert Start([c] + text, skip) == [c] + text;
    var t := Take(text, n - |out| - 1, keepNL);
    assert Take([c] + text, n - |out|, keepNL) == Taken([c] + t.line, t.rest, t.full);
    if out == [] {
      assert out + [c] == [c];
    } else {
      assert out + ([c] + t.line) == (out + [c]) + t.line;
    }
  }

  /** What one more raw character does to a call under way. */
  lemma ContinueChar(c: byte, raw: seq<byte>, out: seq<byte>, n: nat, skip: bool, keepNL: bool, mode: int)
    requires |out| < n && (skip ==> out == [])
    ensures var before := Continue(out, Normal([c] + raw, mode), n, skip, keepNL);
            var text := Normal(raw, mode);
            if c == LineEnd(mode) && skip then before == Continue([], text, n, false, keepNL)
            else if c == LineEnd(mode) then before == Some(Taken(if keepNL then out + [CHAR_LF] else out, text, false))
            else if c == CHAR_CR || c == CHAR_LF then before == Continue(out, text, n, skip, keepNL)
            else before == Continue(out + [c], text, n, false, keepNL)
  {
    var text := Normal(raw, mode);
    assert ([c] + raw)[1..] == raw;
    assert Normal([c] + raw, mode) == NormalChar(c, mode) + text;
    if c == LineEnd(mode) {
      if skip {
        assert Start([CHAR_LF] + text, true) == text;
      } else {
        ContinueAtEnd(text, out, n, keepNL);
      }
    } else if c == CHAR_CR || c == CHAR_LF {
      assert [] + text == text;
    } else {
      ContinueWith(c, text, out, n, skip, keepNL);
    }
  }

  /** The state of the collecting loop: what is stored, where it stops, and the pending skip. */
  datatype Collecting = Collecting(out: seq<byte>, limit: nat, skip: bool)

  /** One character, as the branches of the loop treat it. */
  function CollectChar(s: Collecting, c: byte, keepNL: bool, mode: int): Collecting {
    if c == LineEnd(mode) && s.skip then s.(skip := false)
    else if c == LineEnd(mode) then
      var out := if keepNL then s.out + [CHAR_LF] else s.out;
      Collecting(out, |out|, s.skip)
    else if c == CHAR_CR || c == CHAR_LF then s
    else Collecting(s.out + [c], s.limit, false)
  }

  /** The loop will come to `goal`: it has stopped (`limit` pulled in below `n`) or still collects. */
  predicate Heading(goal: Option<Taken>, s: Collecting, raw: seq<byte>, n: nat, keepNL: bool, mode: int) {
    var text := Normal(raw, mode);
    if s.limit < n then goal == Some(Taken(s.out, text, false)) else goal == Continue(s.out, text, n, s.skip, keepNL)
  }

  /** The loop starts on its way. */
  lemma HeadingStart(raw: seq<byte>, n: nat, skip: bool, keepNL: bool, mode: int)
    ensures Heading(Next(Normal(raw, mode), n, skip, keepNL), Collecting([], n, skip), raw, n, keepNL, mode)
  {
  }

  lemma HeadingChar(goal: Option<Taken>, s: Collecting, c: byte, raw: seq<byte>, n: nat, keepNL: bool, mode: int)
    requires |s.out| < s.limit == n && (s.skip ==> s.out == [])
    requires Heading(goal, s, [c] + raw, n, keepNL, mode)
    ensures Heading(goal, CollectChar(s, c, keepNL, mode), raw, n, keepNL, mode)
  {
    ContinueChar(c, raw, s.out, n, s.skip, keepNL, mode);
    var out := s.out + [CHAR_LF];
    assert out + [] == out;
  }

  /** A stopped loop has come to its goal; the flag says that the buffer was filled exactly. */
  lemma HeadingDone(goal: Option<Taken>, s: Collecting, raw: seq<byte>, n: nat, keepNL: bool, mode: int)
    requires |s.out| == s.limit <= n && n >= 1
    requires Heading(goal, s, raw, n, keepNL, mode)
    ensures goal == Some(Taken(s.out, Normal(raw, mode), !keepNL && |s.out| == n))
  {
    assert s.out + [] == s.out;
  }

  /** At the end of the text the loop is where its goal says. */
  lemma HeadingAtEnd(goal: Option<Taken>, s: Collecting, n: nat, keepNL: bool, mode: int)
    requires |s.out| < s.limit == n
    requires Heading(goal, s, [], n, keepNL, mode)
    ensures if s.out == [] then goal == None else Heading(goal, s.(limit := |s.out|), [], n, keepNL, mode)
  {
    assert s.out + [] == s.out;
  }
}
