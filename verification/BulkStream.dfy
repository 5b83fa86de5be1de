/** The stdio-like streams of the client: blocks are fetched from and sent to the outside, callers see bytes and lines. */
module BulkStream {
  import opened Bytes
  import opened TextLines
  import CodePage
  import Dispatcher
  import BulkRead
  import PlatformLines
  import TextPath

  const STREAM_BUFFER_LEN := 2048

  const NERR_NOERROR := 0
  const NERR_COMMERROR := 1
  const NERR_NOT_SOURCE := 20
  const NERR_NOT_SINK := 21
  const NERR_EOF := 1000
  const NERR_NOTTEXTSTREAM := 1011
  const NERR_NOTBINSTREAM := 1012

  /** The characters of a C string: everything up to the first NUL. */
  function CString(text: seq<byte>): seq<byte> {
    Before(text, 0)
  }

  lemma CStringStops(text: seq<byte>)
    ensures var r := CString(text); r <= text && 0 !in r && (|r| < |text| ==> text[|r|] == 0)
  {
  }

  class BulkStream {
    const remote: Dispatcher.StreamManager
    const streamId: int
    const isText: bool
    const isSourceStream: bool
    const lineEndMode: int
    const a2e: byte -> byte // translation table for text read
    const e2a: byte -> byte // translation table for text written
    var lastLineWasBufferEnd: bool
    var streamState: int
    var nerr: int
    var commrc: int
    var bufLen: nat
    var bufPos: nat
    const buffer: array<byte>

    ghost predicate Valid()
      reads this`bufPos, this`bufLen, remote
    {
      && buffer.Length == STREAM_BUFFER_LEN
      && Dispatcher.Valid(remote.Model())
      && bufLen <= STREAM_BUFFER_LEN
      && bufPos <= bufLen && (!isSourceStream ==> bufLen == STREAM_BUFFER_LEN)
    }

    constructor (remote: Dispatcher.StreamManager, id: int, source: bool, text: bool, mode: int,
                 a2e: byte -> byte, e2a: byte -> byte)
      requires Dispatcher.Valid(remote.Model())
      ensures Valid() && fresh(buffer)
      ensures this.remote == remote && streamId == id && isSourceStream == source && isText == text
      ensures lineEndMode == mode && this.a2e == a2e && this.e2a == e2a
      ensures nerr == NERR_NOERROR && streamState == Dispatcher.STATE_OK
      ensures source ==> Reader() == BulkRead.Reader([], Dispatcher.STATE_OK)
      ensures !source ==> Pending() == []
    {
      this.remote, streamId, isText, isSourceStream, lineEndMode := remote, id, text, source, mode;
      this.a2e, this.e2a := a2e, e2a;
      // lastLineWasBufferEnd is left as it is
      streamState, nerr, commrc := Dispatcher.STATE_OK, NERR_NOERROR, 0;
      bufLen, bufPos := if source then 0 else STREAM_BUFFER_LEN, 0;
      buffer := new byte[STREAM_BUFFER_LEN];
    }

    // ---- source streams ----

    /** What the client has fetched but not delivered. */
    ghost function Reader(): BulkRead.Reader
      requires Valid() && isSourceStream
      reads this`bufPos, this`bufLen, this`streamState, remote, buffer
    {
      BulkRead.Reader(buffer[bufPos..bufLen], streamState)
    }

    /** What the caller has put but the client has not sent. */
    ghost function Pending(): seq<byte>
      requires Valid() && !isSourceStream
      reads this`bufPos, this`bufLen, remote, buffer
    {
      buffer[..bufPos]
    }

    /** A fetched block as the client sees it. */
    function Incoming(block: seq<byte>): (r: seq<byte>)
      ensures |r| == |block|
    {
      if isText then CodePage.Translate(a2e, block) else block
    }

    method Store(block: seq<byte>)
      requires |block| <= buffer.Length
      modifies buffer
      ensures buffer[..|block|] == block
    {
      for i := 0 to |block|
        invariant buffer[..i] == block[..i]
      {
        buffer[i] := block[i];
      }
    }

    /** Fetch the next block, translating it on a text stream. */
    method Fetch()
      requires Valid() && isSourceStream
      modifies this, buffer, remote
      ensures Valid() && bufPos == 0 && lastLineWasBufferEnd == old(lastLineWasBufferEnd)
      ensures var (m, reply) := Dispatcher.Read(old(remote.Model()), streamId);
              && remote.Model() == m && commrc == reply.rc
              && Reader() == BulkRead.Reader(Incoming(reply.block), reply.state)
              && nerr == if reply.rc != 0 then NERR_COMMERROR else old(nerr)
    {
      var reply := remote.BulkSourceRead(streamId);
      commrc, streamState, bufLen, bufPos := reply.rc, reply.state, |reply.block|, 0;
      Store(Incoming(reply.block));
      if commrc != 0 { nerr := NERR_COMMERROR; }
      assert buffer[bufPos..bufLen] == buffer[..bufLen];
    }

    /** What delivering `want` more bytes gives. */
    ghost function Delivery(want: nat): BulkRead.Filled
      requires Valid() && isSourceStream
      reads this`bufPos, this`bufLen, this`streamState, remote, buffer
    {
      BulkRead.Fill(want, Reader(), remote.Model(), streamId)
    }

    /** Move the next buffered byte to `dest`, behind the `count` bytes already there. */
    method MoveByte(dest: array<byte>, count: nat, ghost want: nat)
      requires Valid() && isSourceStream && bufPos < bufLen && count < dest.Length && dest != buffer && want >= 1
      modifies this`bufPos, dest
      ensures Valid() && Prepend(old(dest[..count]), old(Delivery(want))) == Prepend(dest[..count + 1], Delivery(want - 1))
    {
      BulkRead.FillByte(want, Reader(), remote.Model(), streamId);
      ghost var sofar, c := dest[..count], buffer[bufPos];
      dest[count] := buffer[bufPos];
      bufPos := bufPos + 1;
      PrependByte(sofar, c, Delivery(want - 1));
      assert dest[..count + 1] == sofar + [c];
    }

    /** Fetch when nothing is buffered and `count` bytes are already delivered. */
    method Refill(ghost dest: array<byte>, ghost count: nat, ghost want: nat)
      requires Valid() && isSourceStream && !isText && bufPos == bufLen && streamState == Dispatcher.STATE_OK
      requires want >= 1 && count <= dest.Length && dest != buffer
      modifies this, buffer, remote
      ensures Valid() && bufPos == 0
      ensures Prepend(old(dest[..count]), old(Delivery(want)))
           == if bufLen == 0 then BulkRead.Filled(dest[..count], Reader(), remote.Model()) else Prepend(dest[..count], Delivery(want))
    {
      BulkRead.FillFetch(want, remote.Model(), streamId);
      assert buffer[bufPos..bufLen] == [];
      ghost var sofar := dest[..count];
      Fetch();
      assert dest[..count] == sofar && sofar + [] == sofar;
    }

    /** Deliver up to `bufferLen` bytes of a binary stream, if the stream can be read at all. */
    method Nread(dest: array<byte>, bufferLen: nat) returns (count: nat)
      requires Valid() && bufferLen <= dest.Length && dest != buffer
      modifies this, buffer, remote, dest
      ensures Valid() && count <= bufferLen
      ensures !isSourceStream || isText || old(nerr) == NERR_EOF ==> count == 0 && remote.Model() == old(remote.Model())
      ensures isSourceStream && !isText && old(nerr) != NERR_EOF ==>
                old(Delivery(bufferLen)) == BulkRead.Filled(dest[..count], Reader(), remote.Model())
    {
      if !isSourceStream {
        nerr := NERR_NOT_SOURCE;
        return 0;
      }
      if nerr == NERR_EOF { return 0; }
      if bufPos >= bufLen && streamState == Dispatcher.STATE_SOURCE_ENDED {
        assert buffer[bufPos..bufLen] == [] && dest[..0] == [];
        return 0;
      }
      if isText {
        nerr := NERR_NOTBINSTREAM;
        return 0;
      }
      nerr := NERR_NOERROR;
      count := CopyOut(dest, bufferLen);
    }

    /** Nothing more is wanted, or nothing more will come. */
    lemma DeliveryOver(sofar: seq<byte>, want: nat)
      requires Valid() && isSourceStream && (want == 0 || (bufPos == bufLen && streamState != Dispatcher.STATE_OK))
      ensures Prepend(sofar, Delivery(want)) == BulkRead.Filled(sofar, Reader(), remote.Model())
    {
      var buffered := buffer[bufPos..bufLen];
      assert buffered[..0] == [] && buffered[0..] == buffered && sofar + [] == sofar;
    }

    /** The delivery loop of `Nread`. */
    method CopyOut(dest: array<byte>, bufferLen: nat) returns (count: nat)
      requires Valid() && isSourceStream && !isText && bufferLen <= dest.Length && dest != buffer
      modifies this, buffer, remote, dest
      ensures Valid() && count <= bufferLen
      ensures old(Delivery(bufferLen)) == BulkRead.Filled(dest[..count], Reader(), remote.Model())
    {
      hide Prepend, Delivery;
      count := 0;
      ghost var goal := Delivery(bufferLen);
      PrependNothing(goal);
      assert dest[..count] == [];
      while count < bufferLen
        invariant Valid() && count <= bufferLen
        invariant goal == Prepend(dest[..count], Delivery(bufferLen - count))
      {
        if bufPos >= bufLen {
          if streamState != Dispatcher.STATE_OK { break; }
          Refill(dest, count, bufferLen - count);
          if bufLen == 0 { return; }
        }
        MoveByte(dest, count, bufferLen - count);
        count := count + 1;
      }
      DeliveryOver(dest[..count], bufferLen - count);
    }

    // ---- text ----

    /** The text still to come: what is buffered and what the source holds, as the client sees it. */
    ghost function Raw(): seq<byte>
      requires Valid() && isSourceStream
      reads this`bufPos, this`bufLen, this`streamState, remote, buffer
    {
      Reader().buffered + CodePage.Translate(a2e, BulkRead.Left(remote.Model(), streamId))
    }

    ghost function Text(): seq<byte>
      requires Valid() && isSourceStream
      reads this`bufPos, this`bufLen, this`streamState, remote, buffer
    {
      Normal(Raw(), lineEndMode)
    }

    /** The source is a file: it answers with filled blocks, then once with an empty one that reports the end. */
    ghost predicate FileBacked()
      requires Valid() && isSourceStream
      reads this`bufPos, this`bufLen, this`streamState, remote, buffer
    {
      && isText && streamId in remote.bulkSources
      && FileScript(remote.bulkSources[streamId].answers, streamState)
      && (streamState != Dispatcher.STATE_OK ==> bufPos == bufLen)
    }

    lemma NoTextAtEnd()
      requires Valid() && isSourceStream && FileBacked() && streamState != Dispatcher.STATE_OK
      ensures Raw() == [] && Text() == []
    {
      assert buffer[bufPos..bufLen] == [];
    }

    /** A text stream on a file of which nothing was fetched yet. */
    ghost predicate Unread()
      reads this, remote, buffer
    {
      && Valid() && isSourceStream && FileBacked() && nerr != NERR_EOF && !lastLineWasBufferEnd
      && bufPos == bufLen && a2e == CodePage.A2E
    }

    /** Its text is that of the whole source. */
    lemma UnreadText()
      requires Unread()
      ensures Text() == Normal(CodePage.Translate(CodePage.A2E, BulkRead.Left(remote.Model(), streamId)), lineEndMode)
    {
      assert buffer[bufPos..bufLen] == [];
      var text := CodePage.Translate(a2e, BulkRead.Left(remote.Model(), streamId));
      assert [] + text == text;
    }

    /** What happens to other streams, and to sinks of the same client, leaves it so. */
    twostate lemma StaysUnread()
      requires old(Unread()) && unchanged(this) && unchanged(buffer)
      requires Dispatcher.Valid(old(remote.Model())) ==> Dispatcher.Valid(remote.Model())
      requires remote.Model().sources == old(remote.Model()).sources
      ensures Unread() && BulkRead.Left(remote.Model(), streamId) == BulkRead.Left(old(remote.Model()), streamId)
    {
    }

    method ReadChar() returns (c: byte)
      requires Valid() && isSourceStream && bufPos < bufLen
      modifies this`bufPos
      ensures Valid() && bufPos == old(bufPos) + 1
      ensures c == old(buffer[bufPos]) && old(Raw()) == [c] + Raw()
      ensures old(FileBacked()) && streamState == Dispatcher.STATE_OK ==> FileBacked()
    {
      c := buffer[bufPos];
      ghost var left := CodePage.Translate(a2e, BulkRead.Left(remote.Model(), streamId));
      assert buffer[bufPos..bufLen] == [c] + buffer[bufPos + 1..bufLen];
      bufPos := bufPos + 1;
      assert [c] + (buffer[bufPos..bufLen] + left) == [c] + buffer[bufPos..bufLen] + left;
    }

    /** Fetching a block does not change the text; a file's empty block is its end. */
    method RefillText()
      requires Valid() && isSourceStream && bufPos == bufLen && streamState == Dispatcher.STATE_OK
      modifies this, buffer, remote
      ensures Valid() && bufPos == 0 && lastLineWasBufferEnd == old(lastLineWasBufferEnd)
      ensures nerr == old(nerr) || nerr == NERR_COMMERROR
      ensures old(FileBacked()) ==> FileBacked() && Raw() == old(Raw())
      ensures old(FileBacked()) ==> (bufLen == 0 <==> streamState != Dispatcher.STATE_OK) && (bufLen == 0 ==> Raw() == [])
      ensures AnswersLeft() < old(AnswersLeft()) || bufLen == 0
      ensures AnswersLeft() <= old(AnswersLeft())
    {
      hide Dispatcher.Read, Dispatcher.BlocksOf, FileScript, BulkRead.Left, BulkRead.AnswersLeft, CodePage.Translate;
      assert buffer[bufPos..bufLen] == [];
      ghost var text := CodePage.Translate(a2e, BulkRead.Left(remote.Model(), streamId));
      assert [] + text == text;
      AnswerUsed(remote.Model(), streamId);
      if FileBacked() {
        AnswerOfFile(a2e, remote.Model(), streamId);
      }
      Fetch();
    }

    /** The loop body of `Ngetstr` for one buffered character. */
    method TakeChar(dest: array<byte>, curr: nat, limit: nat, skip: bool, keepNL: bool)
      returns (curr': nat, limit': nat, skip': bool)
      requires Valid() && isSourceStream && bufPos < bufLen && dest != buffer && curr < limit < dest.Length
      modifies this`bufPos, dest
      ensures Valid() && bufPos == old(bufPos) + 1 && curr' <= limit' <= limit
      ensures old(FileBacked()) && streamState == Dispatcher.STATE_OK ==> FileBacked()
      ensures old(Raw()) == [old(buffer[bufPos])] + Raw()
      ensures Collecting(dest[..curr'], limit', skip')
           == CollectChar(Collecting(old(dest[..curr]), limit, skip), old(buffer[bufPos]), keepNL, lineEndMode)
    {
      curr', limit', skip' := curr, limit, skip;
      ghost var out := dest[..curr];
      var c := ReadChar();
      ghost var raw := Raw();
      if c == CHAR_LF && lineEndMode != MODE_CR && skip {
        skip' := false;
      } else if c == CHAR_CR && lineEndMode == MODE_CR && skip {
        skip' := false;
      } else if c == CHAR_LF {
        if lineEndMode != MODE_CR {
          if keepNL { dest[curr] := c; curr' := curr + 1; }
          limit' := curr';
        }
      } else if c == CHAR_CR {
        if lineEndMode == MODE_CR {
          if keepNL { dest[curr] := CHAR_LF; curr' := curr + 1; }
          limit' := curr';
        }
      } else {
        dest[curr] := c;
        curr' := curr + 1;
        skip' := false;
      }
      assert Raw() == raw;
      assert dest[..curr'] == if curr' == curr then out else out + [dest[curr]];
    }

    /** A file-backed stream on which the loop is on its way to `goal`. */
    ghost predicate OnTheWay(goal: Option<Taken>, s: Collecting, n: nat, keepNL: bool)
      requires Valid() && isSourceStream
      reads this`bufPos, this`bufLen, this`streamState, remote, buffer
    {
      && FileBacked() && (streamState == Dispatcher.STATE_OK || s.limit == |s.out|)
      && Heading(goal, s, Raw(), n, keepNL, lineEndMode)
    }

    /** The part of the loop that fetches a block; it may find that the source has ended. */
    method CollectRefill(dest: array<byte>, curr: nat, limit: nat, ghost skip: bool, ghost keepNL: bool,
                         ghost goal: Option<Taken>)
      returns (limit': nat, ended: bool)
      requires Valid() && isSourceStream && dest != buffer && curr < limit < dest.Length && bufPos == bufLen
      modifies this, buffer, remote
      ensures Valid() && lastLineWasBufferEnd == old(lastLineWasBufferEnd)
      ensures nerr == old(nerr) || nerr == NERR_COMMERROR
      ensures if limit' == limit && !ended then bufPos < bufLen && AnswersLeft() < old(AnswersLeft())
              else limit' == curr && AnswersLeft() <= old(AnswersLeft()) && bufLen <= bufPos
      ensures old(OnTheWay(goal, Collecting(dest[..curr], limit, skip), limit, keepNL)) ==>
                if ended then goal == None && FileBacked() && Raw() == []
                else OnTheWay(goal, Collecting(old(dest[..curr]), limit', skip), limit, keepNL)
    {
      limit', ended := limit, false;
      if streamState != Dispatcher.STATE_OK {
        limit' := curr;
        return;
      }
      ghost var s := Collecting(dest[..curr], limit, skip);
      RefillText();
      if bufLen == 0 {
        if Heading(goal, s, [], limit, keepNL, lineEndMode) {
          HeadingAtEnd(goal, s, limit, keepNL, lineEndMode);
        }
        limit', ended := curr, curr == 0 && streamState != Dispatcher.STATE_OK;
      }
    }

    lemma InOrder()
      requires Valid() && isSourceStream && bufPos < bufLen
      ensures FileBacked() ==> streamState == Dispatcher.STATE_OK
    {
    }

    /** One round of the collecting loop; `ended` when the source ended before the first character. */
    method CollectStep(dest: array<byte>, curr: nat, limit: nat, skip: bool, keepNL: bool, ghost goal: Option<Taken>)
      returns (curr': nat, limit': nat, skip': bool, ended: bool)
      requires Valid() && isSourceStream && dest != buffer && curr < limit < dest.Length && (skip ==> curr == 0)
      modifies this, buffer, remote, dest
      ensures Valid() && lastLineWasBufferEnd == old(lastLineWasBufferEnd)
      ensures nerr == old(nerr) || nerr == NERR_COMMERROR
      ensures curr' <= limit' <= limit && (limit' == limit || limit' == curr') && (skip' ==> curr' == 0)
      ensures old(OnTheWay(goal, Collecting(dest[..curr], limit, skip), limit, keepNL)) ==>
                if ended then goal == None && FileBacked() && Raw() == []
                else OnTheWay(goal, Collecting(dest[..curr'], limit', skip'), limit, keepNL)
      ensures ended || limit' == curr' || AnswersLeft() < old(AnswersLeft())
           || (AnswersLeft() == old(AnswersLeft()) && bufLen - bufPos < old(bufLen - bufPos))
    {
      hide Normal, Heading, FileBacked, Raw;
      curr', limit', skip', ended := curr, limit, skip, false;
      ghost var s := Collecting(dest[..curr], limit, skip);
      if bufPos >= bufLen {
        limit', ended := CollectRefill(dest, curr, limit, skip, keepNL, goal);
        assert dest[..curr] == s.out;
        if ended || limit' == curr { return; }
      }
      InOrder();
      ghost var c := buffer[bufPos];
      curr', limit', skip' := TakeChar(dest, curr, limit, skip, keepNL);
      if Heading(goal, s, [c] + Raw(), limit, keepNL, lineEndMode) {
        HeadingChar(goal, s, c, Raw(), limit, keepNL, lineEndMode);
      }
    }

    /** A call delivered what its goal says: nothing at the end of the text, or a line, leaving the rest of the text. */
    ghost predicate Delivered(goal: Option<Taken>, r: Option<nat>, dest: array<byte>, full: bool)
      requires Valid() && isSourceStream
      reads this`bufPos, this`bufLen, this`streamState, remote, buffer, dest
    {
      && FileBacked()
      && match r
         case None => goal == None && Text() == []
         case Some(len) => len <= dest.Length && goal == Some(Taken(dest[..len], Text(), full))
    }

    /** The lines that repeated calls will return. */
    ghost function Coming(n: nat): seq<seq<byte>>
      requires Valid() && isSourceStream && n >= 1
      reads this, remote, buffer
    {
      AllLines(Text(), n, lastLineWasBufferEnd, false)
    }

    /** On a file's text one call that drops line ends moves the first of the coming lines to those read. */
    method Ngetline(dest: array<byte>, bufferLen: nat, ghost all: seq<seq<byte>>, ghost read: seq<seq<byte>>)
      returns (r: Option<nat>)
      requires Valid() && isSourceStream && FileBacked() && nerr != NERR_EOF
      requires 2 <= bufferLen <= dest.Length && dest != buffer
      requires all == read + Coming(bufferLen - 1)
      modifies this, buffer, remote, dest
      ensures Valid() && FileBacked() && nerr != NERR_EOF
      ensures match r
              case None => all == read
              case Some(len) =>
                && len < dest.Length && dest[len] == 0 && |Text()| < |old(Text())|
                && all == (read + [dest[..len]]) + Coming(bufferLen - 1)
    {
      hide AllLines, Next, Normal;
      FirstOfAllLines(read, Text(), bufferLen - 1, lastLineWasBufferEnd);
      r := Ngetstr(dest, bufferLen, false);
    }

    /** The checks at the start of `Ngetstr`: a stream that fails them has no text to deliver. */
    method TextReadable() returns (ok: bool)
      requires Valid()
      modifies this`nerr
      ensures Valid()
      ensures ok ==> isSourceStream && isText && nerr == old(nerr) && (streamState == Dispatcher.STATE_SOURCE_ENDED ==> bufPos < bufLen)
      ensures !ok && isSourceStream && old(nerr) != NERR_EOF && FileBacked() ==> Text() == [] && nerr == old(nerr)
      ensures !isSourceStream || !isText ==> !ok
    {
      if !isSourceStream {
        nerr := NERR_NOT_SOURCE;
        return false;
      }
      if nerr == NERR_EOF { return false; }
      if bufPos >= bufLen && streamState == Dispatcher.STATE_SOURCE_ENDED {
        if FileBacked() { NoTextAtEnd(); }
        return false;
      }
      if !isText {
        nerr := NERR_NOTTEXTSTREAM;
        return false;
      }
      return true;
    }

    /**
     Store the next line of at most `bufferLen`-1 characters, ended by a NUL, or nothing at the
     end of the stream. On a file's text this is one step of the specification.
     */
    method Ngetstr(dest: array<byte>, bufferLen: nat, keepNL: bool) returns (r: Option<nat>)
      requires Valid() && dest != buffer && bufferLen <= dest.Length && dest.Length >= 1
      modifies this, buffer, remote, dest
      ensures Valid() && (r.Some? ==> r.value < dest.Length && dest[r.value] == 0)
      ensures !isSourceStream || !isText ==> r == None && remote.Model() == old(remote.Model())
      ensures isSourceStream && old(FileBacked()) && old(nerr) != NERR_EOF && bufferLen >= 2 ==>
                && nerr != NERR_EOF
                && Delivered(Next(old(Text()), bufferLen - 1, old(lastLineWasBufferEnd), keepNL), r, dest, lastLineWasBufferEnd)
    {
      var readable := TextReadable();
      if !readable { return None; }
      r := GetLine(dest, bufferLen, keepNL);
    }

    /** The rest of `Ngetstr`: consume the flag of the last call, collect, set the flag for the next call. */
    method GetLine(dest: array<byte>, bufferLen: nat, keepNL: bool) returns (r: Option<nat>)
      requires Valid() && isSourceStream && dest != buffer && bufferLen <= dest.Length && dest.Length >= 1
      modifies this, buffer, remote, dest
      ensures Valid() && nerr != NERR_EOF && (r.Some? ==> r.value < dest.Length && dest[r.value] == 0)
      ensures old(FileBacked()) && old(streamState) == Dispatcher.STATE_OK && bufferLen >= 2 ==>
                Delivered(Next(old(Text()), bufferLen - 1, old(lastLineWasBufferEnd), keepNL), r, dest, lastLineWasBufferEnd)
    {
      hide Next, Text, Delivered, FileBacked;
      var skipLineEnd := lastLineWasBufferEnd;
      lastLineWasBufferEnd := false;
      nerr := NERR_NOERROR;
      if bufferLen < 2 {
        dest[0] := 0;
        return Some(0);
      }
      r := Collect(dest, bufferLen - 1, keepNL, skipLineEnd);
      lastLineWasBufferEnd := !keepNL && r == Some(bufferLen - 1);
    }

    /** The collecting loop of `Ngetstr` and the final NUL; `None` when the source ended before the first character. */
    method Collect(dest: array<byte>, n: nat, keepNL: bool, skipLineEnd: bool) returns (r: Option<nat>)
      requires Valid() && isSourceStream && dest != buffer && 1 <= n < dest.Length
      modifies this, buffer, remote, dest
      ensures Valid() && lastLineWasBufferEnd == old(lastLineWasBufferEnd)
      ensures nerr == old(nerr) || nerr == NERR_COMMERROR
      ensures r.Some? ==> r.value <= n && dest[r.value] == 0
      ensures old(FileBacked()) && old(streamState) == Dispatcher.STATE_OK ==>
                Delivered(Next(old(Text()), n, skipLineEnd, keepNL), r, dest, !keepNL && r == Some(n))
    {
      hide Next, Raw, OnTheWay, Delivered, FileBacked;
      var curr: nat, limit: nat, skip, ended := 0, n, skipLineEnd, false;
      ghost var goal := Next(Text(), n, skipLineEnd, keepNL);
      assert dest[..curr] == [];
      Starting(n, keepNL, skipLineEnd);
      while curr < limit
        invariant Valid() && curr <= limit <= n && (limit == n || limit == curr) && (skip ==> curr == 0)
        invariant lastLineWasBufferEnd == old(lastLineWasBufferEnd) && (nerr == old(nerr) || nerr == NERR_COMMERROR)
        invariant old(FileBacked()) && old(streamState) == Dispatcher.STATE_OK ==>
                    OnTheWay(goal, Collecting(dest[..curr], limit, skip), n, keepNL)
        decreases limit - curr > 0, AnswersLeft(), bufLen - bufPos
      {
        curr, limit, skip, ended := CollectStep(dest, curr, limit, skip, keepNL, goal);
        if ended {
          NothingDelivered(goal, dest);
          return None;
        }
      }
      LineDelivered(goal, dest, curr, n, skip, keepNL);
      EndString(dest, curr, goal, !keepNL && curr == n);
      return Some(curr);
    }

    /** The loop starts on its way to the next line of the text. */
    lemma Starting(n: nat, keepNL: bool, skip: bool)
      requires Valid() && isSourceStream && n >= 1
      ensures FileBacked() && streamState == Dispatcher.STATE_OK ==>
                OnTheWay(Next(Text(), n, skip, keepNL), Collecting([], n, skip), n, keepNL)
    {
      HeadingStart(Raw(), n, skip, keepNL, lineEndMode);
    }

    lemma NothingDelivered(goal: Option<Taken>, dest: array<byte>)
      requires Valid() && isSourceStream
      ensures goal == None && FileBacked() && Raw() == [] ==> Delivered(goal, None, dest, false)
    {
    }

    /** A loop that has stopped has delivered its goal. */
    lemma LineDelivered(goal: Option<Taken>, dest: array<byte>, curr: nat, n: nat, skip: bool, keepNL: bool)
      requires Valid() && isSourceStream && curr <= n < dest.Length && n >= 1
      ensures OnTheWay(goal, Collecting(dest[..curr], curr, skip), n, keepNL) ==>
                Delivered(goal, Some(curr), dest, !keepNL && curr == n)
    {
      if OnTheWay(goal, Collecting(dest[..curr], curr, skip), n, keepNL) {
        HeadingDone(goal, Collecting(dest[..curr], curr, skip), Raw(), n, keepNL, lineEndMode);
      }
    }

    /** Put the NUL behind a delivered line. */
    method EndString(dest: array<byte>, curr: nat, ghost goal: Option<Taken>, ghost full: bool)
      requires Valid() && isSourceStream && dest != buffer && curr < dest.Length
      modifies dest
      ensures dest[curr] == 0
      ensures old(Delivered(goal, Some(curr), dest, full)) ==> Delivered(goal, Some(curr), dest, full)
    {
      hide FileBacked, Text;
      ghost var line := dest[..curr];
      dest[curr] := 0;
      assert dest[..curr] == line;
    }

    ghost function AnswersLeft(): nat
      reads remote
    {
      BulkRead.AnswersLeft(remote.Model(), streamId)
    }

    // ---- sink streams ----

    /** A block as it leaves the client. */
    function Outgoing(block: seq<byte>): (r: seq<byte>)
      ensures |r| == |block|
    {
      if isText then CodePage.Translate(e2a, block) else block
    }

    lemma OutgoingAppend(a: seq<byte>, b: seq<byte>)
      ensures Outgoing(a + b) == Outgoing(a) + Outgoing(b)
    {
      if isText { CodePage.TranslateAppend(e2a, a, b); }
    }

    /** Everything that was put: what the sink was given, then what is still buffered. */
    ghost function Put(): seq<byte>
      requires Valid() && !isSourceStream && streamId in remote.bulkSinks
      reads this`bufPos, this`bufLen, remote, buffer
    {
      Concat(remote.bulkSinks[streamId].got) + Outgoing(Pending())
    }

    /** Send what is buffered as one block; nothing is sent when nothing is buffered. */
    method NflushInner()
      requires Valid() && !isSourceStream
      modifies this, remote
      ensures Valid() && Pending() == []
      ensures remote.Model() == if old(Pending()) == [] then old(remote.Model())
                                else Dispatcher.Write(old(remote.Model()), streamId, Outgoing(old(Pending()))).0
      ensures old(streamId in remote.bulkSinks) ==>
                streamId in remote.bulkSinks && Put() == old(Put()) && nerr == old(nerr) && OthersKept(old(remote.Model()), remote.Model())
    {
      if bufPos == 0 { return; }
      ghost var m := remote.Model();
      var reply := remote.BulkSinkWrite(streamId, Outgoing(buffer[..bufPos]));
      commrc, streamState := reply.rc, reply.state;
      if commrc != 0 { nerr := NERR_COMMERROR; }
      bufPos := 0;
      bufLen := STREAM_BUFFER_LEN;
      if streamId in m.sinks {
        ConcatSnoc(m.sinks[streamId].got, Outgoing(old(Pending())));
      }
    }

    /** Buffer one byte and send the buffer as soon as it is full; `base` and `sofar` were put before. */
    method PutC(c: byte, ghost base: seq<byte>, ghost sofar: seq<byte>)
      requires Writable() && Put() == base + Outgoing(sofar)
      modifies this, remote, buffer
      ensures Writable() && nerr == old(nerr)
      ensures Put() == base + Outgoing(sofar + [c])
      ensures OthersKept(old(remote.Model()), remote.Model())
    {
      ghost var pending, handed := buffer[..bufPos], Concat(remote.bulkSinks[streamId].got);
      OutgoingAppend(pending, [c]);
      OutgoingAppend(sofar, [c]);
      assert handed + Outgoing(pending) + Outgoing([c]) == handed + (Outgoing(pending) + Outgoing([c]));
      assert base + Outgoing(sofar) + Outgoing([c]) == base + (Outgoing(sofar) + Outgoing([c]));
      buffer[bufPos] := c;
      bufPos := bufPos + 1;
      assert buffer[..bufPos] == pending + [c];
      if bufPos == bufLen {
        NflushInner();
      }
    }

    /** A sink stream with room in its buffer; between calls the buffer is never full. */
    ghost predicate Writable()
      reads this`bufPos, this`bufLen, remote
    {
      Valid() && !isSourceStream && bufPos < bufLen && streamId in remote.bulkSinks
    }

    /** Only this stream's sink changed. */
    ghost predicate OthersKept(before: Dispatcher.Manager, after: Dispatcher.Manager) {
      && after == before.(sinks := after.sinks) && after.sinks.Keys == before.sinks.Keys
      && forall id :: id in before.sinks && id != streamId ==> after.sinks[id] == before.sinks[id]
    }

    /** Put bytes until one is answered with a bad state; `k` bytes were put. */
    method PutAll(bytes: seq<byte>, ghost base: seq<byte>, ghost sofar: seq<byte>) returns (k: nat)
      requires Writable() && streamState == Dispatcher.STATE_OK && Put() == base + Outgoing(sofar)
      modifies this, remote, buffer
      ensures Writable() && nerr == old(nerr) && k <= |bytes|
      ensures if streamState == Dispatcher.STATE_OK then k == |bytes| else k > 0
      ensures Put() == base + Outgoing(sofar + bytes[..k])
      ensures OthersKept(old(remote.Model()), remote.Model())
    {
      k := 0;
      assert sofar + bytes[..0] == sofar;
      while k < |bytes|
        invariant Writable() && nerr == old(nerr) && k <= |bytes| && streamState == Dispatcher.STATE_OK
        invariant Put() == base + Outgoing(sofar + bytes[..k])
        invariant OthersKept(old(remote.Model()), remote.Model())
      {
        TakeOneMore(sofar, bytes, k);
        PutC(bytes[k], base, sofar + bytes[..k]);
        k := k + 1;
        if streamState != Dispatcher.STATE_OK { return; }
      }
    }

    /** A beginning of `line` was put behind `base`. */
    ghost predicate Partly(base: seq<byte>, line: seq<byte>)
      requires Writable()
      reads this`bufPos, this`bufLen, remote, buffer
    {
      exists k :: 0 <= k <= |line| && Put() == base + Outgoing(line[..k])
    }

    /** A stream that takes data of this kind at the moment. */
    predicate Accepts(text: bool)
      reads this
    {
      !isSourceStream && nerr == NERR_NOERROR && streamState == Dispatcher.STATE_OK && isText == text
    }

    /** The part of `Nputstr` that puts, on a stream that takes text. */
    method PutLine(text: seq<byte>, appendNewline: bool) returns (ok: bool)
      requires Writable() && Accepts(true)
      modifies this, remote, buffer
      ensures Writable() && OthersKept(old(remote.Model()), remote.Model()) && nerr == NERR_NOERROR
      ensures ok <==> streamState == Dispatcher.STATE_OK
      ensures ok ==> Put() == old(Put()) + Outgoing(Line(text, appendNewline))
      ensures !ok ==> Partly(old(Put()), Line(text, appendNewline))
    {
      ghost var base, line := Put(), Line(text, appendNewline);
      var chars := CString(text);
      var end := if appendNewline then TextPath.NewLine(lineEndMode) else [];
      assert Put() == base + Outgoing([]);
      var k := PutAll(chars, base, []);
      CutOfFirst(chars, end, k);
      assert [] + chars[..k] == line[..k];
      if streamState != Dispatcher.STATE_OK { return false; }
      assert chars[..k] == chars;
      k := PutAll(end, base, chars);
      CutOfSum(chars, end, k);
      if streamState != Dispatcher.STATE_OK { return false; }
      assert line[..|chars| + k] == line;
      return true;
    }

    /** Put a string and, if asked, a line end; on failure a beginning of it was put. */
    method Nputstr(text: seq<byte>, appendNewline: bool) returns (ok: bool)
      requires Valid() && (!isSourceStream ==> Writable())
      modifies this, remote, buffer
      ensures !old(Accepts(true)) ==> !ok && remote.Model() == old(remote.Model()) && bufPos == old(bufPos)
      ensures !isSourceStream ==> Writable() && OthersKept(old(remote.Model()), remote.Model())
      ensures ok ==> Accepts(true) && Put() == old(Put()) + Outgoing(Line(text, appendNewline))
      ensures old(Accepts(true)) && !ok ==>
                streamState != Dispatcher.STATE_OK && Partly(old(Put()), Line(text, appendNewline))
    {
      if isSourceStream {
        nerr := NERR_NOT_SINK;
        return false;
      }
      if nerr != NERR_NOERROR || streamState != Dispatcher.STATE_OK { return false; }
      if !isText {
        nerr := NERR_NOTTEXTSTREAM;
        return false;
      }
      ok := PutLine(text, appendNewline);
    }

    function OutgoingLines(lines: seq<seq<byte>>): seq<byte> {
      Outgoing(TextPath.Written(lines, lineEndMode))
    }

    lemma NoLines(base: seq<byte>)
      ensures base + OutgoingLines([]) == base
    {
    }

    lemma OneMoreLine(base: seq<byte>, lines: seq<seq<byte>>, last: seq<byte>)
      requires CString(last) == last
      ensures base + OutgoingLines(lines) + Outgoing(Line(last, true)) == base + OutgoingLines(lines + [last])
    {
      TextPath.WrittenSnoc(lines, last, lineEndMode);
      OutgoingAppend(TextPath.Written(lines, lineEndMode), Line(last, true));
      Assoc(base, OutgoingLines(lines), Outgoing(Line(last, true)));
    }

    /** What one `Nputstr` call puts. */
    function Line(text: seq<byte>, appendNewline: bool): seq<byte> {
      CString(text) + if appendNewline then TextPath.NewLine(lineEndMode) else []
    }

    /** Put a binary block; a result below its length means that one byte more than that was put, or nothing at all. */
    method Nwrite(data: seq<byte>) returns (count: nat)
      requires Valid() && (!isSourceStream ==> Writable())
      modifies this, remote, buffer
      ensures !old(Accepts(false)) ==> count == 0 && remote.Model() == old(remote.Model()) && bufPos == old(bufPos)
      ensures !isSourceStream ==> Writable() && OthersKept(old(remote.Model()), remote.Model())
      ensures old(Accepts(false)) ==>
                if streamState == Dispatcher.STATE_OK then count == |data| && Put() == old(Put()) + data
                else count < |data| && Put() == old(Put()) + data[..count + 1]
    {
      if isSourceStream {
        nerr := NERR_NOT_SINK;
        return 0;
      }
      if nerr != NERR_NOERROR || streamState != Dispatcher.STATE_OK { return 0; }
      if isText {
        nerr := NERR_NOTBINSTREAM;
        return 0;
      }
      assert Put() == Put() + Outgoing([]);
      count := PutAll(data, Put(), []);
      assert [] + data[..count] == data[..count] && data[..|data|] == data;
      if streamState != Dispatcher.STATE_OK { count := count - 1; }
    }

    method Nflush()
      requires Valid() && (!isSourceStream ==> Writable())
      modifies this, remote
      ensures !isSourceStream ==> Writable() && Put() == old(Put()) && OthersKept(old(remote.Model()), remote.Model())
      ensures !isSourceStream ==>
                if old(nerr) == NERR_NOERROR && old(streamState) == Dispatcher.STATE_OK then Pending() == []
                else remote.Model() == old(remote.Model()) && bufPos == old(bufPos)
    {
      if isSourceStream {
        nerr := NERR_NOT_SINK;
        return;
      }
      if nerr != NERR_NOERROR || streamState != Dispatcher.STATE_OK { return; }
      NflushInner();
    }

    /** Close the stream; what a sink was given by then is everything that was put. */
    method Nclose() returns (ghost given: seq<byte>)
      requires Valid() && (!isSourceStream ==> Writable())
      modifies this, remote
      ensures Dispatcher.Valid(remote.Model())
      ensures !isSourceStream ==> remote.Model().sources == old(remote.Model()).sources
      ensures old(streamState) != Dispatcher.STATE_CLOSED ==>
                if isSourceStream then remote.Model() == Dispatcher.CloseSource(old(remote.Model()), streamId).0
                else remote.Model().sinks == old(remote.Model()).sinks - {streamId} && given == old(Put())
    {
      given := [];
      if streamState == Dispatcher.STATE_CLOSED { return; }
      if isSourceStream {
        var reply := remote.BulkSourceClose(streamId);
        streamState := reply.state;
      } else {
        NflushInner();
        given := Concat(remote.bulkSinks[streamId].got);
        var reply := remote.BulkSinkClose(streamId);
        streamState := reply.state;
      }
    }
  }

  /** Read a file's text line by line until the stream reports its end, as the listing commands do. */
  method ReadLines(stream: BulkStream, dest: array<byte>, bufferLen: nat) returns (lines: seq<seq<byte>>)
    requires stream.Valid() && stream.isSourceStream && stream.FileBacked() && stream.nerr != NERR_EOF
    requires !stream.lastLineWasBufferEnd
    requires 2 <= bufferLen <= dest.Length && dest != stream.buffer
    modifies stream, stream.buffer, stream.remote, dest
    ensures lines == Pieces(old(stream.Text()), bufferLen - 1)
  {
    hide AllLines, Pieces, Normal;
    LinesArePieces(stream.Text(), bufferLen - 1);
    lines := ReadAll(stream, dest, bufferLen, stream.Coming(bufferLen - 1));
  }

  method ReadAll(stream: BulkStream, dest: array<byte>, bufferLen: nat, ghost all: seq<seq<byte>>) returns (lines: seq<seq<byte>>)
    requires stream.Valid() && stream.isSourceStream && stream.FileBacked() && stream.nerr != NERR_EOF
    requires 2 <= bufferLen <= dest.Length && dest != stream.buffer
    requires all == stream.Coming(bufferLen - 1)
    modifies stream, stream.buffer, stream.remote, dest
    ensures lines == all
  {
    hide AllLines, Normal;
    lines := [];
    var r := Some(0);
    assert [] + all == all;
    while r.Some?
      invariant stream.Valid() && stream.FileBacked() && stream.nerr != NERR_EOF
      invariant if r.Some? then all == lines + stream.Coming(bufferLen - 1) else all == lines
      decreases r.Some?, |stream.Text()|
    {
      r := stream.Ngetline(dest, bufferLen, all, lines);
      if r.Some? { lines := lines + [dest[..r.value]]; }
    }
  }

  /** Write lines until one is refused, as the upload commands do; `done` of them were put completely. */
  method WriteLines(stream: BulkStream, lines: seq<seq<byte>>) returns (done: nat)
    requires stream.Writable() && stream.Accepts(true)
    requires AllCStrings(lines)
    modifies stream, stream.buffer, stream.remote
    ensures stream.Writable() && done <= |lines|
    ensures stream.remote.Model().sources == old(stream.remote.Model()).sources
    ensures stream.streamState == Dispatcher.STATE_OK ==>
              done == |lines| && stream.Put() == old(stream.Put()) + stream.Outgoing(TextPath.Written(lines, stream.lineEndMode))
  {
    hide TextPath.Written, CString, CodePage.Translate;
    done := 0;
    ghost var base := stream.Put();
    assert lines[..0] == [];
    stream.NoLines(base);
    while done < |lines|
      invariant stream.Writable() && stream.Accepts(true) && done <= |lines|
      invariant stream.remote.Model().sources == old(stream.remote.Model()).sources
      invariant stream.Put() == base + stream.OutgoingLines(lines[..done])
    {
      stream.OneMoreLine(base, lines[..done], lines[done]);
      assert lines[..done + 1] == lines[..done] + [lines[done]];
      var ok := stream.Nputstr(lines[done], true);
      if !ok { return; }
      done := done + 1;
    }
    assert lines[..done] == lines;
  }

  /** What a fresh sink gets for lines, read back as a file, gives the lines exactly if they all fit. */
  lemma WrittenReadsBack(lines: seq<seq<byte>>, n: nat, mode: int)
    requires n >= 1
    ensures Pieces(Normal(CodePage.Translate(CodePage.A2E, TextPath.Outside(lines, mode)), mode), n) == lines
       <==> TextPath.AllFit(lines, n)
  {
    TextPath.TextRoundTrip(lines, n, mode);
    LinesArePieces(Normal(CodePage.Translate(CodePage.A2E, TextPath.Outside(lines, mode)), mode), n);
  }

  predicate AllCStrings(lines: seq<seq<byte>>) {
    forall i :: 0 <= i < |lines| ==> CString(lines[i]) == lines[i]
  }

  /** Write lines to a new sink and close it; what it was given are the lines as they look outside. */
  method WriteFile(writer: BulkStream, lines: seq<seq<byte>>) returns (ok: bool, ghost given: seq<byte>)
    requires writer.Writable() && writer.Accepts(true) && writer.Put() == [] && writer.e2a == CodePage.E2A
    requires AllCStrings(lines)
    modifies writer, writer.buffer, writer.remote
    ensures ok ==> given == TextPath.Outside(lines, writer.lineEndMode)
    ensures ok ==>
              (PlatformLines.Split(given, PlatformLines.End(writer.lineEndMode)) == PlatformLines.TranslateAll(lines)
               <==> PlatformLines.NoneContains(lines, writer.lineEndMode))
    ensures ok ==> writer.streamId !in writer.remote.bulkSinks
    ensures Dispatcher.Valid(writer.remote.Model()) && writer.remote.Model().sources == old(writer.remote.Model()).sources
  {
    var done := WriteLines(writer, lines);
    ok := writer.streamState == Dispatcher.STATE_OK;
    ghost var put := writer.Put();
    assert ok ==> put == [] + writer.Outgoing(TextPath.Written(lines, writer.lineEndMode));
    given := [];
    if ok {
      given := writer.Nclose();
      PlatformLines.PlatformFindsLines(lines, writer.lineEndMode);
    }
  }

  /** Read a file from its beginning to its end. */
  method ReadFile(reader: BulkStream, dest: array<byte>, bufferLen: nat) returns (read: seq<seq<byte>>)
    requires reader.Unread() && 2 <= bufferLen <= dest.Length && dest != reader.buffer
    modifies reader, reader.buffer, reader.remote, dest
    ensures var text := CodePage.Translate(CodePage.A2E, BulkRead.Left(old(reader.remote.Model()), reader.streamId));
            read == Pieces(Normal(text, reader.lineEndMode), bufferLen - 1)
  {
    hide Pieces, Normal;
    reader.UnreadText();
    read := ReadLines(reader, dest, bufferLen);
  }

  /**
   One stream writes lines and another reads the file they went into. Under each of the four line
   end conventions and however the file is cut into blocks the same lines come back if and only if
   they all fit. Both streams may belong to the same client.
   */
  method WriteThenRead(writer: BulkStream, lines: seq<seq<byte>>, reader: BulkStream, dest: array<byte>, bufferLen: nat)
    returns (ok: bool, read: seq<seq<byte>>, ghost given: seq<byte>)
    requires writer.Writable() && writer.Accepts(true) && writer.Put() == [] && writer.e2a == CodePage.E2A
    requires reader.Unread() && writer.lineEndMode == reader.lineEndMode
    requires writer != reader && writer.buffer != reader.buffer
    requires 2 <= bufferLen <= dest.Length && dest != reader.buffer && dest != writer.buffer
    requires AllCStrings(lines)
    modifies writer, writer.buffer, writer.remote, reader, reader.buffer, reader.remote, dest
    ensures ok ==> given == TextPath.Outside(lines, writer.lineEndMode)
    ensures ok && BulkRead.Left(old(reader.remote.Model()), reader.streamId) == given ==>
              (read == lines <==> TextPath.AllFit(lines, bufferLen - 1))
  {
    hide *;
    ok, given := WriteFile(writer, lines);
    reader.StaysUnread();
    read := ReadFile(reader, dest, bufferLen);
    WrittenReadsBack(lines, bufferLen - 1, writer.lineEndMode);
  }

  ghost predicate FileScript(answers: seq<Dispatcher.Answer>, state: int) {
    if state == Dispatcher.STATE_OK then
      && answers != []
      && answers[|answers| - 1] == Dispatcher.Answer([], Dispatcher.STATE_SOURCE_ENDED)
      && forall i :: 0 <= i < |answers| - 1 ==> answers[i].block != [] && answers[i].state == Dispatcher.STATE_OK
    else
      state == Dispatcher.STATE_SOURCE_ENDED && answers == []
  }

  /** A read takes an answer, or there is none. */
  lemma AnswerUsed(m: Dispatcher.Manager, id: int)
    ensures var (m', reply) := Dispatcher.Read(m, id);
            BulkRead.AnswersLeft(m', id) <= BulkRead.AnswersLeft(m, id)
            && (BulkRead.AnswersLeft(m', id) < BulkRead.AnswersLeft(m, id) || reply.block == [])
  {
  }

  /** A read of a file takes a block off its text; an empty block is its end. */
  lemma AnswerOfFile(a2e: byte -> byte, m: Dispatcher.Manager, id: int)
    requires id in m.sources && FileScript(m.sources[id].answers, Dispatcher.STATE_OK)
    ensures var (m', reply) := Dispatcher.Read(m, id);
            && id in m'.sources && FileScript(m'.sources[id].answers, reply.state)
            && (reply.block == [] <==> reply.state != Dispatcher.STATE_OK)
            && (reply.block == [] ==> CodePage.Translate(a2e, BulkRead.Left(m', id)) == [])
            && CodePage.Translate(a2e, BulkRead.Left(m, id))
            == CodePage.Translate(a2e, reply.block) + CodePage.Translate(a2e, BulkRead.Left(m', id))
  {
    var answers := m.sources[id].answers;
    CodePage.TranslateAppend(a2e, answers[0].block, Dispatcher.BlocksOf(answers[1..]));
  }

  function Prepend(bytes: seq<byte>, f: BulkRead.Filled): BulkRead.Filled {
    BulkRead.Filled(bytes + f.got, f.reader, f.m)
  }

  lemma PrependNothing(f: BulkRead.Filled)
    ensures Prepend([], f) == f
  {
    assert [] + f.got == f.got;
  }

  lemma PrependByte(bytes: seq<byte>, c: byte, f: BulkRead.Filled)
    ensures Prepend(bytes, Prepend([c], f)) == Prepend(bytes + [c], f)
  {
    assert bytes + ([c] + f.got) == bytes + [c] + f.got;
  }
}
