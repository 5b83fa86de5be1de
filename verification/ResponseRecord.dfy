/** Transmitting a response record, in the binary and in the 7-to-8 form, and reading it on the other side. */
module ResponseRecord {
  import opened Bytes
  import opened HalfWords
  import opened RecordCodec
  import SevenToEight

  datatype Response = Response(user: seq<byte>, slot: bv16, word1: bv32, word2: bv32, data: seq<byte>)

  predicate Sendable(r: Response) {
    |r.user| == REQ_USER_LEN && |r.data| <= MAX_PACKET_LEN
  }

  function Length(r: Response): bv16
    requires Sendable(r)
  {
    HalfWordOf(|r.data|)
  }

  /** Slot, user words, length and data: the part of the record that is encoded. */
  function Fields(r: Response): seq<byte>
    requires Sendable(r)
  {
    Words(r) + r.data
  }

  function Words(r: Response): (w: seq<byte>)
    requires Sendable(r)
    ensures |w| == 12
  {
    HalfWordBytes(r.slot) + FullWordBytes(r.word1) + FullWordBytes(r.word2) + HalfWordBytes(Length(r))
  }

  const INTRO_LEN := 3 + REQ_USER_LEN

  /** AID, two cursor bytes and the user name, sent as they are. */
  function Intro(aid: byte, user: seq<byte>): seq<byte> {
    [aid, 0x40, 0x40] + user
  }

  function BinaryImage(aid: byte, r: Response): seq<byte>
    requires Sendable(r)
  {
    Intro(aid, r.user) + Escape(Fields(r)) + [IAC, EOR]
  }

  function CodedImage(aid: byte, r: Response): seq<byte>
    requires Sendable(r)
  {
    Intro(aid, r.user) + SevenToEight.Encode(Fields(r)) + [IAC, EOR]
  }

  // ---- the output side ----

  lemma NothingEscaped(base: seq<byte>, none: seq<byte>, run: seq<byte>)
    requires none == run == []
    ensures base + run == base + Escape(none)
  {
  }

  /** One byte more: it lengthens the run, or is written doubled behind it. */
  lemma RunGrows(base: seq<byte>, sent: seq<byte>, run: seq<byte>, done: seq<byte>, b: byte)
    requires sent + run == base + Escape(done)
    ensures (if b != IAC then sent + (run + [b]) else (sent + run) + [IAC, IAC]) == base + Escape(done + [b])
  {
    EscapeAppend(done, [b]);
    assert [b][1..] == [] && Escape([b]) == EscapeByte(b) + [];
    assert sent + (run + [b]) == (sent + run) + [b];
    assert (base + Escape(done)) + EscapeByte(b) == base + (Escape(done) + EscapeByte(b));
  }

  /** The pieces of a binary record, one behind the other. */
  lemma BinaryParts(base: seq<byte>, aid: byte, r: Response)
    requires Sendable(r)
    ensures base + Intro(aid, r.user) + Escape(Words(r)) + Escape(r.data) + [IAC, EOR] == base + BinaryImage(aid, r)
  {
    var intro, words, data := Intro(aid, r.user), Escape(Words(r)), Escape(r.data);
    EscapeAppend(Words(r), r.data);
    Join(base, intro, words + data, [IAC, EOR]);
    assert base + intro + words + data == base + intro + (words + data);
    assert intro + (words + data) + [IAC, EOR] == intro + (words + data + [IAC, EOR]);
  }

  class HostOutput {
    var sent: seq<byte>

    method WriteRaw(bytes: seq<byte>)
      modifies this
      ensures sent == old(sent) + bytes
    {
      sent := sent + bytes;
    }

    /** Binary form of a single byte: IAC is doubled. */
    method Write(b: byte)
      modifies this
      ensures sent == old(sent) + EscapeByte(b)
    {
      if b == IAC {
        sent := sent + [IAC] + [IAC];
      } else {
        sent := sent + [b];
      }
    }

    /** Binary form of the first `count` bytes of a buffer: runs without IAC are written in one piece. */
    method WriteBlock(src: array<byte>, count: nat)
      requires count <= src.Length
      modifies this
      ensures sent == old(sent) + Escape(src[..count])
    {
      hide Escape;
      var segStart, segLen, pos := 0, 0, 0;
      ghost var base := sent;
      NothingEscaped(base, src[..0], src[0..0]);
      while pos < count
        invariant 0 <= segStart && 0 <= segLen && segStart + segLen == pos <= count
        invariant sent + src[segStart..pos] == base + Escape(src[..pos])
      {
        var b := src[pos];
        RunGrows(base, sent, src[segStart..pos], src[..pos], b);
        assert src[..pos + 1] == src[..pos] + [b] && src[segStart..pos + 1] == src[segStart..pos] + [b];
        pos := pos + 1;
        if b != IAC {
          segLen := segLen + 1;
        } else {
          WriteRun(src, segStart, segLen);
          sent := sent + [IAC, IAC];
          segStart, segLen := pos, 0;
          assert sent + src[pos..pos] == sent;
        }
      }
      WriteRun(src, segStart, segLen);
    }

    /** Writes a run of bytes, if there are any. */
    method WriteRun(src: array<byte>, start: nat, length: nat)
      requires start + length <= src.Length
      modifies this
      ensures sent == old(sent) + src[start..start + length]
    {
      if length > 0 {
        sent := sent + src[start..start + length];
      } else {
        assert src[start..start] == [] && sent + [] == sent;
      }
    }

    method WriteWords(words: seq<byte>)
      modifies this
      ensures sent == old(sent) + Escape(words)
    {
      assert old(sent) + [] == sent;
      for i := 0 to |words|
        invariant sent == old(sent) + Escape(words[..i])
      {
        EscapeAppend(words[..i], [words[i]]);
        assert words[..i + 1] == words[..i] + [words[i]];
        assert [words[i]][1..] == [] && Escape([words[i]]) == EscapeByte(words[i]);
        Write(words[i]);
      }
      assert words[..|words|] == words;
    }

    /** Send the whole record in binary form. */
    method Transmit(aid: byte, r: Response, data: array<byte>)
      requires Sendable(r) && |r.data| <= data.Length && data[..|r.data|] == r.data
      modifies this
      ensures sent == old(sent) + BinaryImage(aid, r)
    {
      hide *;
      BinaryParts(sent, aid, r);
      WriteRaw(Intro(aid, r.user));
      WriteWords(Words(r));
      WriteBlock(data, |r.data|);
      WriteRaw([IAC, EOR]);
    }
  }

  method EncodeFields(encoder: SevenToEight.Encoder, intro: seq<byte>, r: Response, data: array<byte>)
    requires encoder.Valid() && encoder.data == [] && data != encoder.encodedBytes
    requires Sendable(r) && |r.data| <= data.Length && data[..|r.data|] == r.data
    modifies encoder, encoder.encodedBytes
    ensures encoder.Valid() && encoder.data == []
    ensures encoder.sent == old(encoder.sent) + intro + SevenToEight.Encode(Fields(r))
  {
    encoder.WriteRaw(intro);
    encoder.WriteWords(Words(r));
    assert [] + Words(r) == Words(r) && data[0..0 + |r.data|] == r.data;
    encoder.WriteBlock(data, 0, |r.data|);
    encoder.Flush();
  }

  /** Four parts, the last three put together first. */
  lemma Join(a: seq<byte>, b: seq<byte>, c: seq<byte>, d: seq<byte>)
    ensures a + b + c + d == a + (b + c + d)
  {
  }

  /** Send the whole record in 7-to-8 form, through the encoder of the response object. */
  method TransmitCoded(encoder: SevenToEight.Encoder, aid: byte, r: Response, data: array<byte>)
    requires encoder.Valid() && encoder.data == [] && data != encoder.encodedBytes
    requires Sendable(r) && |r.data| <= data.Length && data[..|r.data|] == r.data
    modifies encoder, encoder.encodedBytes
    ensures encoder.Valid() && encoder.data == []
    ensures encoder.sent == old(encoder.sent) + CodedImage(aid, r)
  {
    EncodeFields(encoder, Intro(aid, r.user), r, data);
    Join(old(encoder.sent), Intro(aid, r.user), SevenToEight.Encode(Fields(r)), [IAC, EOR]);
    encoder.WriteRaw([IAC, EOR]);
  }

  // ---- the host side ----

  /** Slot, words and data out of decoded fields; the length field tells where the data ends. */
  function FromFields(user: seq<byte>, f: seq<byte>): Option<Response> {
    if |f| < 12 then None
    else
      var len := NumberOf(HalfWord(f[10..12]));
      if |f| < 12 + len then None
      else Some(Response(user, HalfWord(f[..2]), FullWord(f[2..6]), FullWord(f[6..10]), f[12..12 + len]))
  }

  lemma SliceOfPrefix(f: seq<byte>, p: seq<byte>, a: nat, b: nat)
    requires a <= b <= |p| <= |f| && f[..|p|] == p
    ensures f[a..b] == p[a..b]
  {
    assert f[..|p|][a..b] == f[a..b];
  }

  lemma WordsApart(r: Response)
    requires Sendable(r)
    ensures var w := Words(r);
            && w[..2] == HalfWordBytes(r.slot) && w[2..6] == FullWordBytes(r.word1)
            && w[6..10] == FullWordBytes(r.word2) && w[10..12] == HalfWordBytes(Length(r))
  {
  }

  lemma PartsRead(user: seq<byte>, f: seq<byte>, slot: bv16, word1: bv32, word2: bv32, len: bv16, data: seq<byte>)
    requires |f| >= 12 + |data| && NumberOf(len) == |data|
    requires f[..2] == HalfWordBytes(slot) && f[2..6] == FullWordBytes(word1)
    requires f[6..10] == FullWordBytes(word2) && f[10..12] == HalfWordBytes(len)
    requires f[12..12 + |data|] == data
    ensures FromFields(user, f) == Some(Response(user, slot, word1, word2, data))
  {
    WordsReadBack(word1, slot);
    WordsReadBack(word2, len);
  }

  lemma FieldsRead(r: Response, f: seq<byte>)
    requires Sendable(r) && |f| >= |Fields(r)| && f[..|Fields(r)|] == Fields(r)
    ensures FromFields(r.user, f) == Some(r)
  {
    var w := Words(r);
    assert f[..12] == w by { SliceOfPrefix(f, Fields(r), 0, 12); }
    WordsApart(r);
    SliceOfPrefix(f, w, 0, 2);
    SliceOfPrefix(f, w, 2, 6);
    SliceOfPrefix(f, w, 6, 10);
    SliceOfPrefix(f, w, 10, 12);
    SliceOfPrefix(f, Fields(r), 12, 12 + |r.data|);
    NumberBack(|r.data|);
    PartsRead(r.user, f, r.slot, r.word1, r.word2, Length(r), r.data);
  }

  /** What the host reads of a record: the AID byte, which tells the handshake, two cursor bytes, and the response. */
  datatype Arrival = Arrival(aid: byte, cursor: seq<byte>, response: Response)

  /** A transmitted record as the host takes it in: without doubled IACs; `coded` records are decoded behind the user name. */
  function Receive(ahead: seq<byte>, coded: bool): Read<Option<Arrival>> {
    match ReadBody(ahead)
    case Closed => Closed
    case Got(record, rest) => Got(FromRecord(record, coded), rest)
  }

  function FromRecord(record: seq<byte>, coded: bool): Option<Arrival> {
    if |record| < INTRO_LEN then None
    else
      match FromFields(record[3..INTRO_LEN], if coded then SevenToEight.Decode(record[INTRO_LEN..]) else record[INTRO_LEN..])
      case None => None
      case Some(r) => Some(Arrival(record[0], record[1..3], r))
  }

  /** A response sent with this AID. */
  function Sent(aid: byte, r: Response): Option<Arrival> {
    Some(Arrival(aid, [0x40, 0x40], r))
  }

  lemma RecordApart(aid: byte, user: seq<byte>, body: seq<byte>)
    requires |user| == REQ_USER_LEN
    ensures var record := Intro(aid, user) + body;
            && |record| >= INTRO_LEN && record[3..INTRO_LEN] == user && record[INTRO_LEN..] == body
            && record[0] == aid && record[1..3] == [0x40, 0x40]
  {
  }

  /** Without IAC in the user name the beginning of a record needs no doubling. */
  lemma IntroEscaped(aid: byte, user: seq<byte>, body: seq<byte>)
    requires aid != IAC && IAC !in user
    ensures Escape(Intro(aid, user) + body) == Intro(aid, user) + Escape(body)
  {
    EscapeAppend(Intro(aid, user), body);
    EscapeClean(Intro(aid, user));
  }

  lemma BinaryIsRead(aid: byte, r: Response, tail: seq<byte>)
    requires Sendable(r) && aid != IAC && IAC !in r.user
    ensures Receive(BinaryImage(aid, r) + tail, false) == Got(Sent(aid, r), tail)
  {
    var record := Intro(aid, r.user) + Fields(r);
    IntroEscaped(aid, r.user, Fields(r));
    assert BinaryImage(aid, r) + tail == Escape(record) + [IAC, EOR] + tail;
    BodyReadsBack(record, tail);
    RecordApart(aid, r.user, Fields(r));
    FieldsRead(r, Fields(r));
  }

  // ---- a user name is not doubled ----

  function Iacs(s: seq<byte>): nat {
    if s == [] then 0 else (if s[0] == IAC then 1 else 0) + Iacs(s[1..])
  }

  lemma {:induction false} IacsAppend(a: seq<byte>, b: seq<byte>)
    ensures Iacs(a + b) == Iacs(a) + Iacs(b)
  {
    if a == [] {
      assert a + b == b;
    } else {
      assert (a + b)[1..] == a[1..] + b;
      IacsAppend(a[1..], b);
    }
  }

  lemma {:induction false} IacsFound(s: seq<byte>)
    ensures Iacs(s) > 0 <==> IAC in s
  {
    if s != [] {
      IacsFound(s[1..]);
      assert s == [s[0]] + s[1..];
    }
  }

  lemma {:induction false} IacsEscaped(s: seq<byte>)
    ensures Iacs(Escape(s)) == 2 * Iacs(s) && |Escape(s)| == |s| + Iacs(s)
  {
    if s != [] {
      IacsEscaped(s[1..]);
      IacsAppend(EscapeByte(s[0]), Escape(s[1..]));
      IacsOfByte(s[0]);
    }
  }

  lemma IacsOfByte(b: byte)
    ensures Iacs([b]) == (if b == IAC then 1 else 0) && Iacs(EscapeByte(b)) == 2 * Iacs([b]) && |EscapeByte(b)| == 1 + Iacs([b])
    ensures Iacs([b, EOR]) == Iacs([b])
  {
    assert [b][1..] == [] && [IAC, IAC][1..] == [IAC] && [b, EOR][1..] == [EOR] && [EOR][1..] == [];
  }

  /** A record read is shorter than its bytes on the connection by at least one byte for two IACs. */
  lemma {:induction false} ReadLength(ahead: seq<byte>)
    requires ReadBody(ahead).Got?
    ensures var (data, rest) := (ReadBody(ahead).value, ReadBody(ahead).rest);
            && |ahead| >= |rest| + |data| + 2 && ahead[|ahead| - |rest|..] == rest
            && 2 * (|ahead| - |rest| - |data| - 2) + 1 >= Iacs(ahead[..|ahead| - |rest|])
  {
    var rest := ReadBody(ahead).rest;
    if ahead[0] != IAC {
      ReadLength(ahead[1..]);
      var read := ahead[..|ahead| - |rest|];
      assert read[1..] == ahead[1..][..|ahead| - 1 - |rest|];
    } else if ahead[1] == EOR {
      assert ahead[..2] == [IAC, EOR];
      IacsOfByte(IAC);
    } else {
      ReadLength(ahead[2..]);
      var read := ahead[..|ahead| - |rest|];
      assert read == ahead[..2] + ahead[2..][..|ahead| - 2 - |rest|];
      assert ahead[..2] == [ahead[0]] + [ahead[1]];
      IacsAppend(ahead[..2], ahead[2..][..|ahead| - 2 - |rest|]);
      IacsAppend([ahead[0]], [ahead[1]]);
      IacsOfByte(ahead[0]);
      IacsOfByte(ahead[1]);
    }
  }

  lemma ImageLength(aid: byte, r: Response)
    requires Sendable(r) && aid != IAC
    ensures |BinaryImage(aid, r)| == INTRO_LEN + |Fields(r)| + Iacs(Fields(r)) + 2
    ensures Iacs(BinaryImage(aid, r)) == Iacs(r.user) + 2 * Iacs(Fields(r)) + 1
  {
    var intro, body := Intro(aid, r.user), Escape(Fields(r));
    IacsEscaped(Fields(r));
    IacsAppend(intro + body, [IAC, EOR]);
    IacsAppend(intro, body);
    IacsAppend([aid, 0x40, 0x40], r.user);
    IacsFound([aid, 0x40, 0x40]);
    IacsOfByte(IAC);
  }

  lemma FieldsAreShort(user: seq<byte>, f: seq<byte>, r: Response)
    requires FromFields(user, f) == Some(r) && Sendable(r)
    ensures |f| >= |Fields(r)|
  {
  }

  /**
   Every response transmitted in binary form arrives as it was, behind its AID and with the next
   record right behind it, if and only if there is no IAC in its user name, which is sent as it is.
   */
  lemma BinaryArrives(aid: byte, r: Response, tail: seq<byte>)
    requires Sendable(r) && aid != IAC
    ensures Receive(BinaryImage(aid, r) + tail, false) == Got(Sent(aid, r), tail) <==> IAC !in r.user
  {
    var image := BinaryImage(aid, r);
    if IAC !in r.user {
      BinaryIsRead(aid, r, tail);
    } else if Receive(image + tail, false) == Got(Sent(aid, r), tail) {
      var record := ReadBody(image + tail).value;
      ReadLength(image + tail);
      ImageLength(aid, r);
      assert (image + tail)[..|image|] == image;
      IacsFound(r.user);
      FieldsAreShort(record[3..INTRO_LEN], record[INTRO_LEN..], r);
      assert false;
    }
  }

  /** The same in 7-to-8 form, whose encoding needs no doubling. */
  lemma CodedArrives(aid: byte, r: Response, tail: seq<byte>)
    requires Sendable(r) && aid != IAC && IAC !in r.user
    ensures Receive(CodedImage(aid, r) + tail, true) == Got(Sent(aid, r), tail)
  {
    hide SevenToEight.Encode, SevenToEight.Decode, FromFields, Escape, ReadBody, Intro;
    var coded := SevenToEight.Encode(Fields(r));
    var record := Intro(aid, r.user) + coded;
    CodedIsClean(Fields(r));
    IntroEscaped(aid, r.user, coded);
    assert CodedImage(aid, r) + tail == Escape(record) + [IAC, EOR] + tail;
    BodyReadsBack(record, tail);
    RecordApart(aid, r.user, coded);
    SevenToEight.RoundTrip(Fields(r));
    FieldsRead(r, SevenToEight.Decode(coded));
  }

  /** Seven bits make no IAC. */
  lemma CodedIsClean(fields: seq<byte>)
    ensures Escape(SevenToEight.Encode(fields)) == SevenToEight.Encode(fields)
  {
    SevenToEight.EncodeIsSevenBit(fields);
    assert IAC & 0x80 != 0;
    EscapeClean(SevenToEight.Encode(fields));
  }
}
