/**
 The binary records on the telnet connection: IAC is doubled inside a record and IAC EOR ends it
 (RFC 854 "TELNET COMMAND STRUCTURE", RFC 856 section 5, RFC 885 section 5).
 */
module RecordCodec {
  import opened Bytes

  const IAC: byte := 0xFF
  const EOR: byte := 0xEF
  const REQ_USER_LEN := 8
  const MAX_PACKET_LEN := 2048

  // ---- writing ----

  function EscapeByte(b: byte): seq<byte> {
    if b == IAC then [IAC, IAC] else [b]
  }

  function Escape(data: seq<byte>): seq<byte> {
    if data == [] then [] else EscapeByte(data[0]) + Escape(data[1..])
  }

  lemma {:induction false} EscapeAppend(a: seq<byte>, b: seq<byte>)
    ensures Escape(a + b) == Escape(a) + Escape(b)
  {
    if a == [] {
      assert a + b == b;
    } else {
      assert (a + b)[1..] == a[1..] + b;
      EscapeAppend(a[1..], b);
    }
  }

  lemma {:induction false} EscapeClean(a: seq<byte>)
    requires IAC !in a
    ensures Escape(a) == a
  {
    if a != [] {
      EscapeClean(a[1..]);
    }
  }

  function HalfWordBytes(w: bv16): seq<byte> {
    [((w >> 8) & 0xFF) as byte, (w & 0xFF) as byte]
  }

  function FullWordBytes(w: bv32): seq<byte> {
    [((w >> 24) & 0xFF) as byte, ((w >> 16) & 0xFF) as byte, ((w >> 8) & 0xFF) as byte, (w & 0xFF) as byte]
  }

  // ---- reading, on the bytes that are still to come ----

  datatype Read<+T> = Closed | Got(value: T, rest: seq<byte>)

  /** One byte, undoing the doubling; a single IAC is delivered and its follower stays. */
  function ReadByte(ahead: seq<byte>): Read<byte> {
    if ahead == [] then Closed
    else if ahead[0] != IAC then Got(ahead[0], ahead[1..])
    else if |ahead| == 1 then Closed
    else if ahead[1] == IAC then Got(IAC, ahead[2..])
    else Got(IAC, ahead[1..])
  }

  function ReadBytes(ahead: seq<byte>, n: nat): (r: Read<seq<byte>>)
    ensures r.Got? ==> |r.value| == n
  {
    if n == 0 then Got([], ahead)
    else match ReadByte(ahead)
      case Closed => Closed
      case Got(b, rest) =>
        match ReadBytes(rest, n - 1)
        case Closed => Closed
        case Got(bs, rest') => Got([b] + bs, rest')
  }

  function HalfWord(b: seq<byte>): bv16
    requires |b| == 2
  {
    ((b[0] as bv16) << 8) | (b[1] as bv16)
  }

  function FullWord(b: seq<byte>): bv32
    requires |b| == 4
  {
    ((((((b[0] as bv32) << 8) | (b[1] as bv32)) << 8) | (b[2] as bv32)) << 8) | (b[3] as bv32)
  }

  /** The data of a record up to its IAC EOR; IAC before any other byte stands for IAC. */
  function ReadBody(ahead: seq<byte>): Read<seq<byte>> {
    if ahead == [] then Closed
    else if ahead[0] != IAC then Cons(ahead[0], ReadBody(ahead[1..]))
    else if |ahead| == 1 then Closed
    else if ahead[1] == EOR then Got([], ahead[2..])
    else Cons(IAC, ReadBody(ahead[2..]))
  }

  function Cons(b: byte, r: Read<seq<byte>>): Read<seq<byte>> {
    match r
    case Closed => Closed
    case Got(bs, rest) => Got([b] + bs, rest)
  }

  function Cut(data: seq<byte>): seq<byte> {
    if |data| <= MAX_PACKET_LEN then data else data[..MAX_PACKET_LEN]
  }

  datatype Record = Record(user: seq<byte>, word1: bv32, word2: bv32, slot: bv16, data: seq<byte>)

  /** A request record from its user name on: user, two words, slot, data. */
  function ReadRecord(ahead: seq<byte>): Read<Record> {
    match ReadBytes(ahead, REQ_USER_LEN)
    case Closed => Closed
    case Got(user, rest) =>
      match ReadBytes(rest, 4)
      case Closed => Closed
      case Got(w1, rest) =>
        match ReadBytes(rest, 4)
        case Closed => Closed
        case Got(w2, rest) =>
          match ReadBytes(rest, 2)
          case Closed => Closed
          case Got(h, rest) =>
            match ReadBody(rest)
            case Closed => Closed
            case Got(data, rest) => Got(Record(user, FullWord(w1), FullWord(w2), HalfWord(h), Cut(data)), rest)
  }

  // ---- what is written is read back ----

  lemma WordsReadBack(w: bv32, h: bv16)
    ensures FullWord(FullWordBytes(w)) == w && HalfWord(HalfWordBytes(h)) == h
  {
  }

  /** The high bytes come first. */
  lemma HighByteFirst(w: bv32, h: bv16)
    ensures HalfWordBytes(h)[0] as bv16 == h / 0x100 && HalfWordBytes(h)[1] as bv16 == h % 0x100
    ensures var b := FullWordBytes(w);
            && b[0] as bv32 == w / 0x100_0000 && b[1] as bv32 == w / 0x1_0000 % 0x100
            && b[2] as bv32 == w / 0x100 % 0x100 && b[3] as bv32 == w % 0x100
  {
  }

  lemma ByteReadsBack(b: byte, tail: seq<byte>)
    ensures ReadByte(EscapeByte(b) + tail) == Got(b, tail)
  {
    assert (EscapeByte(b) + tail)[|EscapeByte(b)|..] == tail;
  }

  lemma {:induction false} BytesReadBack(data: seq<byte>, tail: seq<byte>)
    ensures ReadBytes(Escape(data) + tail, |data|) == Got(data, tail)
  {
    if data != [] {
      var rest := Escape(data[1..]) + tail;
      assert Escape(data) + tail == EscapeByte(data[0]) + rest;
      ByteReadsBack(data[0], rest);
      BytesReadBack(data[1..], tail);
      assert [data[0]] + data[1..] == data;
    } else {
      assert Escape(data) + tail == tail;
    }
  }

  /** Data of any length and content is found again, and the reader stops right behind the IAC EOR. */
  lemma {:induction false} BodyReadsBack(data: seq<byte>, tail: seq<byte>)
    ensures ReadBody(Escape(data) + [IAC, EOR] + tail) == Got(data, tail)
  {
    if data == [] {
      assert Escape(data) + [IAC, EOR] + tail == [IAC, EOR] + tail;
    } else {
      var rest := Escape(data[1..]) + [IAC, EOR] + tail;
      var all := Escape(data) + [IAC, EOR] + tail;
      assert all == EscapeByte(data[0]) + rest;
      assert all[|EscapeByte(data[0])|..] == rest;
      BodyReadsBack(data[1..], tail);
      assert [data[0]] + data[1..] == data;
    }
  }

  /** A record as the binary writers put it on the connection, in the order in which it is received, and what follows it. */
  function Written(r: Record, tail: seq<byte>): seq<byte> {
    Escape(r.user) + (Escape(FullWordBytes(r.word1)) + (Escape(FullWordBytes(r.word2))
    + (Escape(HalfWordBytes(r.slot)) + (Escape(r.data) + [IAC, EOR] + tail))))
  }

  /** The record comes back identically, except that data beyond the packet length is cut; what follows is untouched. */
  lemma RecordReadsBack(r: Record, tail: seq<byte>)
    requires |r.user| == REQ_USER_LEN
    ensures ReadRecord(Written(r, tail)) == Got(r.(data := r.data[..if |r.data| < 2048 then |r.data| else 2048]), tail)
  {
    var body := Escape(r.data) + [IAC, EOR] + tail;
    var slot := Escape(HalfWordBytes(r.slot)) + body;
    var word2 := Escape(FullWordBytes(r.word2)) + slot;
    var word1 := Escape(FullWordBytes(r.word1)) + word2;
    BytesReadBack(r.user, word1);
    BytesReadBack(FullWordBytes(r.word1), word2);
    BytesReadBack(FullWordBytes(r.word2), slot);
    BytesReadBack(HalfWordBytes(r.slot), body);
    BodyReadsBack(r.data, tail);
    WordsReadBack(r.word1, r.slot);
    WordsReadBack(r.word2, r.slot);
    assert r.data[..|r.data|] == r.data;
  }
}
