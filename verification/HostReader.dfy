/** The buffered reader under the host connection: bytes, words and records out of whatever pieces TCP delivers. */
module HostReader {
  import opened Bytes
  import opened RecordCodec

  const RCV_BUFFER_LEN := MAX_PACKET_LEN * 4

  class HostReader {
    const rcvBuffer: array<byte>
    var rcvLen: int
    var rcvPos: nat
    var incoming: seq<seq<byte>> // what the next reads of the socket return; then the connection is closed

    ghost predicate Valid()
      reads this
    {
      && rcvBuffer.Length == RCV_BUFFER_LEN && rcvLen <= RCV_BUFFER_LEN
      && (if rcvLen >= 0 then rcvPos <= rcvLen else rcvPos == 0 && incoming == [])
      && forall i :: 0 <= i < |incoming| ==> |incoming[i]| <= RCV_BUFFER_LEN
    }

    /** The bytes still to come, however they are cut. */
    ghost function Ahead(): seq<byte>
      requires Valid()
      reads this, rcvBuffer
    {
      (if rcvLen >= 0 then rcvBuffer[rcvPos..rcvLen] else []) + Concat(incoming)
    }

    constructor (pieces: seq<seq<byte>>)
      requires forall i :: 0 <= i < |pieces| ==> |pieces[i]| <= RCV_BUFFER_LEN
      ensures Valid() && Ahead() == Concat(pieces) && fresh(rcvBuffer)
    {
      rcvBuffer := new byte[RCV_BUFFER_LEN];
      rcvLen, rcvPos, incoming := 0, 0, pieces;
    }

    /** Read the socket into the buffer: the length of the piece, or -1 when the connection is closed. */
    method ReadSocket() returns (n: int)
      requires Valid() && rcvPos == 0 && rcvLen == 0
      modifies this, rcvBuffer
      ensures rcvLen == 0 && rcvPos == 0 && Valid()
      ensures if old(incoming) == [] then n == -1 && incoming == []
              else n == |old(incoming)[0]| && rcvBuffer[..n] == old(incoming)[0] && incoming == old(incoming)[1..]
    {
      if incoming == [] { return -1; }
      var piece := incoming[0];
      for i := 0 to |piece|
        invariant rcvBuffer[..i] == piece[..i] && incoming == old(incoming) && rcvLen == 0 && rcvPos == 0
      {
        rcvBuffer[i] := piece[i];
      }
      incoming := incoming[1..];
      return |piece|;
    }

    /** Reads pieces until there is a byte in the buffer, or the connection is closed. */
    method FillBuffer() returns (open: bool)
      requires Valid() && rcvPos >= rcvLen
      modifies this, rcvBuffer
      ensures Valid() && Ahead() == old(Ahead())
      ensures if open then rcvPos < rcvLen else Ahead() == []
    {
      ghost var ahead := Ahead();
      rcvLen := 0;
      rcvPos := 0;
      while rcvLen == 0
        invariant Valid() && rcvPos == 0 && rcvLen >= 0 && Ahead() == ahead
        decreases |incoming|, if rcvLen == 0 then 1 else 0
      {
        var n := ReadSocket();
        rcvLen := n;
        if rcvLen < 0 { return false; }
        assert rcvBuffer[rcvPos..rcvLen] == rcvBuffer[..n];
      }
      open := true;
    }

    /** The next byte as it is on the connection; `None` when the connection is closed. */
    method RcvByteRaw() returns (r: Option<byte>)
      requires Valid()
      modifies this, rcvBuffer
      ensures Valid()
      ensures if old(Ahead()) == [] then r == None && Ahead() == []
              else r == Some(old(Ahead())[0]) && Ahead() == old(Ahead())[1..]
      ensures r.Some? ==> rcvLen > 0 && rcvPos >= 1 && rcvBuffer[rcvPos - 1] == r.value
    {
      if rcvPos >= rcvLen {
        var open := FillBuffer();
        if !open { return None; }
      }
      var b := TakeBuffered();
      return Some(b);
    }

    /** Takes a byte out of the buffer. */
    method TakeBuffered() returns (b: byte)
      requires Valid() && rcvPos < rcvLen
      modifies this`rcvPos
      ensures Valid() && rcvPos >= 1 && rcvBuffer[rcvPos - 1] == b && old(Ahead()) == [b] + Ahead()
    {
      hide Concat;
      b := rcvBuffer[rcvPos];
      ghost var behind, coming := rcvBuffer[rcvPos + 1..rcvLen], Concat(incoming);
      assert rcvBuffer[rcvPos..rcvLen] == [b] + behind;
      assert [b] + behind + coming == [b] + (behind + coming);
      rcvPos := rcvPos + 1;
    }

    /** Gives the byte just taken back. */
    method GiveBack(b: byte)
      requires Valid() && rcvLen > 0 && rcvPos >= 1 && rcvBuffer[rcvPos - 1] == b
      modifies this`rcvPos
      ensures Valid() && Ahead() == [b] + old(Ahead())
    {
      ghost var buffered, coming := rcvBuffer[rcvPos..rcvLen], Concat(incoming);
      rcvPos := rcvPos - 1;
      assert rcvBuffer[rcvPos..rcvLen] == [b] + buffered;
      assert [b] + buffered + coming == [b] + (buffered + coming);
    }

    /** The next byte of a record with IAC un-doubled; the byte after a single IAC is given back. */
    method RcvByte() returns (r: Option<byte>)
      requires Valid()
      modifies this, rcvBuffer
      ensures Valid()
      ensures match ReadByte(old(Ahead()))
              case Closed => r == None
              case Got(b, rest) => r == Some(b) && Ahead() == rest
    {
      r := RcvByteRaw();
      if r == Some(IAC) {
        ghost var ahead := Ahead();
        var next := RcvByteRaw();
        if next == None { return None; }
        if next != Some(IAC) {
          GiveBack(next.value);
          assert ahead == [ahead[0]] + ahead[1..];
        }
      }
    }

    /** `n` bytes of a record. */
    method RcvBytes(n: nat) returns (r: Option<seq<byte>>)
      requires Valid()
      modifies this, rcvBuffer
      ensures Valid()
      ensures match ReadBytes(old(Ahead()), n)
              case Closed => r == None
              case Got(bs, rest) => r == Some(bs) && Ahead() == rest
    {
      hide ReadByte;
      var bs := [];
      ghost var goal := ReadBytes(Ahead(), n);
      PrefixNothing(goal);
      while |bs| < n
        invariant Valid() && |bs| <= n
        invariant goal == Prefixed(bs, ReadBytes(Ahead(), n - |bs|))
      {
        PrefixByte(bs, Ahead(), n - |bs|);
        var b := RcvByte();
        if b == None { return None; }
        bs := bs + [b.value];
      }
      assert bs + [] == bs;
      return Some(bs);
    }

    method RcvHalfWord() returns (r: Option<bv16>)
      requires Valid()
      modifies this, rcvBuffer
      ensures Valid()
      ensures match ReadBytes(old(Ahead()), 2)
              case Closed => r == None
              case Got(bs, rest) => r == Some(HalfWord(bs)) && Ahead() == rest
    {
      var bs := RcvBytes(2);
      if bs == None { return None; }
      return Some(HalfWord(bs.value));
    }

    method RcvFullWord() returns (r: Option<bv32>)
      requires Valid()
      modifies this, rcvBuffer
      ensures Valid()
      ensures match ReadBytes(old(Ahead()), 4)
              case Closed => r == None
              case Got(bs, rest) => r == Some(FullWord(bs)) && Ahead() == rest
    {
      var bs := RcvBytes(4);
      if bs == None { return None; }
      return Some(FullWord(bs.value));
    }

    /** The data of a record up to its IAC EOR, cut to the size of the request's buffer. */
    method RcvData(dest: array<byte>) returns (r: Option<nat>)
      requires Valid() && dest != rcvBuffer && dest.Length == MAX_PACKET_LEN
      modifies this, rcvBuffer, dest
      ensures Valid()
      ensures match ReadBody(old(Ahead()))
              case Closed => r == None
              case Got(data, rest) => r == Some(|Cut(data)|) && dest[..r.value] == Cut(data) && Ahead() == rest
    {
      hide ReadBody, Concat, Prefixed;
      var rcvCount: nat, lastEor0, hadEor := 0, false, false;
      ghost var got: seq<byte>, goal := [], ReadBody(Ahead());
      PrefixNothing(goal);
      while !hadEor
        invariant Valid() && rcvCount == |Cut(got)| && dest[..rcvCount] == Cut(got)
        invariant hadEor ==> goal == Got(got, Ahead())
        invariant !hadEor ==> goal == Prefixed(got, ReadBody(if lastEor0 then [IAC] + Ahead() else Ahead()))
        decreases !hadEor, |Ahead()|
      {
        ghost var ahead := Ahead();
        if lastEor0 { PrefixBody(got, [IAC] + ahead); } else { PrefixBody(got, ahead); }
        var b := RcvByteRaw();
        if b == None { return None; }
        assert ahead[1..] == Ahead() && ([IAC] + ahead)[2..] == Ahead() && ahead == [b.value] + Ahead();
        if b.value == EOR && lastEor0 {
          hadEor := true;
        } else if lastEor0 {
          // any other byte behind an IAC: the IAC itself is data, the byte is dropped
          rcvCount := Append(dest, rcvCount, IAC, got);
          got := got + [IAC];
          lastEor0 := false;
        } else {
          lastEor0 := b.value == IAC;
          if !lastEor0 {
            rcvCount := Append(dest, rcvCount, b.value, got);
            got := got + [b.value];
          }
        }
      }
      return Some(rcvCount);
    }

    /** Store a data byte unless the buffer is full. */
    method Append(dest: array<byte>, count: nat, b: byte, ghost got: seq<byte>) returns (count': nat)
      requires dest.Length == MAX_PACKET_LEN && count == |Cut(got)| && dest[..count] == Cut(got)
      modifies dest
      ensures count' == |Cut(got + [b])| && dest[..count'] == Cut(got + [b])
    {
      count' := count;
      if count < dest.Length {
        dest[count] := b;
        count' := count + 1;
        assert dest[..count'] == dest[..count] + [b];
      }
    }

    /** A request record from its user name on: the result depends on the bytes only, not on their pieces. */
    method RcvRecord(dest: array<byte>) returns (r: Option<Record>)
      requires Valid() && dest != rcvBuffer && dest.Length == MAX_PACKET_LEN
      modifies this, rcvBuffer, dest
      ensures Valid()
      ensures match ReadRecord(old(Ahead()))
              case Closed => r == None
              case Got(record, rest) => r == Some(record) && dest[..|record.data|] == record.data && Ahead() == rest
    {
      var user := RcvBytes(REQ_USER_LEN);
      if user == None { return None; }
      var word1 := RcvFullWord();
      if word1 == None { return None; }
      var word2 := RcvFullWord();
      if word2 == None { return None; }
      var slot := RcvHalfWord();
      if slot == None { return None; }
      var len := RcvData(dest);
      if len == None { return None; }
      return Some(Record(user.value, word1.value, word2.value, slot.value, dest[..len.value]));
    }
  }

  function Prefixed(bs: seq<byte>, r: Read<seq<byte>>): Read<seq<byte>> {
    match r
    case Closed => Closed
    case Got(more, rest) => Got(bs + more, rest)
  }

  lemma PrefixNothing(r: Read<seq<byte>>)
    ensures Prefixed([], r) == r
  {
    if r.Got? { assert [] + r.value == r.value; }
  }

  lemma PrefixCons(bs: seq<byte>, b: byte, r: Read<seq<byte>>)
    ensures Prefixed(bs, Cons(b, r)) == Prefixed(bs + [b], r)
  {
    if r.Got? { assert bs + ([b] + r.value) == (bs + [b]) + r.value; }
  }

  lemma PrefixByte(bs: seq<byte>, ahead: seq<byte>, n: nat)
    requires n >= 1
    ensures match ReadByte(ahead)
            case Closed => Prefixed(bs, ReadBytes(ahead, n)) == Closed
            case Got(b, rest) => Prefixed(bs, ReadBytes(ahead, n)) == Prefixed(bs + [b], ReadBytes(rest, n - 1))
  {
    match ReadByte(ahead)
    case Closed =>
    case Got(b, rest) => PrefixCons(bs, b, ReadBytes(rest, n - 1));
  }

  lemma PrefixBody(bs: seq<byte>, ahead: seq<byte>)
    ensures if ahead == [] || ahead == [IAC] then Prefixed(bs, ReadBody(ahead)) == Closed
            else if ahead[0] != IAC then Prefixed(bs, ReadBody(ahead)) == Prefixed(bs + [ahead[0]], ReadBody(ahead[1..]))
            else if ahead[1] == EOR then Prefixed(bs, ReadBody(ahead)) == Got(bs, ahead[2..])
            else Prefixed(bs, ReadBody(ahead)) == Prefixed(bs + [IAC], ReadBody(ahead[2..]))
  {
    if ahead != [] && ahead[0] != IAC {
      PrefixCons(bs, ahead[0], ReadBody(ahead[1..]));
    } else if |ahead| > 1 && ahead[1] != EOR {
      PrefixCons(bs, IAC, ReadBody(ahead[2..]));
    } else {
      assert bs + [] == bs;
    }
  }
}
