/**
 The 7-to-8 encoding of response records: seven bytes without their high bits, then one byte
 with the seven high bits, so that no byte of the encoding has its high bit set.
 */
module SevenToEight {
  import opened Bytes

  /** The bit of the eighth byte that holds the high bit of byte `i` of a group. */
  function Mask(i: nat): byte {
    if i == 0 then 0x40 else Mask(i - 1) >> 1
  }

  function HighBit(b: byte, i: nat): byte {
    if b & 0x80 != 0 then Mask(i) else 0
  }

  function HighBits(chunk: seq<byte>): byte {
    if chunk == [] then 0
    else HighBits(chunk[..|chunk| - 1]) | HighBit(chunk[|chunk| - 1], |chunk| - 1)
  }

  function LowBits(chunk: seq<byte>): (r: seq<byte>)
    ensures |r| == |chunk|
    ensures forall i :: 0 <= i < |chunk| ==> r[i] == chunk[i] & 0x7F
  {
    if chunk == [] then [] else LowBits(chunk[..|chunk| - 1]) + [chunk[|chunk| - 1] & 0x7F]
  }

  function Zeros(n: nat): (r: seq<byte>)
    ensures |r| == n && forall i :: 0 <= i < n ==> r[i] == 0
  {
    if n == 0 then [] else Zeros(n - 1) + [0]
  }

  /** The eight bytes for a chunk of at most seven, filled up with zeros. */
  function Group(chunk: seq<byte>): (g: seq<byte>)
    requires |chunk| <= 7
    ensures |g| == 8
  {
    LowBits(chunk) + Zeros(7 - |chunk|) + [HighBits(chunk)]
  }

  /** What writing `data` and then flushing sends: the last group is always sent, even when it is empty. */
  function Encode(data: seq<byte>): seq<byte> {
    if |data| < 7 then Group(data) else Group(data[..7]) + Encode(data[7..])
  }

  /** What is sent before the flush. */
  function EncodeFull(data: seq<byte>): seq<byte> {
    if |data| < 7 then [] else Group(data[..7]) + EncodeFull(data[7..])
  }

  function Pending(data: seq<byte>): (r: seq<byte>)
    ensures |r| < 7
  {
    if |data| < 7 then data else Pending(data[7..])
  }

  lemma {:induction false} EncodeIsFullAndPending(data: seq<byte>)
    ensures Encode(data) == EncodeFull(data) + Group(Pending(data))
  {
    if |data| >= 7 {
      EncodeIsFullAndPending(data[7..]);
    }
  }

  lemma {:induction false} OneMore(data: seq<byte>, b: byte)
    ensures var chunk := Pending(data) + [b];
            if |chunk| < 7 then Pending(data + [b]) == chunk && EncodeFull(data + [b]) == EncodeFull(data)
            else Pending(data + [b]) == [] && EncodeFull(data + [b]) == EncodeFull(data) + Group(chunk)
  {
    if |data| >= 7 {
      assert (data + [b])[..7] == data[..7] && (data + [b])[7..] == data[7..] + [b];
      OneMore(data[7..], b);
    } else if |data| == 6 {
      assert (data + [b])[..7] == data + [b] && (data + [b])[7..] == [];
    }
  }

  // ---- decoding ----

  function DecodeByte(low: byte, high: byte, i: nat): byte {
    if high & Mask(i) != 0 then low | 0x80 else low
  }

  function DecodeGroup(g: seq<byte>): (r: seq<byte>)
    requires |g| == 8
    ensures |r| == 7 && forall i :: 0 <= i < 7 ==> r[i] == DecodeByte(g[i], g[7], i)
  {
    seq(7, i requires 0 <= i < 7 => DecodeByte(g[i], g[7], i))
  }

  function Decode(coded: seq<byte>): seq<byte> {
    if |coded| < 8 then [] else DecodeGroup(coded[..8]) + Decode(coded[8..])
  }

  lemma {:induction false} MasksApart(i: nat, j: nat)
    requires i < 7 && j < 7
    ensures Mask(i) != 0 && Mask(i) & 0x80 == 0
    ensures i != j ==> Mask(i) & Mask(j) == 0
  {
    assert Mask(1) == 0x20 && Mask(2) == 0x10;
    assert Mask(3) == 0x08 && Mask(4) == 0x04;
    assert Mask(5) == 0x02 && Mask(6) == 0x01;
  }

  /** The high bits of a chunk can be read off one by one. */
  lemma {:induction false} HighBitsRead(chunk: seq<byte>, i: nat)
    requires |chunk| <= 7 && i < 7
    ensures HighBits(chunk) & 0x80 == 0
    ensures HighBits(chunk) & Mask(i) != 0 <==> i < |chunk| && chunk[i] & 0x80 != 0
  {
    if chunk != [] {
      var last := |chunk| - 1;
      HighBitsRead(chunk[..last], i);
      MasksApart(i, last);
      MasksApart(last, i);
    }
  }

  lemma GroupDecodes(chunk: seq<byte>)
    requires |chunk| <= 7
    ensures DecodeGroup(Group(chunk))[..|chunk|] == chunk
    ensures forall i :: 0 <= i < 8 ==> Group(chunk)[i] & 0x80 == 0
  {
    var g := Group(chunk);
    forall i | 0 <= i < |chunk|
      ensures DecodeGroup(g)[i] == chunk[i]
    {
      HighBitsRead(chunk, i);
      assert g[i] == chunk[i] & 0x7F;
    }
    HighBitsRead(chunk, 0);
    forall i | 0 <= i < 8
      ensures g[i] & 0x80 == 0
    {
      if i < |chunk| {
        assert g[i] == chunk[i] & 0x7F;
      } else if i < 7 {
        assert g[i] == Zeros(7 - |chunk|)[i - |chunk|];
      }
    }
  }

  lemma DecodeFirst(g: seq<byte>, rest: seq<byte>)
    requires |g| == 8
    ensures Decode(g + rest) == DecodeGroup(g) + Decode(rest)
  {
    assert (g + rest)[..8] == g && (g + rest)[8..] == rest;
  }

  /** The encoding is seven bit clean and has one group more than the data has full chunks. */
  lemma {:induction false} EncodeIsSevenBit(data: seq<byte>)
    ensures |Encode(data)| == 8 * (|data| / 7 + 1)
    ensures forall i :: 0 <= i < |Encode(data)| ==> Encode(data)[i] & 0x80 == 0
  {
    if |data| < 7 {
      GroupDecodes(data);
    } else {
      var g, rest := Group(data[..7]), Encode(data[7..]);
      GroupDecodes(data[..7]);
      EncodeIsSevenBit(data[7..]);
      assert |data| / 7 == |data[7..]| / 7 + 1;
      forall i | 0 <= i < |Encode(data)|
        ensures Encode(data)[i] & 0x80 == 0
      {
        assert Encode(data)[i] == if i < 8 then g[i] else rest[i - 8];
      }
    }
  }

  /** Nothing is lost: the decoded groups, cut to the number of bytes written, are the bytes written. */
  lemma {:induction false} RoundTrip(data: seq<byte>)
    ensures |data| <= |Decode(Encode(data))| && Decode(Encode(data))[..|data|] == data
    ensures |Encode(data)| == 8 * (|data| / 7 + 1)
  {
    EncodeIsSevenBit(data);
    if |data| < 7 {
      GroupDecodes(data);
      assert Group(data) + [] == Group(data);
      DecodeFirst(Group(data), []);
    } else {
      GroupDecodes(data[..7]);
      RoundTrip(data[7..]);
      DecodeFirst(Group(data[..7]), Encode(data[7..]));
      Rejoin(data, DecodeGroup(Group(data[..7])), Decode(Encode(data[7..])));
    }
  }

  lemma Rejoin(data: seq<byte>, a: seq<byte>, b: seq<byte>)
    requires |data| >= 7 && |a| == 7 && a[..7] == data[..7]
    requires |b| >= |data| - 7 && b[..|data| - 7] == data[7..]
    ensures (a + b)[..|data|] == data
  {
    assert (a + b)[..|data|] == a[..7] + b[..|data| - 7];
  }

  // ---- the encoder of a response object ----

  lemma EncodeAfter(base: seq<byte>, data: seq<byte>)
    ensures base + EncodeFull(data) + Group(Pending(data)) == base + Encode(data)
  {
    EncodeIsFullAndPending(data);
  }

  class Encoder {
    var encodePos: nat
    const encodedBytes: array<byte>
    var escapeByte: byte
    var escapeMask: byte
    var sent: seq<byte>          // what the output stream received
    ghost var base: seq<byte>    // what it had received when the encoder was last reset
    ghost var data: seq<byte>    // what was written since then

    ghost predicate Valid()
      reads this, encodedBytes
    {
      At(data, encodePos, escapeByte, escapeMask)
    }

    /** The encoder variables hold an unfinished chunk. */
    ghost predicate Holds(chunk: seq<byte>, pos: nat, bytes: array<byte>, esc: byte, mask: byte)
      reads bytes
    {
      && pos == |chunk| < 7 && bytes.Length == 8
      && bytes[..pos] == LowBits(chunk) && esc == HighBits(chunk) && mask == Mask(pos)
    }

    constructor ()
      ensures Valid() && sent == [] && base == [] && data == []
    {
      encodedBytes := new byte[8];
      encodePos, escapeByte, escapeMask := 0, 0, 0x40;
      sent, base, data := [], [], [];
    }

    method StoreLow(b: byte, pos: nat, ghost chunk: seq<byte>)
      requires encodedBytes.Length == 8 && pos == |chunk| < 7 && encodedBytes[..pos] == LowBits(chunk)
      modifies encodedBytes
      ensures encodedBytes[..pos + 1] == LowBits(chunk + [b])
    {
      ChunkGrows(chunk, b);
      encodedBytes[pos] := b & 0x7F;
      assert encodedBytes[..pos + 1] == encodedBytes[..pos] + [b & 0x7F];
    }

    /** Complete the eight bytes and send them. */
    method SendGroup(esc: byte, ghost chunk: seq<byte>)
      requires encodedBytes.Length == 8 && |chunk| <= 7 && esc == HighBits(chunk)
      requires encodedBytes[..7] == LowBits(chunk) + Zeros(7 - |chunk|)
      modifies this`sent, encodedBytes
      ensures sent == old(sent) + Group(chunk)
    {
      encodedBytes[7] := esc;
      assert encodedBytes[..8] == encodedBytes[..7] + [esc];
      sent := sent + encodedBytes[..8];
    }

    /** Fill an unfinished chunk up with zeros. */
    method Pad(ghost chunk: seq<byte>)
      requires encodedBytes.Length == 8 && encodePos == |chunk| <= 7 && encodedBytes[..encodePos] == LowBits(chunk)
      modifies this`encodePos, encodedBytes
      ensures encodedBytes[..7] == LowBits(chunk) + Zeros(7 - |chunk|)
    {
      assert LowBits(chunk) + Zeros(0) == LowBits(chunk);
      while encodePos < 7
        invariant |chunk| <= encodePos <= 7
        invariant encodedBytes[..encodePos] == LowBits(chunk) + Zeros(encodePos - |chunk|)
      {
        encodedBytes[encodePos] := 0;
        encodePos := encodePos + 1;
      }
    }

    /** Send what is left, filled up with zeros, and start over. */
    method Flush()
      requires Valid()
      modifies this, encodedBytes
      ensures Valid() && data == []
      ensures sent == old(base) + Encode(old(data)) && base == sent
    {
      ghost var chunk := Pending(data);
      EncodeAfter(base, data);
      Pad(chunk);
      SendGroup(escapeByte, chunk);
      encodePos, escapeByte, escapeMask := 0, 0, 0x40;
      base, data := sent, [];
      assert sent + [] == sent && encodedBytes[..0] == [];
    }

    /** Add one byte to the chunk held in the given encoder variables. */
    method Add(b: byte, pos: nat, esc: byte, mask: byte, ghost chunk: seq<byte>)
      returns (pos': nat, esc': byte, mask': byte)
      requires Holds(chunk, pos, encodedBytes, esc, mask)
      modifies encodedBytes
      ensures pos' == pos + 1 && esc' == HighBits(chunk + [b]) && mask' == Mask(pos')
      ensures encodedBytes[..pos'] == LowBits(chunk + [b])
    {
      ChunkGrows(chunk, b);
      esc', mask', pos' := if b & 0x80 != 0 then esc | mask else esc, mask >> 1, pos + 1;
      StoreLow(b, pos, chunk);
    }

    /** Add one byte; a full chunk is sent. */
    method Step(b: byte, pos: nat, esc: byte, mask: byte, ghost chunk: seq<byte>)
      returns (pos': nat, esc': byte, mask': byte)
      requires Holds(chunk, pos, encodedBytes, esc, mask)
      modifies this`sent, encodedBytes
      ensures if |chunk| < 6 then Holds(chunk + [b], pos', encodedBytes, esc', mask') && sent == old(sent)
              else Holds([], pos', encodedBytes, esc', mask') && sent == old(sent) + Group(chunk + [b])
    {
      pos', esc', mask' := Add(b, pos, esc, mask, chunk);
      if pos' >= 7 {
        assert LowBits(chunk + [b]) + Zeros(0) == LowBits(chunk + [b]);
        SendGroup(esc', chunk + [b]);
        pos', esc', mask' := 0, 0, 0x40;
        assert encodedBytes[..0] == [];
      }
    }

    /** Write bytes past the encoder, between two encoded blocks. */
    method WriteRaw(bytes: seq<byte>)
      requires Valid() && data == []
      modifies this`sent, this`base
      ensures Valid() && sent == old(sent) + bytes && base == sent
    {
      sent := sent + bytes;
      base := sent;
      assert sent + [] == sent;
    }

    /** The encoder variables and the output stand where writing `all` since the last reset leaves them. */
    ghost predicate At(all: seq<byte>, pos: nat, esc: byte, mask: byte)
      reads this`sent, this`base, encodedBytes
    {
      Holds(Pending(all), pos, encodedBytes, esc, mask) && sent == base + EncodeFull(all)
    }

    method Encode1(b: byte, pos: nat, esc: byte, mask: byte, ghost all: seq<byte>)
      returns (pos': nat, esc': byte, mask': byte)
      requires At(all, pos, esc, mask)
      modifies this`sent, encodedBytes
      ensures At(all + [b], pos', esc', mask')
    {
      OneMore(all, b);
      pos', esc', mask' := Step(b, pos, esc, mask, Pending(all));
      var g := Group(Pending(all) + [b]);
      assert base + EncodeFull(all) + g == base + (EncodeFull(all) + g);
    }

    /** Write one byte. */
    method Write(b: byte)
      requires Valid()
      modifies this, encodedBytes
      ensures Valid() && base == old(base) && data == old(data) + [b]
    {
      encodePos, escapeByte, escapeMask := Encode1(b, encodePos, escapeByte, escapeMask, data);
      data := data + [b];
    }

    /** Write the bytes of words one by one. */
    method WriteWords(words: seq<byte>)
      requires Valid()
      modifies this, encodedBytes
      ensures Valid() && base == old(base) && data == old(data) + words
    {
      assert data + words[..0] == data;
      for i := 0 to |words|
        invariant Valid() && base == old(base) && data == old(data) + words[..i]
      {
        Write(words[i]);
        assert words[..i + 1] == words[..i] + [words[i]];
      }
      assert words[..|words|] == words;
    }

    /** Write a block, keeping the encoder state in local variables. */
    method WriteBlock(src: array<byte>, first: nat, count: nat)
      requires Valid() && src != encodedBytes && first + count <= src.Length
      modifies this, encodedBytes
      ensures Valid() && base == old(base) && data == old(data) + src[first..first + count]
    {
      hide At;
      var pos, limit := first, first + count;
      var encPos: nat, escByte, escMask := encodePos, escapeByte, escapeMask;
      assert data + src[first..pos] == data;
      while pos < limit
        invariant first <= pos <= limit
        invariant At(data + src[first..pos], encPos, escByte, escMask)
        invariant base == old(base) && data == old(data)
      {
        ghost var all := data + src[first..pos];
        var b := src[pos];
        encPos, escByte, escMask := Encode1(b, encPos, escByte, escMask, all);
        pos := pos + 1;
        assert data + src[first..pos] == all + [b];
      }
      encodePos, escapeByte, escapeMask := encPos, escByte, escMask;
      data := data + src[first..pos];
    }
  }

  lemma ChunkGrows(chunk: seq<byte>, b: byte)
    requires |chunk| < 7
    ensures LowBits(chunk + [b]) == LowBits(chunk) + [b & 0x7F]
    ensures HighBits(chunk + [b]) == if b & 0x80 != 0 then HighBits(chunk) | Mask(|chunk|) else HighBits(chunk)
    ensures Mask(|chunk| + 1) == Mask(|chunk|) >> 1
  {
    assert (chunk + [b])[..|chunk|] == chunk;
  }
}
