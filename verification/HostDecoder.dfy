/** The inside proxy undoes the 7-to-8 encoding in its receive buffer, group by group onto itself. */
module HostDecoder {
  import opened Bytes
  import opened SevenToEight

  /** The groups that are decoded for a length; an incomplete last group counts. */
  function Groups(dlen: nat): nat {
    (dlen + 7) / 8
  }

  /** Group `g` of the coded bytes. */
  function GroupAt(coded: seq<byte>, g: nat): seq<byte>
    requires 8 * g + 8 <= |coded|
  {
    coded[8 * g..8 * g + 8]
  }

  /** The first groups decoded, and `i` bytes of the next one. */
  function Decoded(coded: seq<byte>, g: nat, i: nat): (r: seq<byte>)
    requires i <= 7 && 8 * g + (if i > 0 then 8 else 0) <= |coded|
    ensures |r| == 7 * g + i
  {
    (if g == 0 then [] else Decoded(coded, g - 1, 7)) + if i == 0 then [] else DecodeGroup(GroupAt(coded, g))[..i]
  }

  lemma SplitFirst(coded: seq<byte>, group: seq<byte>)
    requires |coded| >= 8
    ensures coded == coded[..8] + coded[8..] && coded + group == coded[..8] + (coded[8..] + group)
  {
  }

  lemma DecodeOne(group: seq<byte>)
    requires |group| == 8
    ensures Decode([] + group) == Decode([]) + DecodeGroup(group)
  {
    hide DecodeGroup;
    DecodeFirst(group, []);
    assert [] + group == group + [];
    assert DecodeGroup(group) + [] == [] + DecodeGroup(group);
  }

  lemma {:induction false} DecodeSnoc(coded: seq<byte>, group: seq<byte>)
    requires |coded| % 8 == 0 && |group| == 8
    ensures Decode(coded + group) == Decode(coded) + DecodeGroup(group)
    decreases |coded|
  {
    hide Decode, DecodeGroup;
    if coded == [] {
      DecodeOne(group);
    } else {
      SplitFirst(coded, group);
      DecodeFirst(coded[..8], coded[8..] + group);
      DecodeFirst(coded[..8], coded[8..]);
      DecodeSnoc(coded[8..], group);
      Assoc(DecodeGroup(coded[..8]), Decode(coded[8..]), DecodeGroup(group));
    }
  }

  lemma {:induction false} DecodedIs(coded: seq<byte>, g: nat)
    requires 8 * g <= |coded|
    ensures Decoded(coded, g, 0) == Decode(coded[..8 * g])
  {
    if g > 0 {
      hide Decode, DecodeGroup;
      var before := coded[..8 * (g - 1)];
      DecodedIs(coded, g - 1);
      DecodeSnoc(before, GroupAt(coded, g - 1));
      assert coded[..8 * g] == before + GroupAt(coded, g - 1);
      assert DecodeGroup(GroupAt(coded, g - 1))[..7] == DecodeGroup(GroupAt(coded, g - 1));
    }
  }

  /** What was decoded before group `g`. */
  function DecodedBefore(coded: seq<byte>, g: nat): seq<byte>
    requires 8 * g <= |coded|
  {
    if g == 0 then [] else Decoded(coded, g - 1, 7)
  }

  lemma DecodedParts(coded: seq<byte>, g: nat, i: nat)
    requires i <= 7 && 8 * g + 8 <= |coded|
    ensures Decoded(coded, g, i) == DecodedBefore(coded, g) + DecodeGroup(GroupAt(coded, g))[..i]
  {
    hide DecodeGroup;
    assert DecodeGroup(GroupAt(coded, g))[..0] == [];
  }

  lemma NextByte(coded: seq<byte>, g: nat, i: nat)
    requires i < 7 && 8 * g + 8 <= |coded|
    ensures Decoded(coded, g, i + 1) == Decoded(coded, g, i) + [DecodedByte(coded[8 * g + i], coded[8 * g + 7], Mask(i))]
  {
    hide Decoded, DecodedBefore, Mask;
    var group := GroupAt(coded, g);
    DecodedParts(coded, g, i);
    DecodedParts(coded, g, i + 1);
    TakeOneMore(DecodedBefore(coded, g), DecodeGroup(group), i);
  }

  lemma MoreGroups(dlen: nat, g: nat)
    ensures dlen - 8 * g > 0 <==> g < Groups(dlen)
    ensures dlen - 8 * g <= 0 && g <= Groups(dlen) ==> g == Groups(dlen)
  {
  }

  lemma MaskNext(i: nat)
    requires i < 7
    ensures if i < 6 then Mask(i) >> 1 == Mask(i + 1) != 0 else Mask(i) >> 1 == 0
  {
    assert Mask(1) == 0x20 && Mask(2) == 0x10;
    assert Mask(3) == 0x08 && Mask(4) == 0x04;
    assert Mask(5) == 0x02 && Mask(6) == 0x01;
  }

  /** A byte with the high bit that the eighth byte of its group holds for it. */
  function DecodedByte(low: byte, blockModif: byte, mask: byte): byte {
    if blockModif & mask != 0 then low | 0x80 else low
  }

  /** The first groups and `i` bytes of the next are decoded; the rest of the coded bytes is still there. */
  ghost predicate Decoding(recvBuffer: array<byte>, from: nat, coded: seq<byte>, g: nat, i: nat)
    reads recvBuffer
  {
    && i <= 7 && 8 * g + 8 <= |coded| && from + |coded| <= recvBuffer.Length
    && recvBuffer[from..from + 7 * g + i] == Decoded(coded, g, i)
    && forall k :: 8 * g + i <= k < |coded| ==> recvBuffer[from + k] == coded[k]
  }

  lemma DecodingStarts(recvBuffer: array<byte>, from: nat, coded: seq<byte>)
    requires |coded| >= 8 && from + |coded| <= recvBuffer.Length && recvBuffer[from..from + |coded|] == coded
    ensures Decoding(recvBuffer, from, coded, 0, 0) && Mask(0) == 0x40
  {
    assert recvBuffer[from..from] == [];
    forall k | 0 <= k < |coded|
      ensures recvBuffer[from + k] == coded[k]
    {
      assert recvBuffer[from..from + |coded|][k] == recvBuffer[from + k];
    }
  }

  lemma GroupDone(recvBuffer: array<byte>, from: nat, coded: seq<byte>, g: nat)
    requires Decoding(recvBuffer, from, coded, g, 7) && 8 * g + 16 <= |coded|
    ensures Decoding(recvBuffer, from, coded, g + 1, 0)
  {
    assert Decoded(coded, g, 7) + [] == Decoded(coded, g, 7);
  }

  /** Decodes the next byte. */
  method PutDecoded(recvBuffer: array<byte>, ghost from: nat, dest: nat, block: nat, blockModif: byte, mask: byte,
                    ghost coded: seq<byte>, ghost g: nat, ghost i: nat)
    requires Decoding(recvBuffer, from, coded, g, i) && i < 7
    requires block == from + 8 * g + i && dest == from + 7 * g + i && blockModif == coded[8 * g + 7] && mask == Mask(i)
    modifies recvBuffer
    ensures Decoding(recvBuffer, from, coded, g, i + 1) && recvBuffer[..from] == old(recvBuffer[..from])
  {
    hide Decoded, Mask;
    NextByte(coded, g, i);
    recvBuffer[dest] := if blockModif & mask != 0 then recvBuffer[block] | 0x80 else recvBuffer[block];
    assert recvBuffer[from..dest + 1] == recvBuffer[from..dest] + [recvBuffer[dest]];
  }

  lemma ModifThere(recvBuffer: array<byte>, from: nat, coded: seq<byte>, g: nat)
    requires Decoding(recvBuffer, from, coded, g, 0)
    ensures from + 8 * g + 7 < recvBuffer.Length && recvBuffer[from + 8 * g + 7] == coded[8 * g + 7] && Mask(0) == 0x40
  {
    assert recvBuffer[from + (8 * g + 7)] == coded[8 * g + 7];
  }

  lemma AllDecoded(recvBuffer: array<byte>, from: nat, coded: seq<byte>, g: nat)
    requires Decoding(recvBuffer, from, coded, g, 0)
    ensures from + 7 * g <= recvBuffer.Length && recvBuffer[from..from + 7 * g] == Decoded(coded, g, 0)
  {
  }

  /** The decoding loop. */
  method DecodeGroups(recvBuffer: array<byte>, from: nat, dlen: nat, ghost coded: seq<byte>) returns (length: nat)
    requires |coded| == 8 * Groups(dlen) + 8 && Decoding(recvBuffer, from, coded, 0, 0)
    requires from + |coded| <= recvBuffer.Length
    modifies recvBuffer
    ensures length == 7 * Groups(dlen) && Decoding(recvBuffer, from, coded, Groups(dlen), 0)
    ensures recvBuffer[..from] == old(recvBuffer[..from])
  {
    hide Decoding, Mask, Groups;
    ghost var n, g, i := Groups(dlen), 0, 0;
    ModifThere(recvBuffer, from, coded, g);
    var rest: int, mask, block, dest, blockModif := dlen, 0x40, from, from, recvBuffer[from + 7];
    while rest > 0
      invariant i < 7 && rest == dlen - 8 * g && g <= n && (g == n ==> i == 0)
      invariant block == from + 8 * g + i && dest == from + 7 * g + i && mask == Mask(i) && blockModif == coded[8 * g + 7]
      invariant recvBuffer[..from] == old(recvBuffer[..from]) && Decoding(recvBuffer, from, coded, g, i)
      decreases rest, 7 - i
    {
      MaskNext(i);
      MoreGroups(dlen, g);
      PutDecoded(recvBuffer, from, dest, block, blockModif, mask, coded, g, i);
      dest, block, mask := dest + 1, block + 1, mask >> 1;
      i := i + 1;
      if mask == 0 {
        GroupDone(recvBuffer, from, coded, g);
        rest, block, mask := rest - 8, block + 1, 0x40;
        g, i := g + 1, 0;
        ModifThere(recvBuffer, from, coded, g);
        blockModif := recvBuffer[block + 7];
      }
    }
    MoreGroups(dlen, g);
    return dest - from;
  }

  /** Decodes `dlen` bytes behind `from` in place; the decoded bytes stand at the start of the coded ones. */
  method DecodeInPlace(recvBuffer: array<byte>, from: nat, dlen: nat) returns (length: nat)
    requires from + 8 * Groups(dlen) + 8 <= recvBuffer.Length
    modifies recvBuffer
    ensures length == 7 * Groups(dlen) && recvBuffer[..from] == old(recvBuffer[..from])
    ensures recvBuffer[from..from + length] == Decode(old(recvBuffer[from..from + 8 * Groups(dlen)]))
  {
    hide Decoding, Decoded, Decode, Mask, Groups;
    ghost var n := Groups(dlen);
    ghost var coded := recvBuffer[from..from + 8 * n + 8];
    DecodingStarts(recvBuffer, from, coded);
    DecodedIs(coded, n);
    assert coded[..8 * n] == recvBuffer[from..from + 8 * n];
    length := DecodeGroups(recvBuffer, from, dlen, coded);
    AllDecoded(recvBuffer, from, coded, n);
  }
}
