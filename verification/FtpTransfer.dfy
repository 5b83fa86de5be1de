/**
 The transfer loops of the FTP server on its buffers: an upload arrives in pieces of any size, a
 download is packed into packets.
 */
module FtpTransfer {
  import opened Bytes
  import opened CodePage
  import opened FtpRecords

  /** The data connection: what is still to come, in the pieces the network makes of it, and what was sent. */
  class DataConnection {
    var incoming: seq<seq<byte>>
    var sent: seq<seq<byte>>

    ghost predicate Valid()
      reads this`incoming
    {
      forall i :: 0 <= i < |incoming| ==> 0 < |incoming[i]| <= PACKETLEN
    }

    constructor (incoming: seq<seq<byte>>)
      ensures this.incoming == incoming && sent == []
    {
      this.incoming, sent := incoming, [];
    }

    /** The next piece, or 0 at the end. */
    method Recv(buf: array<byte>) returns (n: nat)
      requires Valid() && buf.Length == PACKETLEN
      modifies this`incoming, buf
      ensures Valid() && n <= PACKETLEN
      ensures if old(incoming) == [] then n == 0 && incoming == []
              else n > 0 && buf[..n] == old(incoming)[0] && incoming == old(incoming)[1..]
    {
      if incoming == [] { return 0; }
      var piece := incoming[0];
      for i := 0 to |piece|
        invariant buf[..i] == piece[..i] && incoming == old(incoming)
      {
        buf[i] := piece[i];
        assert piece[..i + 1] == piece[..i] + [piece[i]];
      }
      n, incoming := |piece|, incoming[1..];
      assert piece[..n] == piece;
    }

    method Send(buf: array<byte>, n: nat)
      requires n <= buf.Length
      modifies this`sent
      ensures sent == old(sent) + [buf[..n]]
    {
      sent := sent + [buf[..n]];
    }
  }

  method TranslateInPlace(buf: array<byte>, n: nat, xtab: byte -> byte)
    requires n <= buf.Length
    modifies buf
    ensures buf[..n] == Translate(xtab, old(buf[..n]))
  {
    for i := 0 to n
      invariant forall k :: 0 <= k < i ==> buf[k] == xtab(old(buf[k]))
      invariant forall k :: i <= k < n ==> buf[k] == old(buf[k])
    {
      buf[i] := xtab(buf[i]);
    }
  }

  /** The record buffer and the file being written. */
  class Upload {
    const ioBuffer: array<byte>
    const bufData: array<byte>
    const fm: Format
    var file: seq<seq<byte>>
    var recFilled: nat
    var recsWritten: nat
    ghost const base: seq<seq<byte>> // the records there before
    ghost var cut: seq<seq<byte>>    // those cut off the upload so far

    ghost predicate Valid()
      reads this`file, this`recFilled, this`recsWritten, this`cut
    {
      && ioBuffer != bufData && ioBuffer.Length == 544 && bufData.Length == PACKETLEN
      && fm.Valid() && recFilled < fm.Size() && recsWritten == |cut| && file == base + Stored(fm, cut)
    }

    /** The records cut off so far, and those that what is buffered and the rest of the upload will make. */
    ghost function Due(rest: seq<byte>): seq<seq<byte>>
      requires Valid()
      reads this`file, this`recFilled, this`recsWritten, this`cut, ioBuffer
    {
      cut + Cut(fm, ioBuffer[..recFilled], rest)
    }

    constructor (fm: Format, file: seq<seq<byte>>)
      requires fm.Valid()
      ensures Valid() && this.fm == fm && this.file == file == base && cut == [] && recFilled == 0
      ensures fresh(ioBuffer) && fresh(bufData)
    {
      this.fm, this.file, base, cut, recFilled, recsWritten := fm, file, file, [], 0, 0;
      ioBuffer, bufData := new byte[544](_ => 0), new byte[PACKETLEN];
    }

    /** Translates the first bytes of the record buffer in place. */
    method Ascii2Ebcdic(n: nat)
      requires n <= ioBuffer.Length
      modifies ioBuffer
      ensures ioBuffer[..n] == Translate(A2E, old(ioBuffer[..n]))
    {
      TranslateInPlace(ioBuffer, n, A2E);
    }

    /** Fills the record buffer from `from` up to the record length. */
    method FillUp(from: nat, b: byte)
      requires from <= fm.lrecl <= ioBuffer.Length
      modifies ioBuffer
      ensures ioBuffer[..fm.lrecl] == old(ioBuffer[..from]) + Fill(b, fm.lrecl - from)
    {
      var len := from;
      while len < fm.lrecl
        invariant from <= len <= fm.lrecl && ioBuffer[..from] == old(ioBuffer[..from])
        invariant forall k :: from <= k < len ==> ioBuffer[k] == b
      {
        ioBuffer[len] := b;
        len := len + 1;
      }
    }

    method WriteRecord(length: nat)
      requires fm.Valid() && length <= fm.Size() && ioBuffer.Length == 544
      modifies this`file, ioBuffer
      ensures file == old(file) + [Padded(fm, old(ioBuffer[..length]))]
    {
      var len := length;
      var fillChar := fm.FillChar();
      if len < 1 {
        ioBuffer[0] := fillChar;
        len := 1;
      }
      assert ioBuffer[..len] == if length < 1 then [fillChar] else old(ioBuffer[..length]);
      if fm.recfm == Fixed && len < fm.lrecl {
        FillUp(len, fillChar);
        len := fm.lrecl;
      }
      file := file + [ioBuffer[..len]];
    }

    /** Writes what is in the record buffer as the next record. */
    method NextRecord(length: nat)
      requires Valid() && length <= fm.Size()
      modifies this`file, this`recFilled, this`recsWritten, this`cut, ioBuffer
      ensures Valid() && recFilled == 0 && cut == old(cut) + [old(ioBuffer[..length])]
    {
      ghost var record := ioBuffer[..length];
      if !fm.binary {
        Ascii2Ebcdic(length);
      }
      WriteRecord(length);
      recsWritten, recFilled, cut := recsWritten + 1, 0, cut + [record];
      StoredSnoc(fm, old(cut), record);
    }

    /** One byte of the upload; `rest` is what follows it. */
    method TakeByte(c: byte, ghost rest: seq<byte>)
      requires Valid()
      modifies this`file, this`recFilled, this`recsWritten, this`cut, ioBuffer
      ensures Valid() && Due(rest) == old(Due([c] + rest))
    {
      ghost var pend := ioBuffer[..recFilled];
      assert ([c] + rest)[1..] == rest;
      if !fm.binary && c == LF {
        CutRecord(fm, cut, pend, rest);
        NextRecord(recFilled);
        assert ioBuffer[..0] == [];
      } else if fm.binary || c != CR {
        ioBuffer[recFilled] := c;
        assert ioBuffer[..recFilled + 1] == pend + [c];
        recFilled := recFilled + 1;
        if recFilled >= fm.lrecl {
          CutRecord(fm, cut, pend + [c], rest);
          NextFull(pend + [c]);
          assert ioBuffer[..0] == [];
        }
      }
    }

    /** The record buffer is full. */
    method NextFull(ghost record: seq<byte>)
      requires recFilled == fm.Size() && ioBuffer != bufData && ioBuffer.Length == 544 && bufData.Length == PACKETLEN
      requires fm.Valid() && recsWritten == |cut| && file == base + Stored(fm, cut) && ioBuffer[..recFilled] == record
      modifies this`file, this`recFilled, this`recsWritten, this`cut, ioBuffer
      ensures Valid() && recFilled == 0 && cut == old(cut) + [record]
    {
      recFilled := 0;
      NextRecord(fm.Size());
    }

    lemma Sizes()
      requires Valid()
      ensures bufData.Length == PACKETLEN && ioBuffer != bufData
    {
    }

    /** One piece as it was received; `rest` are the pieces to come. */
    method TakePiece(n: nat, ghost rest: seq<byte>)
      requires Valid() && n <= PACKETLEN
      modifies this`file, this`recFilled, this`recsWritten, this`cut, ioBuffer
      ensures Valid()
      ensures Due(rest) == old(Due(bufData[..n] + rest))
    {
      hide Due, Behind, Valid;
      Sizes();
      ghost var piece := bufData[..n];
      ghost var goal := Due(piece + rest);
      BehindEnds(piece, rest);
      for i := 0 to n
        invariant Valid() && piece == bufData[..n]
        invariant Due(Behind(piece, i, rest)) == goal
      {
        BehindNext(piece, i, rest);
        TakeByte(bufData[i], Behind(piece, i + 1, rest));
      }
    }

    /** The receive loop: whatever the pieces, the records depend on the whole upload only. */
    method Store(source: DataConnection, doAppend: bool)
      requires Valid() && source.Valid() && cut == [] && recFilled == 0
      modifies this, ioBuffer, bufData, source
      ensures file == old(file) + Uploaded(fm, Concat(old(source.incoming)), doAppend)
    {
      ghost var goal := Cut(fm, [], Concat(source.incoming));
      assert file == base && ioBuffer[..0] == [] && Due(Concat(source.incoming)) == goal;
      var n := source.Recv(bufData);
      ghost var pieces := old(source.incoming);
      while n > 0
        invariant Valid() && source.Valid() && n <= PACKETLEN
        invariant if pieces == [] then n == 0 else n > 0 && bufData[..n] == pieces[0] && source.incoming == pieces[1..]
        invariant Due(Concat(pieces)) == goal
        decreases |pieces|
      {
        TakePiece(n, Concat(pieces[1..]));
        pieces := pieces[1..];
        n := source.Recv(bufData);
      }
      LastRecord(goal, doAppend);
    }

    /** The end of the upload: the rest in the buffer, or a first record for an empty new file. */
    method LastRecord(ghost goal: seq<seq<byte>>, doAppend: bool)
      requires Valid() && Due([]) == goal
      modifies this, ioBuffer
      ensures file == base + if goal == [] && !doAppend then [Padded(fm, [])] else Stored(fm, goal)
    {
      if recFilled > 0 {
        NextRecord(recFilled);
      }
      assert cut == goal;
      if recsWritten == 0 && !doAppend {
        WriteRecord(0);
        assert old(ioBuffer[..0]) == ioBuffer[..0] == [];
      }
    }
  }

  /** What is behind place `i` of a piece. */
  function Behind(piece: seq<byte>, i: nat, rest: seq<byte>): seq<byte>
    requires i <= |piece|
  {
    piece[i..] + rest
  }

  lemma BehindEnds(piece: seq<byte>, rest: seq<byte>)
    ensures Behind(piece, 0, rest) == piece + rest && Behind(piece, |piece|, rest) == rest
  {
    assert piece[0..] == piece && [] + rest == rest;
  }

  lemma BehindNext(piece: seq<byte>, i: nat, rest: seq<byte>)
    requires i < |piece|
    ensures Behind(piece, i, rest) == [piece[i]] + Behind(piece, i + 1, rest)
  {
    assert piece[i..] == [piece[i]] + piece[i + 1..];
  }

  /** The record buffer and the packet being filled. */
  class Download {
    const ioBuffer: array<byte>
    const bufData: array<byte>
    const target: DataConnection
    var bufUsed: nat

    ghost predicate Valid()
      reads this`bufUsed, target`sent
    {
      && ioBuffer != bufData && ioBuffer.Length == 544 && bufData.Length == PACKETLEN && bufUsed <= PACKETLEN
      && forall i :: 0 <= i < |target.sent| ==> 0 < |target.sent[i]| <= PACKETLEN
    }

    /** The packets sent and the one being filled. */
    ghost function Out(): seq<byte>
      requires bufUsed <= bufData.Length
      reads this`bufUsed, target`sent, bufData
    {
      Concat(target.sent) + bufData[..bufUsed]
    }

    constructor (target: DataConnection)
      requires target.sent == []
      ensures Valid() && bufUsed == 0 && this.target == target && fresh(ioBuffer) && fresh(bufData)
    {
      this.target, bufUsed := target, 0;
      ioBuffer, bufData := new byte[544], new byte[PACKETLEN];
    }

    /** Sends the packet being filled. */
    method SendPacket()
      requires Valid() && bufUsed > 0
      modifies this`bufUsed, target`sent
      ensures Valid() && bufUsed == 0 && Out() == old(Out())
      ensures target.sent == old(target.sent) + [old(bufData[..bufUsed])]
    {
      ConcatSnoc(target.sent, bufData[..bufUsed]);
      target.Send(bufData, bufUsed);
      bufUsed := 0;
    }

    /** Copies a unit behind what is in the packet. */
    method CopyUnit(data: array<byte>, dataLen: nat)
      requires Valid() && data != bufData && dataLen <= data.Length && bufUsed + dataLen <= PACKETLEN
      modifies this`bufUsed, bufData
      ensures Valid() && bufUsed == old(bufUsed) + dataLen
      ensures bufData[..bufUsed] == old(bufData[..bufUsed]) + data[..dataLen]
    {
      ghost var before := bufData[..bufUsed];
      for i := 0 to dataLen
        invariant bufUsed == old(bufUsed) && bufData[..bufUsed] == before
        invariant forall k :: 0 <= k < i ==> bufData[bufUsed + k] == data[k]
      {
        bufData[bufUsed + i] := data[i];
      }
      bufUsed := bufUsed + dataLen;
      assert bufData[..bufUsed] == before + data[..dataLen];
    }

    /** Adds a unit, sending the packet first if the unit does not fit; a longer unit than a packet is cut. */
    method TransmitUnit(data: array<byte>, dataLen: nat)
      requires Valid() && data != bufData && dataLen <= data.Length
      modifies this`bufUsed, bufData, target`sent
      ensures Valid() && Out() == old(Out()) + data[..if dataLen > PACKETLEN then PACKETLEN else dataLen]
    {
      ghost var before := Out();
      if dataLen < 1 {
        assert before + data[..0] == before;
        return;
      }
      if bufUsed + dataLen > PACKETLEN && bufUsed > 0 {
        SendPacket();
      }
      ghost var sent, used := Concat(target.sent), bufData[..bufUsed];
      var length := if dataLen > PACKETLEN then PACKETLEN else dataLen;
      CopyUnit(data, length);
      assert (sent + used) + data[..length] == sent + (used + data[..length]);
    }

    /** Nothing is left behind. */
    method TransmitEnd()
      requires Valid()
      modifies this`bufUsed, target`sent
      ensures Valid() && bufUsed == 0 && Out() == old(Out()) && Out() == Concat(target.sent)
    {
      if bufUsed > 0 {
        SendPacket();
      }
      assert bufData[..0] == [];
      assert Concat(target.sent) + [] == Concat(target.sent);
    }

    /** Reads a record; for text, without its trailing blanks and ended by a null byte. */
    method ReadRecord(record: seq<byte>, binary: bool) returns (len: nat)
      requires |record| <= 255 && ioBuffer.Length == 544
      modifies ioBuffer
      ensures len == |if binary then record else DropBlanks(record)|
      ensures ioBuffer[..len] == if binary then record else DropBlanks(record)
      ensures !binary ==> ioBuffer[len] == 0
    {
      for i := 0 to |record|
        invariant ioBuffer[..i] == record[..i]
      {
        ioBuffer[i] := record[i];
        assert record[..i + 1] == record[..i] + [record[i]];
      }
      len := |record|;
      assert record[..len] == record;
      if !binary {
        while len > 1 && ioBuffer[len - 1] == BLANK
          invariant len <= |record| && ioBuffer[..|record|] == record
          invariant DropBlanks(record) == DropBlanks(record[..len])
        {
          assert record[..len][..len - 1] == record[..len - 1];
          len := len - 1;
        }
        assert ioBuffer[..len] == record[..len];
        ioBuffer[len] := 0;
      }
    }

    /** The length of the null-terminated text in the record buffer. */
    method TextLength(ghost text: seq<byte>) returns (len: nat)
      requires |text| < ioBuffer.Length && ioBuffer[..|text|] == text && ioBuffer[|text|] == 0
      ensures len <= |text| && text[..len] == UpToNull(text)
    {
      assert forall k :: 0 <= k < |text| ==> ioBuffer[k] == ioBuffer[..|text|][k] == text[k];
      len := 0;
      while ioBuffer[len] != 0
        invariant len <= |text| && forall k :: 0 <= k < len ==> text[k] != 0
        decreases |text| - len
      {
        len := len + 1;
      }
      UpToNullIs(text, len);
    }

    /** Translates the first bytes of the record buffer in place and adds the line end. */
    method MakeAsciiLine(len: nat)
      requires len + 2 <= ioBuffer.Length
      modifies ioBuffer
      ensures ioBuffer[..len + 2] == Translate(E2A, old(ioBuffer[..len])) + [CR, LF]
    {
      TranslateInPlace(ioBuffer, len, E2A);
      ghost var line := ioBuffer[..len];
      ioBuffer[len], ioBuffer[len + 1] := CR, LF;
      assert ioBuffer[..len] == line && ioBuffer[..len + 2] == line + [CR, LF];
    }

    /** Transmits the null-terminated text in the record buffer as a line. */
    method TransmitAsciiLine(ghost text: seq<byte>)
      requires Valid() && |text| < 256 && ioBuffer[..|text|] == text && ioBuffer[|text|] == 0
      modifies this`bufUsed, bufData, ioBuffer, target`sent
      ensures Valid() && Out() == old(Out()) + (Translate(E2A, UpToNull(text)) + [CR, LF])
    {
      ghost var out := Out();
      var len := TextLength(text);
      assert ioBuffer[..len] == ioBuffer[..|text|][..len] == UpToNull(text);
      MakeAsciiLine(len);
      assert Valid() && Out() == out;
      TransmitUnit(ioBuffer, len + 2);
    }

    method TransmitRecord(record: seq<byte>, binary: bool)
      requires Valid() && |record| <= 255
      modifies this`bufUsed, bufData, ioBuffer, target`sent
      ensures Valid() && Out() == old(Out()) + Unit(binary, record)
    {
      ghost var out := Out();
      var len := ReadRecord(record, binary);
      assert Valid() && Out() == out;
      if binary {
        TransmitUnit(ioBuffer, len);
      } else {
        TransmitAsciiLine(DropBlanks(record));
      }
    }

    /** The whole file, in packets that are neither empty nor too long. */
    method Retrieve(file: seq<seq<byte>>, binary: bool)
      requires Valid() && bufUsed == 0 && target.sent == [] && forall i :: 0 <= i < |file| ==> |file[i]| <= 255
      modifies this`bufUsed, bufData, ioBuffer, target`sent
      ensures Valid() && bufUsed == 0 && Concat(target.sent) == Downloaded(binary, file)
    {
      ghost var out := Out();
      assert out == [] && file[0..] == file && [] + Downloaded(binary, file) == Downloaded(binary, file);
      for i := 0 to |file|
        invariant Valid() && Out() == out && out + Downloaded(binary, file[i..]) == Downloaded(binary, file)
      {
        OneMoreUnit(binary, out, file, i);
        out := out + Unit(binary, file[i]);
        TransmitRecord(file[i], binary);
      }
      assert file[|file|..] == [] && out + [] == out;
      TransmitEnd();
    }
  }

  lemma OneMoreUnit(binary: bool, out: seq<byte>, file: seq<seq<byte>>, i: nat)
    requires i < |file|
    ensures out + Downloaded(binary, file[i..]) == (out + Unit(binary, file[i])) + Downloaded(binary, file[i + 1..])
  {
    assert file[i..][0] == file[i] && file[i..][1..] == file[i + 1..];
  }

  lemma CutRecord(fm: Format, cut: seq<seq<byte>>, record: seq<byte>, rest: seq<byte>)
    ensures cut + ([record] + Cut(fm, [], rest)) == cut + [record] + Cut(fm, [], rest)
  {
  }

  lemma {:induction false} StoredSnoc(fm: Format, cut: seq<seq<byte>>, record: seq<byte>)
    ensures Stored(fm, cut + [record]) == Stored(fm, cut) + [Padded(fm, Coded(fm, record))]
  {
    if cut == [] {
      assert [] + [record] == [record] && [record][1..] == [];
    } else {
      assert (cut + [record])[1..] == cut[1..] + [record];
      StoredSnoc(fm, cut[1..], record);
    }
  }
}
