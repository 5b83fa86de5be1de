/**
 FTP file transfer: how an upload is cut into CMS records and how records are turned into units
 for a download. The cutting is stated byte by byte and, independently, by chunks and lines.
 */
module FtpRecords {
  import opened Bytes
  import opened CodePage

  const LF: byte := 0x0A
  const CR: byte := 0x0D
  const BLANK: byte := 0x40 // in EBCDIC
  const PACKETLEN := 1400

  datatype RecFm = Fixed | Variable

  /** What a transfer is told about the file; only record lengths above 255 are refused. */
  datatype Format = Format(binary: bool, recfm: RecFm, lrecl: int) {
    predicate Valid() {
      lrecl <= 255
    }

    /** The longest record: at least one character, also if the record length is not positive. */
    function Size(): (n: nat)
      ensures n >= 1 && n >= lrecl
    {
      if lrecl < 1 then 1 else lrecl
    }

    function FillChar(): byte {
      if binary then 0 else BLANK
    }
  }

  // ---- cutting the upload ----

  /** The records still to come: `pend` is in the record buffer, `rest` not yet looked at. */
  function Cut(fm: Format, pend: seq<byte>, rest: seq<byte>): seq<seq<byte>>
    decreases |rest|
  {
    if rest == [] then (if pend == [] then [] else [pend])
    else
      var c, rest' := rest[0], rest[1..];
      if !fm.binary && c == LF then [pend] + Cut(fm, [], rest')
      else if !fm.binary && c == CR then Cut(fm, pend, rest')
      else if |pend| + 1 >= fm.lrecl then [pend + [c]] + Cut(fm, [], rest')
      else Cut(fm, pend + [c], rest')
  }

  function Coded(fm: Format, record: seq<byte>): (r: seq<byte>)
    ensures |r| == |record|
  {
    if fm.binary then record else Translate(A2E, record)
  }

  function Fill(b: byte, n: nat): (r: seq<byte>)
    ensures |r| == n && forall i :: 0 <= i < n ==> r[i] == b
  {
    seq(n, _ => b)
  }

  /** An empty record becomes a fill character, and a fixed length is filled up. */
  function Padded(fm: Format, record: seq<byte>): (r: seq<byte>)
  {
    var some := if record == [] then [fm.FillChar()] else record;
    if fm.recfm == Fixed && |some| < fm.lrecl then some + Fill(fm.FillChar(), fm.lrecl - |some|) else some
  }

  function Stored(fm: Format, cut: seq<seq<byte>>): (r: seq<seq<byte>>)
    ensures |r| == |cut|
  {
    if cut == [] then [] else [Padded(fm, Coded(fm, cut[0]))] + Stored(fm, cut[1..])
  }

  /** The records an upload adds to a file; a new file gets at least one. */
  function Uploaded(fm: Format, data: seq<byte>, doAppend: bool): seq<seq<byte>> {
    var records := Stored(fm, Cut(fm, [], data));
    if records == [] && !doAppend then [Padded(fm, [])] else records
  }

  // ---- the same by chunks and lines ----

  function Chunks(data: seq<byte>, size: nat): seq<seq<byte>>
    requires size > 0
  {
    if data == [] then [] else if |data| <= size then [data] else [data[..size]] + Chunks(data[size..], size)
  }

  /** A line that was ended: full records and the rest of it, which is empty for an exact multiple. */
  function EndedLine(line: seq<byte>, size: nat): seq<seq<byte>>
    requires size > 0
  {
    if |line| < size then [line] else [line[..size]] + EndedLine(line[size..], size)
  }

  function DropCr(data: seq<byte>): seq<byte> {
    if data == [] then [] else (if data[0] == CR then [] else [data[0]]) + DropCr(data[1..])
  }

  /** The bytes before the first line feed. */
  function FirstLine(data: seq<byte>): (r: seq<byte>)
    ensures |r| <= |data| && r == data[..|r|] && LF !in r && (|r| < |data| ==> data[|r|] == LF)
  {
    Before(data, LF)
  }

  predicate Ended(data: seq<byte>) {
    |FirstLine(data)| < |data|
  }

  function AfterLine(data: seq<byte>): (r: seq<byte>)
    requires Ended(data)
    ensures |r| < |data|
  {
    data[|FirstLine(data)| + 1..]
  }

  /** Lines ended by a line feed, and what follows the last one. */
  function LineRecords(data: seq<byte>, size: nat): seq<seq<byte>>
    requires size > 0
    decreases |data|
  {
    if !Ended(data) then Chunks(data, size) else EndedLine(FirstLine(data), size) + LineRecords(AfterLine(data), size)
  }

  // ---- a binary upload is its chunks ----

  lemma {:induction false} CutIsChunks(fm: Format, pend: seq<byte>, rest: seq<byte>)
    requires fm.binary && |pend| < fm.Size()
    ensures Cut(fm, pend, rest) == Chunks(pend + rest, fm.Size())
    decreases |rest|
  {
    if rest == [] {
      assert pend + rest == pend;
    } else {
      var c, rest' := rest[0], rest[1..];
      assert pend + rest == (pend + [c]) + rest';
      if |pend| + 1 >= fm.Size() {
        CutIsChunks(fm, [], rest');
        assert [] + rest' == rest';
        assert (pend + rest)[..fm.Size()] == pend + [c] && (pend + rest)[fm.Size()..] == rest';
        if rest' == [] {
          assert pend + rest == pend + [c];
        }
      } else {
        CutIsChunks(fm, pend + [c], rest');
      }
    }
  }

  lemma {:induction false} ChunksConserve(data: seq<byte>, size: nat)
    requires size > 0
    ensures var chunks := Chunks(data, size);
            && Concat(chunks) == data
            && (forall i :: 0 <= i < |chunks| ==> 0 < |chunks[i]| <= size)
            && (forall i :: 0 <= i < |chunks| - 1 ==> |chunks[i]| == size)
  {
    if data == [] {
    } else if |data| <= size {
      assert [data][1..] == [];
      assert Concat([data]) == data + [];
    } else {
      ChunksConserve(data[size..], size);
      assert data == data[..size] + data[size..];
    }
  }

  // ---- a text upload is its lines ----

  lemma {:induction false} FirstLineAfter(a: seq<byte>, b: seq<byte>)
    requires LF !in a
    ensures FirstLine(a + b) == a + FirstLine(b)
  {
    if a == [] {
      assert a + b == b;
    } else {
      assert (a + b)[1..] == a[1..] + b;
      FirstLineAfter(a[1..], b);
    }
  }

  /** What comes before the first line does not change what follows it. */
  lemma LongerFirstLine(a: seq<byte>, b: seq<byte>)
    requires LF !in a
    ensures FirstLine(a + b) == a + FirstLine(b) && (Ended(a + b) <==> Ended(b))
    ensures Ended(b) ==> AfterLine(a + b) == AfterLine(b)
  {
    FirstLineAfter(a, b);
    if Ended(b) {
      var n := |FirstLine(b)| + 1;
      assert (a + b)[|a| + n..] == b[n..];
    }
  }

  lemma LineEnds(line: seq<byte>, rest: seq<byte>, size: nat)
    requires LF !in line && size > 0
    ensures LineRecords(line + [LF] + rest, size) == EndedLine(line, size) + LineRecords(rest, size)
  {
    var end := [LF] + rest;
    assert line + [LF] + rest == line + end;
    LongerFirstLine(line, end);
    assert FirstLine(end) == [] && line + [] == line && AfterLine(end) == rest;
  }

  lemma EndedSplits(record: seq<byte>, line: seq<byte>, size: nat)
    requires |record| == size > 0
    ensures EndedLine(record + line, size) == [record] + EndedLine(line, size)
  {
    var whole := record + line;
    assert whole[..size] == record && whole[size..] == line;
  }

  lemma ChunksSplit(record: seq<byte>, rest: seq<byte>, size: nat)
    requires |record| == size > 0
    ensures Chunks(record + rest, size) == [record] + Chunks(rest, size)
  {
    var whole := record + rest;
    assert whole[..size] == record && whole[size..] == rest;
    if rest == [] {
      assert whole == record;
    }
  }

  lemma FullRecordSplits(record: seq<byte>, rest: seq<byte>, size: nat)
    requires |record| == size > 0 && LF !in record
    ensures LineRecords(record + rest, size) == [record] + LineRecords(rest, size)
  {
    LongerFirstLine(record, rest);
    if Ended(rest) {
      EndedSplits(record, FirstLine(rest), size);
    } else {
      ChunksSplit(record, rest, size);
    }
  }

  lemma {:induction false} CutIsLines(fm: Format, pend: seq<byte>, rest: seq<byte>)
    requires !fm.binary && |pend| < fm.Size() && LF !in pend
    ensures Cut(fm, pend, rest) == LineRecords(pend + DropCr(rest), fm.Size())
    decreases |rest|
  {
    if rest == [] {
      LongerFirstLine(pend, []);
      assert pend + [] == pend;
    } else {
      var c, rest' := rest[0], rest[1..];
      Assoc(pend, [c], DropCr(rest'));
      assert [] + DropCr(rest') == DropCr(rest');
      if c == LF {
        CutIsLines(fm, [], rest');
        LineEnds(pend, DropCr(rest'), fm.Size());
      } else if c == CR {
        CutIsLines(fm, pend, rest');
        assert [] + DropCr(rest') == DropCr(rest');
      } else if |pend| + 1 >= fm.Size() {
        CutIsLines(fm, [], rest');
        FullRecordSplits(pend + [c], DropCr(rest'), fm.Size());
      } else {
        CutIsLines(fm, pend + [c], rest');
      }
    }
  }

  // ---- what is stored ----

  lemma {:induction false} CutFits(fm: Format, pend: seq<byte>, rest: seq<byte>)
    requires |pend| < fm.Size()
    ensures forall i :: 0 <= i < |Cut(fm, pend, rest)| ==> |Cut(fm, pend, rest)[i]| <= fm.Size()
    decreases |rest|
  {
    if rest != [] {
      var c, rest' := rest[0], rest[1..];
      if !fm.binary && c == CR {
        CutFits(fm, pend, rest');
      } else if (!fm.binary && c == LF) || |pend| + 1 >= fm.Size() {
        CutFits(fm, [], rest');
      } else {
        CutFits(fm, pend + [c], rest');
      }
    }
  }

  lemma {:induction false} StoredFits(fm: Format, cut: seq<seq<byte>>)
    requires fm.Valid() && forall i :: 0 <= i < |cut| ==> |cut[i]| <= fm.Size()
    ensures forall i :: 0 <= i < |cut| ==> 1 <= |Stored(fm, cut)[i]| <= fm.Size()
    ensures fm.recfm == Fixed ==> forall i :: 0 <= i < |cut| ==> |Stored(fm, cut)[i]| == fm.Size()
  {
    if cut != [] {
      StoredFits(fm, cut[1..]);
    }
  }

  /** No record is empty or longer than the record length, and fixed ones have exactly that length. */
  lemma UploadFits(fm: Format, data: seq<byte>, doAppend: bool)
    requires fm.Valid()
    ensures var records := Uploaded(fm, data, doAppend);
            forall i :: 0 <= i < |records| ==>
              1 <= |records[i]| <= fm.Size() && (fm.recfm == Fixed ==> |records[i]| == fm.Size())
  {
    CutFits(fm, [], data);
    StoredFits(fm, Cut(fm, [], data));
  }

  // ---- binary upload, binary download ----

  /** What the last of the records for `n` bytes lacks. */
  function Shortfall(n: nat, size: nat): (r: nat)
    requires 0 < n && 0 < size
    ensures r < size
  {
    if n <= size then size - n else Shortfall(n - size, size)
  }

  /** The zeros that fill up the last fixed-length record. */
  function ZeroTail(fm: Format, n: nat): seq<byte>
    requires fm.Valid()
  {
    if fm.recfm == Variable || n == 0 then [] else Fill(0, Shortfall(n, fm.Size()))
  }

  lemma {:induction false} WholeRecords(data: seq<byte>, size: nat)
    requires data != [] && size > 0
    ensures |data| + Shortfall(|data|, size) == |Chunks(data, size)| * size
    decreases |data|
  {
    if |data| > size {
      WholeRecords(data[size..], size);
    }
  }

  lemma OneRecord(fm: Format, data: seq<byte>)
    requires fm.Valid() && fm.binary && 0 < |data| <= fm.Size()
    ensures Concat(Stored(fm, [data])) == data + ZeroTail(fm, |data|)
  {
    var record := Padded(fm, data);
    assert [data][1..] == [] && Stored(fm, [data]) == [record] && [record][1..] == [];
    assert Concat([record]) == record + [];
    assert data + Fill(0, 0) == data;
  }

  lemma {:induction false} StoredChunks(fm: Format, data: seq<byte>)
    requires fm.Valid() && fm.binary
    ensures Concat(Stored(fm, Chunks(data, fm.Size()))) == data + ZeroTail(fm, |data|)
    decreases |data|
  {
    var size := fm.Size();
    if data == [] {
    } else if |data| <= size {
      OneRecord(fm, data);
    } else {
      var first, others := data[..size], data[size..];
      var chunks := Chunks(others, size);
      StoredChunks(fm, others);
      assert data == first + others && ZeroTail(fm, |data|) == ZeroTail(fm, |others|);
      assert ([first] + chunks)[1..] == chunks;
      assert Stored(fm, [first] + chunks) == [first] + Stored(fm, chunks);
      assert ([first] + Stored(fm, chunks))[1..] == Stored(fm, chunks);
    }
  }

  /**
   A non-empty binary upload comes back from a binary download: the same bytes, for fixed-length
   records followed by the zeros, fewer than a record, that make whole records of them.
   */
  lemma BinaryRoundTrip(fm: Format, data: seq<byte>, doAppend: bool)
    requires fm.Valid() && fm.binary && data != []
    ensures var records := Uploaded(fm, data, doAppend);
            && Downloaded(true, records) == data + ZeroTail(fm, |data|) && |ZeroTail(fm, |data|)| < fm.Size()
            && (fm.recfm == Fixed ==> |data| + |ZeroTail(fm, |data|)| == |records| * fm.Size())
  {
    CutIsChunks(fm, [], data);
    assert [] + data == data;
    StoredChunks(fm, data);
    WholeRecords(data, fm.Size());
    BinaryDownload(Uploaded(fm, data, doAppend));
  }

  /** An empty upload makes a file of one record of zeros, or adds nothing to one that is there. */
  lemma EmptyBinary(fm: Format, doAppend: bool)
    requires fm.Valid() && fm.binary
    ensures Downloaded(true, Uploaded(fm, [], doAppend)) == if doAppend then [] else Fill(0, if fm.recfm == Fixed then fm.Size() else 1)
  {
    BinaryDownload(Uploaded(fm, [], doAppend));
    var record := Padded(fm, []);
    assert [record][1..] == [] && Concat([record]) == record + [];
  }

  lemma {:induction false} BinaryDownload(file: seq<seq<byte>>)
    ensures Downloaded(true, file) == Concat(file)
  {
    if file != [] {
      BinaryDownload(file[1..]);
    }
  }

  // ---- text download ----

  /** Trailing blanks are dropped, but one character stays. */
  function DropBlanks(record: seq<byte>): (r: seq<byte>)
    ensures r <= record && (record != [] ==> r != [])
  {
    if |record| > 1 && record[|record| - 1] == BLANK then DropBlanks(record[..|record| - 1]) else record
  }

  /** The bytes before the first null byte. */
  function UpToNull(s: seq<byte>): (r: seq<byte>)
    ensures r <= s && 0 !in r && (|r| < |s| ==> s[|r|] == 0)
  {
    Before(s, 0)
  }

  /** What one record becomes on the wire. */
  function Unit(binary: bool, record: seq<byte>): seq<byte> {
    if binary then record else Translate(E2A, UpToNull(DropBlanks(record))) + [CR, LF]
  }

  function Downloaded(binary: bool, file: seq<seq<byte>>): seq<byte> {
    if file == [] then [] else Unit(binary, file[0]) + Downloaded(binary, file[1..])
  }

  lemma {:induction false} UpToNullIs(s: seq<byte>, n: nat)
    requires n <= |s| && (forall k :: 0 <= k < n ==> s[k] != 0) && (n < |s| ==> s[n] == 0)
    ensures UpToNull(s) == s[..n]
  {
    if n > 0 {
      UpToNullIs(s[1..], n - 1);
    }
  }
}
