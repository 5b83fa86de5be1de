/** What `nread` delivers, on values, and what all reads of all open streams deliver together. */
module BulkRead {
  import opened Bytes
  import opened Dispatcher

  /** The reader's side of a stream: bytes fetched but not yet delivered, and the last state seen. */
  datatype Reader = Reader(buffered: seq<byte>, state: int)

  datatype Filled = Filled(got: seq<byte>, reader: Reader, m: Manager)

  function AnswersLeft(m: Manager, id: int): nat {
    if id in m.sources then |m.sources[id].answers| else 0
  }

  /** Deliver `want` bytes of stream `id`, fetching blocks as long as the stream is in order. */
  function Fill(want: nat, r: Reader, m: Manager, id: int): Filled
    decreases AnswersLeft(m, id)
  {
    if want <= |r.buffered| then
      Filled(r.buffered[..want], Reader(r.buffered[want..], r.state), m)
    else if r.state != STATE_OK then
      Filled(r.buffered, Reader([], r.state), m)
    else
      var (m', reply) := Read(m, id);
      if reply.block == [] then
        Filled(r.buffered, Reader([], reply.state), m')
      else
        var rest := Fill(want - |r.buffered|, Reader(reply.block, reply.state), m', id);
        Filled(r.buffered + rest.got, rest.reader, rest.m)
  }

  /** Delivering one buffered byte is a step of the delivery. */
  lemma FillByte(want: nat, r: Reader, m: Manager, id: int)
    requires want >= 1 && r.buffered != []
    ensures var rest := Fill(want - 1, Reader(r.buffered[1..], r.state), m, id);
            Fill(want, r, m, id) == Filled([r.buffered[0]] + rest.got, rest.reader, rest.m)
  {
    var b := r.buffered;
    if want <= |b| {
      assert b[..want] == [b[0]] + b[1..][..want - 1];
    } else {
      assert b == [b[0]] + b[1..];
      if r.state == STATE_OK {
        var (m', reply) := Read(m, id);
        var rest := Fill(want - |b|, Reader(reply.block, reply.state), m', id);
        assert b + rest.got == [b[0]] + (b[1..] + rest.got);
      }
    }
  }

  /** With nothing buffered, fetching a block is a step of the delivery. */
  lemma FillFetch(want: nat, m: Manager, id: int)
    requires want >= 1
    ensures var (m', reply) := Read(m, id);
            var fetched := Reader(reply.block, reply.state);
            Fill(want, Reader([], STATE_OK), m, id)
              == if reply.block == [] then Filled([], fetched, m') else Fill(want, fetched, m', id)
  {
    var (m', reply) := Read(m, id);
    if reply.block != [] {
      var rest := Fill(want, Reader(reply.block, reply.state), m', id);
      assert [] + rest.got == rest.got;
    }
  }

  /** What the source of the stream still holds. */
  function Left(m: Manager, id: int): seq<byte> {
    if id in m.sources then m.sources[id].Left() else []
  }

  /** Delivering from one stream leaves all others and the set of open streams alone. */
  lemma {:induction false} FillFrame(want: nat, r: Reader, m: Manager, id: int)
    ensures var m' := Fill(want, r, m, id).m;
            && m'.sources.Keys == m.sources.Keys
            && m' == m.(sources := m'.sources)
            && (forall other :: other in m.sources && other != id ==> m'.sources[other] == m.sources[other])
    decreases AnswersLeft(m, id)
  {
    if want > |r.buffered| && r.state == STATE_OK && id in m.sources {
      var (m', reply) := Read(m, id);
      if reply.block != [] {
        FillFrame(want - |r.buffered|, Reader(reply.block, reply.state), m', id);
      }
    }
  }

  /** Nothing is lost or doubled: what was buffered or still at the source is delivered, buffered or still there. */
  lemma {:induction false} FillConserves(want: nat, r: Reader, m: Manager, id: int)
    ensures var f := Fill(want, r, m, id);
            && f.got + (f.reader.buffered + Left(f.m, id)) == r.buffered + Left(m, id)
            && |f.got| <= want
    decreases AnswersLeft(m, id)
  {
    if want <= |r.buffered| {
      Assoc(r.buffered[..want], r.buffered[want..], Left(m, id));
      assert r.buffered[..want] + r.buffered[want..] == r.buffered;
    } else if r.state == STATE_OK && id in m.sources && m.sources[id].answers != [] {
      var (m', reply) := Read(m, id);
      if reply.block != [] {
        FillConserves(want - |r.buffered|, Reader(reply.block, reply.state), m', id);
        var f := Fill(want - |r.buffered|, Reader(reply.block, reply.state), m', id);
        Assoc(r.buffered, f.got, f.reader.buffered + Left(f.m, id));
      }
    }
  }

  /** A source that answers a blocking read with an empty block only when it ended or failed. */
  predicate Blocking(s: Source) {
    && (forall i :: 0 <= i < |s.answers| && s.answers[i].state == STATE_OK ==> s.answers[i].block != [])
    && (if s.answers == [] then s.state else s.answers[|s.answers| - 1].state) != STATE_OK
  }

  /** A short delivery means that the source ended or failed, or that nobody has the stream open. */
  lemma {:induction false} ShortOnlyAtEnd(want: nat, r: Reader, m: Manager, id: int)
    requires id in m.sources ==> Blocking(m.sources[id])
    ensures var f := Fill(want, r, m, id);
            |f.got| < want ==> f.reader.buffered == [] && (id !in m.sources || f.reader.state != STATE_OK)
    decreases AnswersLeft(m, id)
  {
    if want > |r.buffered| && r.state == STATE_OK && id in m.sources && m.sources[id].answers != [] {
      var (m', reply) := Read(m, id);
      var s, s' := m.sources[id], m'.sources[id];
      assert forall i :: 0 <= i < |s'.answers| ==> s'.answers[i] == s.answers[i + 1];
      if reply.block != [] {
        ShortOnlyAtEnd(want - |r.buffered|, Reader(reply.block, reply.state), m', id);
      }
    }
  }

  // ---- any number of streams, opened, read and closed in any order ----

  datatype Op =
    | Open(src: Source)
    | OpenSink(snk: Sink)
    | NRead(id: int, want: nat)
    | Close(id: int)
    | CloseWriter(id: int)

  /** All streams: the manager, the client's readers, what each stream held at first and what it delivered. */
  datatype World = World(m: Manager, readers: map<int, Reader>, origin: map<int, seq<byte>>,
                         got: map<int, seq<byte>>, issuedSinks: set<int>)

  function Step(w: World, op: Op): World {
    match op
    case Open(src) =>
      var id := w.m.lastSource + 2;
      World(w.m.(lastSource := id, sources := w.m.sources[id := src]),
            w.readers[id := Reader([], STATE_OK)],
            w.origin[id := src.Left()], w.got[id := []], w.issuedSinks)
    case OpenSink(snk) =>
      var id := w.m.lastSink + 2;
      w.(m := w.m.(lastSink := id, sinks := w.m.sinks[id := snk]), issuedSinks := w.issuedSinks + {id})
    case NRead(id, want) =>
      if id !in w.readers || id !in w.got then w
      else
        var f := Fill(want, w.readers[id], w.m, id);
        w.(m := f.m, readers := w.readers[id := f.reader], got := w.got[id := w.got[id] + f.got])
    case Close(id) => w.(m := CloseSource(w.m, id).0)
    case CloseWriter(id) => w.(m := CloseSink(w.m, id).0)
  }

  function Run(w: World, ops: seq<Op>): World
    decreases |ops|
  {
    if ops == [] then w else Run(Step(w, ops[0]), ops[1..])
  }

  /** Delivered, then buffered, then still to come: together the bytes of the stream's own source. */
  predicate Own(w: World, id: int)
    requires id in w.readers && id in w.origin && id in w.got
  {
    if id in w.m.sources then w.got[id] + (w.readers[id].buffered + w.m.sources[id].Left()) == w.origin[id]
    else w.got[id] + w.readers[id].buffered <= w.origin[id]
  }

  predicate Inv(w: World) {
    && w.m.lastSource % 2 == 0 && w.m.lastSink % 2 == 1
    && w.readers.Keys == w.origin.Keys == w.got.Keys
    && w.m.sources.Keys <= w.origin.Keys
    && (forall id :: id in w.origin ==> id % 2 == 0 && id <= w.m.lastSource)
    && (forall id :: id in w.issuedSinks ==> id % 2 == 1 && id <= w.m.lastSink)
    && (forall id :: id in w.origin ==> Own(w, id))
  }

  /** No stream is open at first, whatever the counters start with. */
  lemma EmptyWorldOk(lastSource: int)
    requires lastSource % 2 == 0
    ensures Inv(World(Manager(lastSource, lastSource + 1, map[], map[]), map[], map[], map[], {}))
  {
  }

  lemma NReadKeeps(w: World, id: int, want: nat)
    requires Inv(w) && id in w.readers
    ensures Own(Step(w, NRead(id, want)), id)
  {
    FillConserves(want, w.readers[id], w.m, id);
    FillFrame(want, w.readers[id], w.m, id);
    var f := Fill(want, w.readers[id], w.m, id);
    assert Own(w, id);
    Assoc(w.got[id], f.got, f.reader.buffered + Left(f.m, id));
    if id !in w.m.sources {
      assert w.got[id] + w.readers[id].buffered == w.got[id] + f.got + f.reader.buffered by {
        Assoc(w.got[id], f.got, f.reader.buffered);
        assert f.reader.buffered + Left(f.m, id) == f.reader.buffered;
        assert w.readers[id].buffered + Left(w.m, id) == w.readers[id].buffered;
      }
    }
  }

  lemma CloseKeeps(w: World, id: int)
    requires Inv(w) && id in w.m.sources
    ensures Own(Step(w, Close(id)), id)
  {
    assert Own(w, id);
    Assoc(w.got[id], w.readers[id].buffered, w.m.sources[id].Left());
  }

  /** No step mixes streams, and a new id is not one that was ever given out. */
  lemma StepKeeps(w: World, op: Op)
    requires Inv(w)
    ensures Inv(Step(w, op))
    ensures op.Open? ==> w.m.lastSource + 2 !in w.origin.Keys + w.issuedSinks
    ensures op.OpenSink? ==> w.m.lastSink + 2 !in w.origin.Keys + w.issuedSinks
    ensures forall id :: id in w.origin ==> id in Step(w, op).origin && Step(w, op).origin[id] == w.origin[id]
  {
    var w' := Step(w, op);
    var subject := if op.Open? then w.m.lastSource + 2 else if op.NRead? || op.Close? then op.id else 1;
    if op.NRead? && op.id in w.readers {
      FillFrame(op.want, w.readers[op.id], w.m, op.id);
      NReadKeeps(w, op.id, op.want);
    }
    if op.Close? && op.id in w.m.sources {
      CloseKeeps(w, op.id);
    }
    forall id | id in w'.origin
      ensures Own(w', id)
    {
      if id != subject || id !in w.m.sources {
        assert id in w.origin ==> Own(w, id);
      }
    }
  }

  /**
   In every run, each stream delivered a prefix of its own source's bytes; ids are never given
   out twice and no id is both a source's and a sink's.
   */
  lemma {:induction false} StreamsStayApart(w: World, ops: seq<Op>)
    requires Inv(w)
    ensures var e := Run(w, ops);
            && Inv(e)
            && (forall id :: id in e.origin ==> e.got[id] <= e.origin[id])
            && e.origin.Keys !! e.issuedSinks
    ensures forall id :: id in w.origin ==> id in Run(w, ops).origin && Run(w, ops).origin[id] == w.origin[id]
    decreases |ops|
  {
    if ops == [] {
      forall id | id in w.origin
        ensures w.got[id] <= w.origin[id] && id !in w.issuedSinks
      {
        assert Own(w, id);
      }
    } else {
      StepKeeps(w, ops[0]);
      StreamsStayApart(Step(w, ops[0]), ops[1..]);
    }
  }
}
