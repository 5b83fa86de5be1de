/**
 The bulk streams on the outside: the manager that gives out stream ids and the handlers
 that read and write the streams behind them.
 */
module Dispatcher {
  import opened Bytes

  // states of a source (IBulkSource); a sink uses -2 and -3 for "media full" and "write error"
  const STATE_OK := 0
  const STATE_CLOSED := -1
  const STATE_SOURCE_ENDED := -2

  const RC_OK := 0
  const RC_SOURCE_INVALID := -33
  const RC_SINK_INVALID := -65

  const BLOCK_LEN := 2048

  /** One answer of a source to a read: the bytes of the block and the state after it. */
  datatype Answer = Answer(block: seq<byte>, state: int)

  /** A source is what it will still answer, and its current state. */
  datatype Source = Source(answers: seq<Answer>, state: int) {
    function Left(): seq<byte> {
      BlocksOf(answers)
    }
  }

  function BlocksOf(answers: seq<Answer>): seq<byte> {
    if answers == [] then [] else answers[0].block + BlocksOf(answers[1..])
  }

  /** A sink is what it was given, and the states it will report after further blocks. */
  datatype Sink = Sink(got: seq<seq<byte>>, verdicts: seq<int>, state: int)

  datatype Manager = Manager(lastSource: int, lastSink: int, sources: map<int, Source>, sinks: map<int, Sink>)

  /** Source ids are even, sink ids odd, and all live ids were given out already. */
  predicate Valid(m: Manager) {
    && m.lastSource % 2 == 0 && m.lastSink % 2 == 1
    && (forall id :: id in m.sources ==> id % 2 == 0 && id <= m.lastSource)
    && (forall id :: id in m.sinks ==> id % 2 == 1 && id <= m.lastSink)
    && (forall id :: id in m.sources ==> Sized(m.sources[id].answers))
  }

  /** A source fills at most the response buffer it is given. */
  predicate Sized(answers: seq<Answer>) {
    forall i :: 0 <= i < |answers| ==> |answers[i].block| <= BLOCK_LEN
  }

  datatype Reply = Reply(rc: int, state: int, block: seq<byte>)

  function Read(m: Manager, id: int): (Manager, Reply) {
    if id !in m.sources then (m, Reply(RC_SOURCE_INVALID, 0, []))
    else
      var s := m.sources[id];
      if s.answers == [] then (m, Reply(RC_OK, s.state, []))
      else
        var a := s.answers[0];
        (m.(sources := m.sources[id := Source(s.answers[1..], a.state)]), Reply(RC_OK, a.state, a.block))
  }

  function Write(m: Manager, id: int, block: seq<byte>): (Manager, Reply) {
    if id !in m.sinks then (m, Reply(RC_SINK_INVALID, 0, []))
    else
      var s := m.sinks[id];
      var state := if s.verdicts == [] then s.state else s.verdicts[0];
      var s' := Sink(s.got + [block], if s.verdicts == [] then [] else s.verdicts[1..], state);
      (m.(sinks := m.sinks[id := s']), Reply(RC_OK, state, []))
  }

  function CloseSource(m: Manager, id: int): (Manager, Reply) {
    if id !in m.sources then (m, Reply(RC_SOURCE_INVALID, 0, []))
    else (m.(sources := m.sources - {id}), Reply(RC_OK, STATE_CLOSED, []))
  }

  function CloseSink(m: Manager, id: int): (Manager, Reply) {
    if id !in m.sinks then (m, Reply(RC_SINK_INVALID, 0, []))
    else (m.(sinks := m.sinks - {id}), Reply(RC_OK, STATE_CLOSED, []))
  }

  class StreamManager {
    var lastBulkSourceId: int
    var lastBulkSinkId: int
    var bulkSources: map<int, Source>
    var bulkSinks: map<int, Sink>

    ghost function Model(): Manager
      reads this
    {
      Manager(lastBulkSourceId, lastBulkSinkId, bulkSources, bulkSinks)
    }

    constructor (millis: nat)
      ensures Valid(Model()) && bulkSources == map[] && bulkSinks == map[]
      ensures lastBulkSourceId <= millis % 0x1000 <= lastBulkSinkId == lastBulkSourceId + 1
    {
      lastBulkSourceId := millis % 0x1000 / 2 * 2;
      lastBulkSinkId := millis % 0x1000 / 2 * 2 + 1;
      bulkSources := map[];
      bulkSinks := map[];
    }

    /** A new source gets an even id above all ids given out before. */
    method AddSource(stream: Source) returns (id: int)
      requires Valid(Model()) && Sized(stream.answers)
      modifies this
      ensures Valid(Model())
      ensures id % 2 == 0 && id > old(lastBulkSourceId) && id == lastBulkSourceId
      ensures id !in old(bulkSources) && id !in old(bulkSinks)
      ensures Model() == old(Model()).(lastSource := id, sources := old(bulkSources)[id := stream])
    {
      lastBulkSourceId := lastBulkSourceId + 2;
      bulkSources := bulkSources[lastBulkSourceId := stream];
      id := lastBulkSourceId;
    }

    method AddSink(stream: Sink) returns (id: int)
      requires Valid(Model())
      modifies this
      ensures Valid(Model())
      ensures id % 2 == 1 && id > old(lastBulkSinkId) && id == lastBulkSinkId
      ensures id !in old(bulkSources) && id !in old(bulkSinks)
      ensures Model() == old(Model()).(lastSink := id, sinks := old(bulkSinks)[id := stream])
    {
      lastBulkSinkId := lastBulkSinkId + 2;
      bulkSinks := bulkSinks[lastBulkSinkId := stream];
      id := lastBulkSinkId;
    }

    /** The parity of the id tells which table loses the stream; the other table is untouched. */
    method RemoveStream(id: int)
      requires Valid(Model())
      modifies this
      ensures Valid(Model())
      ensures Model() == old(Model()).(sources := old(bulkSources) - {id}, sinks := old(bulkSinks) - {id})
    {
      if id % 2 == 0 {
        bulkSources := bulkSources - {id};
        assert bulkSinks - {id} == bulkSinks;
      } else {
        bulkSinks := bulkSinks - {id};
        assert bulkSources - {id} == bulkSources;
      }
    }

    method BulkSourceRead(id: int) returns (reply: Reply)
      requires Valid(Model())
      modifies this
      ensures Valid(Model()) && |reply.block| <= BLOCK_LEN
      ensures (Model(), reply) == Read(old(Model()), id)
    {
      if id !in bulkSources {
        return Reply(RC_SOURCE_INVALID, 0, []);
      }
      var src := bulkSources[id];
      if src.answers == [] {
        return Reply(RC_OK, src.state, []);
      }
      bulkSources := bulkSources[id := Source(src.answers[1..], src.answers[0].state)];
      return Reply(RC_OK, src.answers[0].state, src.answers[0].block);
    }

    method BulkSinkWrite(id: int, block: seq<byte>) returns (reply: Reply)
      requires Valid(Model())
      modifies this
      ensures Valid(Model())
      ensures (Model(), reply) == Write(old(Model()), id, block)
    {
      if id !in bulkSinks {
        return Reply(RC_SINK_INVALID, 0, []);
      }
      var snk := bulkSinks[id];
      var state := if snk.verdicts == [] then snk.state else snk.verdicts[0];
      bulkSinks := bulkSinks[id := Sink(snk.got + [block], if snk.verdicts == [] then [] else snk.verdicts[1..], state)];
      return Reply(RC_OK, state, []);
    }

    method BulkSourceClose(id: int) returns (reply: Reply)
      requires Valid(Model())
      modifies this
      ensures Valid(Model())
      ensures (Model(), reply) == CloseSource(old(Model()), id)
    {
      if id !in bulkSources {
        return Reply(RC_SOURCE_INVALID, 0, []);
      }
      RemoveStream(id);
      assert bulkSinks == old(bulkSinks);
      return Reply(RC_OK, STATE_CLOSED, []);
    }

    method BulkSinkClose(id: int) returns (reply: Reply)
      requires Valid(Model())
      modifies this
      ensures Valid(Model())
      ensures (Model(), reply) == CloseSink(old(Model()), id)
    {
      if id !in bulkSinks {
        return Reply(RC_SINK_INVALID, 0, []);
      }
      RemoveStream(id);
      assert bulkSources == old(bulkSources);
      return Reply(RC_OK, STATE_CLOSED, []);
    }
  }

  // ---- what the handlers answer ----

  /** Everything is refused, and nothing changes, exactly for an id that is not in the table. */
  lemma RefusedIff(m: Manager, id: int, block: seq<byte>)
    ensures Read(m, id).1.rc == if id in m.sources then RC_OK else RC_SOURCE_INVALID
    ensures CloseSource(m, id).1.rc == Read(m, id).1.rc
    ensures Write(m, id, block).1.rc == if id in m.sinks then RC_OK else RC_SINK_INVALID
    ensures CloseSink(m, id).1.rc == Write(m, id, block).1.rc
    ensures id !in m.sources ==> Read(m, id) == CloseSource(m, id) && Read(m, id).0 == m && Read(m, id).1.block == [] && Read(m, id).1.state == 0
    ensures id !in m.sinks ==> Write(m, id, block) == CloseSink(m, id) && CloseSink(m, id).0 == m && CloseSink(m, id).1.block == [] && CloseSink(m, id).1.state == 0
  {
  }

  /** A read delivers the beginning of what the source has left, and tells the state it is in then. */
  lemma ReadTakes(m: Manager, id: int)
    requires id in m.sources
    ensures var (m', reply) := Read(m, id);
            && m'.sources.Keys == m.sources.Keys && m' == m.(sources := m'.sources)
            && (forall other :: other in m.sources && other != id ==> m'.sources[other] == m.sources[other])
            && reply.block + m'.sources[id].Left() == m.sources[id].Left() && reply.state == m'.sources[id].state
            && (m.sources[id].answers != [] ==> |m'.sources[id].answers| == |m.sources[id].answers| - 1)
  {
  }

  /** A write gives the sink the block behind all others, and tells the state it is in then. */
  lemma WriteGives(m: Manager, id: int, block: seq<byte>)
    requires id in m.sinks
    ensures var (m', reply) := Write(m, id, block);
            && m'.sinks.Keys == m.sinks.Keys && m' == m.(sinks := m'.sinks)
            && (forall other :: other in m.sinks && other != id ==> m'.sinks[other] == m.sinks[other])
            && Concat(m'.sinks[id].got) == Concat(m.sinks[id].got) + block && |m'.sinks[id].got| == |m.sinks[id].got| + 1
            && reply.state == m'.sinks[id].state && reply.block == []
  {
    ConcatSnoc(m.sinks[id].got, block);
  }

  /** After its close a stream is refused for ever, and says that it is closed; all others are as they were. */
  lemma CloseForgets(m: Manager, id: int, block: seq<byte>, other: int)
    ensures var (m', reply) := CloseSource(m, id);
            && Read(m', id).1.rc == RC_SOURCE_INVALID && CloseSource(m', id).0 == m' && m'.sinks == m.sinks && m'.lastSource == m.lastSource
            && (other != id && other in m.sources ==> other in m'.sources && m'.sources[other] == m.sources[other])
            && (id in m.sources ==> reply.state == STATE_CLOSED)
    ensures var (m', reply) := CloseSink(m, id);
            && Write(m', id, block).1.rc == RC_SINK_INVALID && CloseSink(m', id).0 == m' && m'.sources == m.sources && m'.lastSink == m.lastSink
            && (other != id && other in m.sinks ==> other in m'.sinks && m'.sinks[other] == m.sinks[other])
            && (id in m.sinks ==> reply.state == STATE_CLOSED)
  {
  }
}
