/**
 The inside proxy of the VM side, on values: the states of its handshake, the slots its requests
 are kept in, and what it wrote to the outside proxy and replied to its clients.
 */
module InsideProxy {
  import opened Bytes
  import opened ProxyEngine

  const MAX_REQUEST_COUNT := 128

  /** In the states named I... the end of the last write is still awaited. */
  datatype PState =
    | Initial | IWelcome | IIdle | Idle
    | ITransmitPrep | TransmitPrep | ITransmitting | Transmitting
    | IReceiving | Receiving | IReset | Reset

  /** A client's request in its slot; requests are numbered as they are accepted. */
  datatype Job = Job(slot: nat, no: nat)

  /** A record for the outside proxy. */
  datatype Write = Control(h: Handshake) | Packet(job: Job)

  /** A reply to the request `to`, made of the response `resp`. */
  datatype Reply = Reply(to: nat, resp: nat)

  /**
   `requests` holds for each slot the number of the last request kept in it. History: how many
   requests were accepted, the replies given, and all records written.
   */
  datatype Inside = Inside(pstate: PState, free: seq<nat>, waiting: seq<nat>, requests: seq<nat>,
                           accepted: nat, replies: seq<Reply>, out: seq<Write>)

  /** All slots; the ring of free ones starts with the second. */
  function AllSlots(): (s: seq<nat>)
    ensures |s| == MAX_REQUEST_COUNT && forall i :: 0 <= i < |s| ==> s[i] == if i == MAX_REQUEST_COUNT - 1 then 0 else i + 1
  {
    seq(MAX_REQUEST_COUNT, i requires 0 <= i < MAX_REQUEST_COUNT => if i == MAX_REQUEST_COUNT - 1 then 0 else i + 1)
  }

  /** The proxy after its start: all slots are free. */
  function Started(): Inside {
    Inside(Initial, AllSlots(), [], seq(MAX_REQUEST_COUNT, _ => 0), 0, [], [])
  }

  /** The first byte of a handshake record, whose low half is read outside. */
  function Wcc(h: Handshake): byte {
    match h
    case HostWelcome => 0x40
    case HostWillSend => 0xC1
    case HostAck => 0xC4
    case HostSendPacket => 0xC5
    case HostReset => 0x4F
    case HostState => 0x4E
    case HostOther => 0xC2 // of the screens shown to a reconnecting proxy
  }

  /** The outside proxy reads the handshakes as they are meant; the welcome for binary transfer has a code of its own. */
  lemma WccIsRead(h: Handshake)
    ensures HandshakeOf(Wcc(h)) == h && HandshakeOf(0x4D) == HostWelcome
  {
  }

  function Enter(s: Inside, p: PState, h: Handshake): Inside {
    s.(pstate := p, out := s.out + [Control(h)])
  }

  predicate WellFormed(s: Inside) {
    && |s.requests| == MAX_REQUEST_COUNT
    && (forall i :: 0 <= i < |s.free| ==> s.free[i] < MAX_REQUEST_COUNT)
    && (forall i :: 0 <= i < |s.waiting| ==> s.waiting[i] < MAX_REQUEST_COUNT)
  }

  /** A client's request arrives: it gets a slot unless only one is left, and is announced if the proxy is idle. */
  function Accept(s: Inside): Inside
    requires WellFormed(s)
  {
    if |s.free| <= 1 then s
    else
      var slot := s.free[0];
      var s' := s.(free := s.free[1..], waiting := s.waiting + [slot], requests := s.requests[slot := s.accepted], accepted := s.accepted + 1);
      if s.pstate == Idle then Enter(s', ITransmitPrep, HostWillSend) else s'
  }

  /** The end of a write to the outside proxy. */
  function Written(s: Inside): Inside {
    match s.pstate
    case ITransmitPrep => s.(pstate := TransmitPrep)
    case IReceiving => s.(pstate := Receiving)
    case ITransmitting => s.(pstate := Transmitting)
    case IIdle => if s.waiting != [] then Enter(s, ITransmitPrep, HostWillSend) else s.(pstate := Idle)
    case IReset => s.(pstate := Reset)
    case IWelcome => Enter(s, IIdle, HostAck)
    case _ => s
  }

  /** Takes the next waiting request and sends it out. */
  function Transmit(s: Inside): Inside
    requires WellFormed(s) && s.waiting != []
  {
    var slot := s.waiting[0];
    s.(pstate := ITransmitting, waiting := s.waiting[1..], out := s.out + [Packet(Job(slot, s.requests[slot]))])
  }

  /** A response for a slot: the client in it gets its reply, and the slot is free again. */
  function Deliver(s: Inside, no: nat, more: bool, slot: nat): Inside
    requires WellFormed(s)
  {
    if slot >= MAX_REQUEST_COUNT then Enter(s, IReset, HostReset)
    else
      var s' := s.(replies := s.replies + [Reply(s.requests[slot], no)], free := s.free + [slot]);
      if more then Enter(s', IReceiving, HostSendPacket) else Enter(s', IIdle, HostAck)
  }

  /** What the proxy takes out of its queue without looking is there. */
  predicate CanRead(s: Inside, t: Entry) {
    t.Ack? && s.pstate == TransmitPrep ==> s.waiting != []
  }

  /** A record from the outside proxy; `behind` tells that a WANT-SEND came with an ACK in the same read. */
  function Received(s: Inside, t: Entry, behind: bool, slot: nat): Inside
    requires WellFormed(s) && CanRead(s, t)
  {
    match t
    case WantSend(_) =>
      if s.pstate == Idle then Enter(s, IReceiving, HostSendPacket)
      else if s.pstate == TransmitPrep then Enter(s, ITransmitPrep, HostWillSend) // our own announcement has priority
      else Enter(s, IReset, HostReset)
    case Welcome =>
      if s.pstate == Initial then Enter(s, IWelcome, HostWelcome) else Enter(s, IReset, HostReset)
    case Ack =>
      if s.pstate == TransmitPrep then Transmit(s)
      else if s.pstate != Transmitting && s.pstate != Reset then s
      else if s.waiting != [] then Enter(s, ITransmitPrep, HostWillSend)
      else if behind then Enter(s, IReceiving, HostSendPacket)
      else s.(pstate := Idle)
    case AckWantSend(_) =>
      if s.pstate == Transmitting || s.pstate == Reset then Enter(s, IReceiving, HostSendPacket)
      else Enter(s, IReset, HostReset)
    case Data(no, more) =>
      if s.pstate != Receiving && s.pstate != IReceiving then Enter(s, IReset, HostReset)
      else Deliver(s, no, more, slot)
    case FromHost => s // not a record from outside
  }
}
