/**
 What can be said at the same time on the two lines between the proxies: an abstraction of their
 states, its steps, and the table of the combinations that occur.
 */
module LinkTable {
  import opened InsideProxy

  /** The kinds of record, in both directions. */
  datatype Kind =
    | KWelcome | KAck | KWant | KAckWant | KLast | KMore // to the inside proxy; data with more behind it or not
    | KWill | KSend | KReset | KPacket                   // to the outside proxy, like KWelcome and KAck
    | KOther

  /** The records on a line, the next to be read first. */
  datatype Line = Empty | One(k: Kind) | Two(k: Kind, k2: Kind) | Three(k: Kind, k2: Kind, k3: Kind) | Jam

  function Push(l: Line, k: Kind): Line {
    match l
    case Empty => One(k)
    case One(a) => Two(a, k)
    case Two(a, b) => Three(a, b, k)
    case _ => Jam
  }

  function Pop(l: Line): Line {
    match l
    case Two(_, b) => One(b)
    case Three(_, b, c) => Two(b, c)
    case Jam => Jam
    case _ => Empty
  }

  /**
   Both proxies as far as the handshake depends on them. `waiting` and `queue` are the lengths of
   the two queues, `spare` is the number of free slots and `outside` that of the requests outside
   without a response; `lead` is how many responses were replied to clients but not yet acknowledged.
   */
  datatype View = View(pstate: PState, waiting: nat, spare: nat, toProxy: Line, toHost: Line,
                       sending: bool, may: bool, pending: bool, queue: nat, lead: int, outside: nat)

  // ---- the steps ----

  function Tell(v: View, p: PState, k: Kind): View {
    v.(pstate := p, toProxy := Push(v.toProxy, k))
  }

  function Requested(v: View): View {
    if v.spare <= 1 then v
    else
      var v' := v.(waiting := v.waiting + 1, spare := v.spare - 1);
      if v.pstate == Idle then Tell(v', ITransmitPrep, KWill) else v'
  }

  function Ended(v: View): View {
    match v.pstate
    case ITransmitPrep => v.(pstate := TransmitPrep)
    case IReceiving => v.(pstate := Receiving)
    case ITransmitting => v.(pstate := Transmitting)
    case IIdle => if v.waiting > 0 then Tell(v, ITransmitPrep, KWill) else v.(pstate := Idle)
    case IReset => v.(pstate := Reset)
    case IWelcome => Tell(v, IIdle, KAck)
    case _ => v
  }

  predicate BothThere(l: Line) {
    match l
    case Two(a, b) => a == KAck && b == KWant
    case Three(a, b, _) => a == KAck && b == KWant
    case _ => false
  }

  function HostRead(v: View, behind: bool): View {
    var both := behind && BothThere(v.toHost);
    var v' := v.(toHost := if both then Pop(Pop(v.toHost)) else Pop(v.toHost));
    if v.toHost.Empty? || v.toHost.Jam? then v
    else
      match v.toHost.k
      case KWant =>
        if v.pstate == Idle then Tell(v', IReceiving, KSend)
        else if v.pstate == TransmitPrep then Tell(v', ITransmitPrep, KWill)
        else Tell(v', IReset, KReset)
      case KWelcome => if v.pstate == Initial then Tell(v', IWelcome, KWelcome) else Tell(v', IReset, KReset)
      case KAck =>
        if v.pstate == TransmitPrep then Tell(v'.(waiting := if v.waiting > 0 then v.waiting - 1 else 0), ITransmitting, KPacket)
        else if v.pstate != Transmitting && v.pstate != Reset then v'
        else if v.waiting > 0 then Tell(v', ITransmitPrep, KWill)
        else if both then Tell(v', IReceiving, KSend)
        else v'.(pstate := Idle)
      case KAckWant =>
        if v.pstate == Transmitting || v.pstate == Reset then Tell(v', IReceiving, KSend) else Tell(v', IReset, KReset)
      case KLast =>
        if v.pstate != Receiving && v.pstate != IReceiving then Tell(v', IReset, KReset)
        else Tell(v'.(lead := v.lead + 1, spare := v.spare + 1), IIdle, KAck)
      case KMore =>
        if v.pstate != Receiving && v.pstate != IReceiving then Tell(v', IReset, KReset)
        else Tell(v'.(lead := v.lead + 1, spare := v.spare + 1), IReceiving, KSend)
      case _ => v'
  }

  /** The outside proxy finishes the response it was sending. */
  function Finished(v: View): View {
    if v.sending && v.queue > 0 then v.(sending := false, queue := v.queue - 1, lead := v.lead - 1) else v.(sending := false)
  }

  function ProxyRead(v: View): View {
    var v' := v.(toProxy := Pop(v.toProxy));
    if v.toProxy.Empty? || v.toProxy.Jam? then v
    else
      match v.toProxy.k
      case KWelcome => v'.(sending := false, may := false, pending := false)
      case KWill => v'.(sending := false, may := false, pending := false, toHost := Push(v.toHost, KAck))
      case KAck => Finished(v').(may := true, pending := false)
      case KSend =>
        var f := Finished(v');
        if f.queue == 0 then f else f.(sending := true, toHost := Push(v.toHost, if f.queue > 1 then KMore else KLast))
      case KReset =>
        v'.(sending := false, may := true, pending := v.queue > 0, toHost := Push(v.toHost, if v.queue > 0 then KAckWant else KAck))
      case KPacket =>
        var taken := v'.(sending := false, outside := v.outside + 1);
        if v.queue > 0 then taken.(pending := true, may := false, toHost := Push(v.toHost, KAckWant))
        else taken.(pending := false, may := true, toHost := Push(v.toHost, KAck))
      case _ => v'
  }

  function Responded(v: View): View {
    var v' := v.(queue := v.queue + 1, outside := if v.outside > 0 then v.outside - 1 else 0);
    if v.queue == 0 && v.may && !v.pending then v'.(pending := true, toHost := Push(v.toHost, KWant)) else v'
  }

  // ---- the table ----

  predicate On(v: View, toProxy: Line, toHost: Line) {
    v.toProxy == toProxy && v.toHost == toHost
  }

  /** The outside proxy must not ask for sending. */
  predicate Silent(v: View) {
    !v.sending && !v.may && !v.pending && v.lead == 0
  }

  /** It has not got any request yet. */
  predicate Newborn(v: View) {
    Silent(v) && v.queue == 0 && v.outside == 0
  }

  /** It may ask. */
  predicate Free(v: View) {
    !v.sending && v.may && !v.pending && v.lead == 0
  }

  /** It may ask, has no response, and a request is outside. */
  predicate Owes(v: View) {
    Free(v) && v.queue == 0 && v.outside > 0
  }

  /** It has responses, and silence is imposed. */
  predicate Held(v: View) {
    Silent(v) && v.queue > 0
  }

  /** It has asked for sending. */
  predicate Asked(v: View) {
    !v.sending && v.pending && v.queue > 0 && v.lead == 0
  }

  predicate AskedFree(v: View) {
    Asked(v) && v.may
  }

  predicate AskedSilent(v: View) {
    Asked(v) && !v.may
  }

  /** It has sent a response that its client has not got yet. */
  predicate Under(v: View) {
    v.sending && v.pending && v.queue > 0 && v.lead == 0
  }

  /** The client has got it, and the answer is on its way. */
  predicate Taken(v: View) {
    v.sending && v.pending && v.queue > 0 && v.lead == 1
  }

  /** Announcing a request. */
  predicate Announced(v: View) {
    || (On(v, Three(KWelcome, KAck, KWill), Empty) && Newborn(v))
    || (On(v, Two(KAck, KWill), Empty) && (Newborn(v) || Taken(v)))
    || (On(v, One(KWill), Empty) && (Free(v) || Held(v) || AskedFree(v)))
    || (On(v, One(KWill), One(KWant)) && AskedFree(v))
    || (On(v, One(KWill), One(KAck)) && Held(v))
    || (On(v, One(KWill), One(KAckWant)) && Asked(v))
    || (On(v, Two(KWill, KWill), Empty) && AskedFree(v))
    || (On(v, Two(KPacket, KWill), Empty) && Held(v))
    || (On(v, Two(KReset, KWill), Empty) && Held(v))
    || (On(v, Empty, One(KAck)) && Silent(v))
    || (On(v, Empty, Two(KWant, KAck)) && Held(v))
    || (On(v, Empty, Two(KAck, KAck)) && Held(v))
    || (On(v, Empty, Two(KAckWant, KAck)) && Held(v))
    || (On(v, Empty, Empty) && Silent(v))
  }

  /** The combinations of states and records on the lines that occur. */
  predicate Agreed(v: View) {
    v.spare > 0 &&
    match v.pstate
    case Initial => On(v, Empty, One(KWelcome)) && Newborn(v)
    case IWelcome => (On(v, One(KWelcome), Empty) || On(v, Empty, Empty)) && Newborn(v)
    case IIdle => AgreedIdle(v)
    case Idle => AgreedIdle(v) && v.waiting == 0
    case ITransmitPrep => v.waiting > 0 && Announced(v)
    case TransmitPrep => v.waiting > 0 && Announced(v)
    case ITransmitting => AgreedTransmitting(v)
    case Transmitting => AgreedTransmitting(v)
    case IReceiving => AgreedReceiving(v)
    case Receiving => AgreedReceiving(v)
    case IReset => AgreedReset(v)
    case Reset => AgreedReset(v)
  }

  /** A request waits already, or there is a slot for one. */
  predicate RoomForMore(v: View) {
    v.waiting > 0 || v.spare > 1
  }

  predicate AgreedIdle(v: View) {
    || (On(v, Two(KWelcome, KAck), Empty) && Newborn(v))
    || (On(v, One(KAck), Empty) && (Newborn(v) || (Taken(v) && RoomForMore(v))))
    || (On(v, Empty, Empty) && Free(v) && (v.queue == 0 || RoomForMore(v)))
    || (On(v, Empty, One(KWant)) && AskedFree(v))
    || (On(v, One(KPacket), Empty) && Held(v))
    || (On(v, Empty, One(KAckWant)) && AskedSilent(v))
  }

  predicate AgreedTransmitting(v: View) {
    || (On(v, One(KPacket), Empty) && Silent(v))
    || (On(v, One(KPacket), One(KAck)) && Held(v))
    || (On(v, Two(KWill, KPacket), Empty) && Held(v))
    || (On(v, Empty, One(KAck)) && Owes(v))
    || (On(v, Empty, One(KAckWant)) && AskedSilent(v))
    || (On(v, Empty, One(KWant)) && AskedFree(v))
    || (On(v, Empty, Two(KAck, KWant)) && AskedFree(v))
    || (On(v, Empty, Two(KAck, KAckWant)) && AskedSilent(v))
    || (On(v, Empty, Empty) && (Owes(v) || AskedFree(v)))
  }

  predicate AgreedReceiving(v: View) {
    || (On(v, One(KSend), Empty) && (Asked(v) || (Taken(v) && v.queue > 1)))
    || (On(v, Empty, One(KLast)) && Under(v))
    || (On(v, Empty, One(KMore)) && Under(v) && v.queue > 1)
  }

  predicate AgreedReset(v: View) {
    || (On(v, One(KReset), Empty) && (Held(v) || Asked(v)))
    || (On(v, One(KReset), One(KAck)) && Held(v) && v.waiting > 0)
    || (On(v, Two(KWill, KReset), Empty) && Asked(v) && v.waiting > 0)
    || (On(v, Empty, One(KAckWant)) && AskedFree(v))
    || (On(v, Empty, Two(KAck, KAckWant)) && AskedFree(v) && v.waiting > 0)
  }

  lemma RequestedAgrees(v: View)
    requires Agreed(v)
    ensures Agreed(Requested(v))
  {
  }

  lemma EndedAgrees(v: View)
    requires Agreed(v)
    ensures Agreed(Ended(v))
  {
  }

  lemma HostReadAgrees(v: View, behind: bool)
    requires Agreed(v)
    ensures Agreed(HostRead(v, behind))
  {
    match v.pstate
    case ITransmitPrep => AnnouncedRead(v, behind);
    case TransmitPrep => AnnouncedRead(v, behind);
    case ITransmitting => TransmittingRead(v, behind);
    case Transmitting => TransmittingRead(v, behind);
    case IReset => ResetRead(v, behind);
    case Reset => ResetRead(v, behind);
    case _ => RestRead(v, behind);
  }

  lemma AnnouncedRead(v: View, behind: bool)
    requires Agreed(v) && (v.pstate == ITransmitPrep || v.pstate == TransmitPrep)
    ensures Agreed(HostRead(v, behind))
  {
  }

  lemma TransmittingRead(v: View, behind: bool)
    requires Agreed(v) && (v.pstate == ITransmitting || v.pstate == Transmitting)
    ensures Agreed(HostRead(v, behind))
  {
  }

  lemma ResetRead(v: View, behind: bool)
    requires Agreed(v) && (v.pstate == IReset || v.pstate == Reset)
    ensures Agreed(HostRead(v, behind))
  {
  }

  lemma RestRead(v: View, behind: bool)
    requires Agreed(v) && v.pstate in {Initial, IWelcome, IIdle, Idle, IReceiving, Receiving}
    ensures Agreed(HostRead(v, behind))
  {
  }

  lemma ProxyReadAgrees(v: View)
    requires Agreed(v)
    ensures Agreed(ProxyRead(v))
  {
    match v.pstate
    case ITransmitPrep => ProxyReadAnnounced(v);
    case TransmitPrep => ProxyReadAnnounced(v);
    case ITransmitting => ProxyReadTransmitting(v);
    case Transmitting => ProxyReadTransmitting(v);
    case _ => ProxyReadRest(v);
  }

  lemma ProxyReadAnnounced(v: View)
    requires Agreed(v) && (v.pstate == ITransmitPrep || v.pstate == TransmitPrep)
    ensures Agreed(ProxyRead(v))
  {
  }

  lemma ProxyReadTransmitting(v: View)
    requires Agreed(v) && (v.pstate == ITransmitting || v.pstate == Transmitting)
    ensures Agreed(ProxyRead(v))
  {
  }

  lemma ProxyReadRest(v: View)
    requires Agreed(v) && v.pstate !in {ITransmitPrep, TransmitPrep, ITransmitting, Transmitting}
    ensures Agreed(ProxyRead(v))
  {
  }

  lemma RespondedAgrees(v: View)
    requires Agreed(v) && v.outside > 0
    ensures Agreed(Responded(v))
  {
  }
}
