/**
 What can go wrong between the two proxies, seen in the table: waiting for each other for ever,
 responses left over, and resets without end. A run of the table stands for one of the link.
 */
module LinkTroubles {
  import opened InsideProxy
  import opened LinkTable
  import opened ProxyLink

  function Next(v: View, ev: Event): View {
    match ev
    case ClientSends => Requested(v)
    case WriteEnds => Ended(v)
    case HostReads(behind) => HostRead(v, behind)
    case ProxyReads => ProxyRead(v)
    case Answer(i) => if i < v.outside then Responded(v) else v
  }

  function RunOf(v: View, evs: seq<Event>): View
    decreases |evs|
  {
    if evs == [] then v else RunOf(Next(v, evs[0]), evs[1..])
  }

  lemma {:induction false} RunSplits(v: View, evs: seq<Event>, more: seq<Event>)
    ensures RunOf(v, evs + more) == RunOf(RunOf(v, evs), more)
    decreases |evs|
  {
    hide Next;
    if evs == [] {
      assert evs + more == more;
    } else {
      assert (evs + more)[1..] == evs[1..] + more;
      RunSplits(Next(v, evs[0]), evs[1..], more);
    }
  }

  lemma RunOfOne(v: View, ev: Event)
    ensures RunOf(v, []) == v && RunOf(v, [ev]) == Next(v, ev)
  {
    hide Next;
    assert [ev][1..] == [];
  }

  lemma RunOfThree(v: View, a: Event, b: Event, c: Event)
    ensures RunOf(v, [a]) == Next(v, a)
    ensures RunOf(v, [a, b]) == Next(Next(v, a), b)
    ensures RunOf(v, [a, b, c]) == Next(Next(Next(v, a), b), c)
  {
    hide Next, RunOf;
    RunOfOne(v, a);
    RunOfOne(Next(v, a), b);
    RunOfOne(Next(Next(v, a), b), c);
    RunSplits(v, [a], [b]);
    RunSplits(v, [a, b], [c]);
    assert [a] + [b] == [a, b] && [a, b] + [c] == [a, b, c];
  }

  /** The packets on the line. */
  function PacketsOn(l: Line): nat {
    match l
    case One(a) => OnePacket(a)
    case Two(a, b) => OnePacket(a) + OnePacket(b)
    case Three(a, b, c) => OnePacket(a) + OnePacket(b) + OnePacket(c)
    case _ => 0
  }

  function OnePacket(k: Kind): nat {
    if k == KPacket then 1 else 0
  }

  /** The requests without a response. */
  function Unanswered(v: View): nat {
    v.waiting + PacketsOn(v.toProxy) + v.outside
  }

  /** All requests without a reply. */
  function Unreplied(v: View): int {
    Unanswered(v) + v.queue - v.lead
  }

  // ---- for ever ----

  predicate QuietView(v: View) {
    v.toProxy.Empty? && v.toHost.Empty?
  }

  predicate StuckView(v: View) {
    QuietView(v) && (v.pstate in {ITransmitPrep, TransmitPrep} || (v.pstate in {ITransmitting, Transmitting} && v.pending))
  }

  predicate LastAckView(v: View, behind: bool) {
    && v.toProxy.Empty?
    && ((v.pstate == ITransmitPrep && v.toHost == One(KAck)) || (v.pstate == ITransmitting && behind && v.toHost == Two(KAck, KWant)))
  }

  lemma StuckByReading(v: View, behind: bool)
    requires Agreed(v)
    ensures StuckView(HostRead(v, behind)) <==> StuckView(v) || LastAckView(v, behind)
  {
  }

  lemma StuckByClients(v: View)
    requires Agreed(v)
    ensures StuckView(Requested(v)) <==> StuckView(v)
    ensures StuckView(Ended(v)) <==> StuckView(v)
    ensures StuckView(Responded(v)) <==> StuckView(v)
  {
  }

  lemma StuckByProxy(v: View)
    requires Agreed(v)
    ensures StuckView(ProxyRead(v)) <==> StuckView(v)
  {
  }

  lemma StuckNext(v: View, ev: Event)
    requires Agreed(v)
    ensures StuckView(Next(v, ev)) <==> StuckView(v) || (ev.HostReads? && LastAckView(v, ev.behind))
  {
    hide Agreed, StuckView, LastAckView, HostRead, Requested, Ended, ProxyRead, Responded;
    match ev
    case HostReads(behind) => StuckByReading(v, behind);
    case ProxyReads => StuckByProxy(v);
    case _ => StuckByClients(v);
  }

  lemma StuckIsUnreplied(v: View)
    requires Agreed(v) && StuckView(v)
    ensures Unreplied(v) > 0
  {
  }

  // ---- while a write has not ended ----

  predicate WaitsView(v: View) {
    QuietView(v) && v.pstate in {ITransmitPrep, TransmitPrep, ITransmitting, Transmitting}
  }

  predicate EarlyView(v: View) {
    !v.toHost.Empty? && !v.toHost.Jam? && v.toHost.k == KAck && v.pstate in {ITransmitPrep, ITransmitting}
  }

  lemma WaitsByReading(v: View, behind: bool)
    requires Agreed(v) && WaitsView(HostRead(v, behind)) && !WaitsView(v)
    ensures EarlyView(v)
  {
  }

  lemma WaitsByClients(v: View)
    requires Agreed(v)
    ensures WaitsView(Requested(v)) || WaitsView(Ended(v)) || WaitsView(Responded(v)) ==> WaitsView(v)
  {
  }

  lemma WaitsByProxy(v: View)
    requires Agreed(v)
    ensures WaitsView(ProxyRead(v)) ==> WaitsView(v)
  {
  }

  lemma WaitsNext(v: View, ev: Event)
    requires Agreed(v) && !WaitsView(v) && !(ev.HostReads? && EarlyView(v))
    ensures !WaitsView(Next(v, ev))
  {
    hide Agreed, WaitsView, EarlyView, HostRead, Requested, Ended, ProxyRead, Responded;
    match ev
    case HostReads(behind) => if WaitsView(HostRead(v, behind)) { WaitsByReading(v, behind); }
    case ProxyReads => WaitsByProxy(v);
    case _ => WaitsByClients(v);
  }

  lemma QuietIsIdle(v: View)
    requires Agreed(v) && QuietView(v) && !WaitsView(v)
    ensures v.pstate in {IWelcome, IIdle, Idle}
  {
  }

  // ---- until a client's next request ----

  predicate StalledView(v: View) {
    QuietView(v) && v.pstate in {IIdle, Idle} && v.queue > 0
  }

  predicate LeavesView(v: View) {
    v.toProxy == One(KAck) && v.sending && v.queue > 1
  }

  predicate AnnouncesView(v: View, ev: Event) {
    || (ev.ClientSends? && v.pstate == Idle && v.spare > 1)
    || (ev.WriteEnds? && v.pstate == IIdle && v.waiting > 0)
  }

  lemma StalledByReading(v: View, behind: bool)
    requires Agreed(v)
    ensures StalledView(HostRead(v, behind)) <==> StalledView(v)
  {
  }

  lemma StalledByProxy(v: View)
    requires Agreed(v)
    ensures StalledView(ProxyRead(v)) <==> StalledView(v) || LeavesView(v)
  {
  }

  lemma StalledByClients(v: View)
    requires Agreed(v)
    ensures StalledView(Requested(v)) <==> StalledView(v) && !AnnouncesView(v, ClientSends)
    ensures StalledView(Ended(v)) <==> StalledView(v) && !AnnouncesView(v, WriteEnds)
    ensures StalledView(Responded(v)) <==> StalledView(v)
  {
  }

  lemma LeavingIsNotStalled(v: View, ev: Event)
    ensures LeavesView(v) ==> !StalledView(v)
    ensures !ev.ClientSends? && !ev.WriteEnds? ==> !AnnouncesView(v, ev)
  {
  }

  lemma StalledNext(v: View, ev: Event)
    requires Agreed(v)
    ensures StalledView(Next(v, ev)) <==> (ev.ProxyReads? && LeavesView(v)) || (StalledView(v) && !AnnouncesView(v, ev))
  {
    hide Agreed, StalledView, LeavesView, AnnouncesView, HostRead, Requested, Ended, ProxyRead, Responded;
    LeavingIsNotStalled(v, ev);
    match ev
    case HostReads(behind) => StalledByReading(v, behind);
    case ProxyReads => StalledByProxy(v);
    case _ => StalledByClients(v);
  }

  /** The events before the announcement. */
  function Waking(v: View): seq<Event> {
    (if v.pstate == IIdle then [WriteEnds] else []) + (if v.waiting == 0 then [ClientSends] else [])
  }

  /** From there: the write ends, a client's request is announced, and the responses go with its packet's answer. */
  function Serving(v: View): seq<Event> {
    Waking(v) + ANNOUNCED
  }

  const ANNOUNCED: seq<Event> :=
    [WriteEnds, ProxyReads, HostReads(false)] + [WriteEnds, ProxyReads, HostReads(false)] + [ProxyReads]

  lemma AnnouncedIsServed(v: View)
    requires v.pstate == ITransmitPrep && On(v, One(KWill), Empty) && v.queue > 0 && v.waiting > 0
    ensures RunOf(v, ANNOUNCED).toHost == One(if v.queue > 1 then KMore else KLast)
  {
    hide RunOf;
    var prep := [WriteEnds, ProxyReads, HostReads(false)];
    RunOfThree(v, WriteEnds, ProxyReads, HostReads(false));
    var sent := RunOf(v, prep);
    assert sent.pstate == ITransmitting && On(sent, One(KPacket), Empty) && sent.queue == v.queue;
    PacketIsServed(sent);
    RunSplits(v, prep, prep + [ProxyReads]);
    assert ANNOUNCED == prep + (prep + [ProxyReads]);
  }

  lemma PacketIsServed(v: View)
    requires v.pstate == ITransmitting && On(v, One(KPacket), Empty) && v.queue > 0
    ensures RunOf(v, [WriteEnds, ProxyReads, HostReads(false)] + [ProxyReads]).toHost == One(if v.queue > 1 then KMore else KLast)
  {
    hide RunOf;
    var prep := [WriteEnds, ProxyReads, HostReads(false)];
    RunOfThree(v, WriteEnds, ProxyReads, HostReads(false));
    var asked := RunOf(v, prep);
    assert asked.pstate == IReceiving && On(asked, One(KSend), Empty) && asked.queue == v.queue && !asked.sending;
    RunOfThree(asked, ProxyReads, ProxyReads, ProxyReads);
    RunSplits(v, prep, [ProxyReads]);
  }

  lemma StalledIsAnnounced(v: View)
    requires Agreed(v) && StalledView(v)
    ensures var v' := RunOf(v, Waking(v));
            v'.pstate == ITransmitPrep && On(v', One(KWill), Empty) && v'.queue == v.queue > 0 && v'.waiting > 0
  {
    hide RunOf;
    if v.pstate == Idle {
      assert Waking(v) == [ClientSends];
      RunOfOne(v, ClientSends);
    } else if v.waiting > 0 {
      assert Waking(v) == [WriteEnds];
      RunOfOne(v, WriteEnds);
    } else {
      assert Waking(v) == [WriteEnds, ClientSends];
      RunOfThree(v, WriteEnds, ClientSends, ClientSends);
    }
  }

  lemma StalledIsServed(v: View)
    requires Agreed(v) && StalledView(v)
    ensures RunOf(v, Serving(v)).toHost == One(if v.queue > 1 then KMore else KLast)
  {
    hide RunOf, Agreed, StalledView, Waking;
    StalledIsAnnounced(v);
    AnnouncedIsServed(RunOf(v, Waking(v)));
    RunSplits(v, Waking(v), ANNOUNCED);
  }

  // ---- resets without end ----

  /** A reset follows the announcement that is on its way or answered, or the announcement follows that reset. */
  predicate StormView(v: View) {
    match v.pstate
    case ITransmitPrep => StormAnnounced(v)
    case TransmitPrep => StormAnnounced(v)
    case IReset => StormReset(v)
    case Reset => StormReset(v)
    case _ => false
  }

  lemma StormState(v: View)
    requires StormView(v)
    ensures !QuietView(v) && v.pstate in {ITransmitPrep, TransmitPrep, IReset, Reset}
  {
  }

  predicate StormAnnounced(v: View) {
    On(v, Two(KPacket, KWill), Empty) || On(v, Two(KReset, KWill), Empty) || On(v, One(KWill), One(KAckWant)) || On(v, Empty, Two(KAckWant, KAck))
  }

  predicate StormReset(v: View) {
    On(v, Two(KWill, KReset), Empty) || On(v, One(KReset), One(KAck)) || On(v, Empty, Two(KAck, KAckWant))
  }

  /** The answer to a packet is not there yet. */
  predicate PacketOut(v: View) {
    v.toProxy == One(KPacket) || v.toHost == One(KAckWant) || v.toHost == Two(KAck, KAckWant)
  }

  /** An announcement while a packet is unanswered, or a WANT-SEND read before the end of an announcement. */
  predicate CollidesView(v: View, ev: Event) {
    match ev
    case ClientSends => v.pstate == Idle && v.spare > 1 && PacketOut(v)
    case WriteEnds => v.pstate == IIdle && v.waiting > 0 && PacketOut(v)
    case HostReads(_) =>
      && !v.toHost.Empty? && !v.toHost.Jam?
      && ((v.pstate == Transmitting && v.toHost.k == KAck && v.waiting > 0 && PacketOut(v)) || (v.pstate == ITransmitPrep && v.toHost.k == KWant))
    case _ => false
  }

  /** The answer to the announcement before the reset is ignored when it is read now. */
  predicate SkipsView(v: View) {
    v.pstate == IReset && !v.toHost.Empty? && !v.toHost.Jam? && v.toHost.k == KAck
  }

  lemma StormByReading(v: View, behind: bool)
    requires Agreed(v)
    ensures StormView(HostRead(v, behind)) <==> CollidesView(v, HostReads(behind)) || (StormView(v) && !SkipsView(v))
  {
  }

  lemma StormByRequests(v: View)
    requires Agreed(v)
    ensures StormView(Requested(v)) <==> CollidesView(v, ClientSends) || StormView(v)
    ensures StormView(Responded(v)) <==> StormView(v)
  {
  }

  lemma StormByEnds(v: View)
    requires Agreed(v)
    ensures StormView(Ended(v)) <==> CollidesView(v, WriteEnds) || StormView(v)
  {
  }

  lemma StormByProxy(v: View)
    requires Agreed(v)
    ensures StormView(ProxyRead(v)) <==> StormView(v)
  {
  }

  lemma CollidesOnly(v: View, ev: Event)
    ensures !ev.ClientSends? && !ev.WriteEnds? && !ev.HostReads? ==> !CollidesView(v, ev)
  {
  }

  lemma StormNext(v: View, ev: Event)
    requires Agreed(v)
    ensures StormView(Next(v, ev)) <==> CollidesView(v, ev) || (StormView(v) && !(ev.HostReads? && SkipsView(v)))
  {
    hide Agreed, StormView, CollidesView, SkipsView, HostRead, Requested, Ended, ProxyRead, Responded;
    CollidesOnly(v, ev);
    match ev
    case HostReads(behind) => StormByReading(v, behind);
    case ProxyReads => StormByProxy(v);
    case WriteEnds => StormByEnds(v);
    case _ => StormByRequests(v);
  }

  const ROUND: seq<Event> := [WriteEnds, ProxyReads, HostReads(false)] + [WriteEnds, ProxyReads, HostReads(false)]

  /** Announcement, reset, and announcement again: a round leads back to where it started. */
  lemma RoundRepeats(v: View)
    requires v.pstate == ITransmitPrep && On(v, One(KWill), One(KAckWant)) && AskedFree(v) && v.waiting > 0
    ensures RunOf(v, ROUND) == v
  {
    hide RunOf;
    var half := [WriteEnds, ProxyReads, HostReads(false)];
    RunOfThree(v, WriteEnds, ProxyReads, HostReads(false));
    var v' := RunOf(v, half);
    assert v' == v.(pstate := IReset, toProxy := One(KReset), toHost := One(KAck), may := false, pending := false);
    RunOfThree(v', WriteEnds, ProxyReads, HostReads(false));
    RunSplits(v, half, half);
  }

  // ---- all can be replied to ----

  predicate DoneView(v: View) {
    QuietView(v) && v.pstate == Idle && v.queue == 0 && v.outside == 0
  }

  /** The end of the last write is awaited. */
  predicate Writing(v: View) {
    v.pstate in {IWelcome, IIdle, ITransmitPrep, ITransmitting, IReceiving, IReset}
  }

  /** An order in which all is done that has to be, if nothing is lost. */
  function Scheduled(v: View): Event {
    if SkipsView(v) then HostReads(false)
    else if !v.toProxy.Empty? then ProxyReads
    else if Writing(v) then WriteEnds
    else if !v.toHost.Empty? then HostReads(true)
    else if v.queue == 0 then Answer(0)
    else ClientSends // only a request gets the responses left over moving
  }

  /** Responses are or will be left over. */
  predicate LeftView(v: View) {
    StalledView(v) || (v.queue > 1 && (v.toHost == One(KLast) || (v.sending && !v.toProxy.Empty? && !v.toProxy.Jam? && v.toProxy.k == KAck)))
  }

  function Level(v: View): nat {
    (if WaitsView(v) then 2 else 0) + if LeftView(v) then 1 else 0
  }

  function KindRank(k: Kind, toProxy: bool): nat {
    match k
    case KWelcome => if toProxy then 1 else 4
    case KAck => 1
    case KWant => 5
    case KAckWant => 2
    case KMore => 1
    case KWill => 2
    case KSend => 2
    case KReset => 3
    case KPacket => 4
    case _ => 0
  }

  function LineRank(l: Line, toProxy: bool): nat {
    match l
    case One(a) => KindRank(a, toProxy)
    case Two(a, b) => KindRank(a, toProxy) + KindRank(b, toProxy)
    case Three(a, b, c) => KindRank(a, toProxy) + KindRank(b, toProxy) + KindRank(c, toProxy)
    case _ => 0
  }

  function StateRank(v: View): nat {
    match v.pstate
    case Initial => 14
    case IWelcome => 15
    case IIdle => 13
    case Idle => 11
    case ITransmitPrep => 10
    case TransmitPrep => 9
    case ITransmitting => 13
    case Transmitting => 12
    case IReceiving => 2
    case Receiving => 1
    case IReset => 6
    case Reset => if StormReset(v) then 12 else 4
  }

  function Rank(v: View): nat {
    StateRank(v) + LineRank(v.toProxy, true) + LineRank(v.toHost, false)
  }

  /** `v` is nearer to its end than `from`. */
  predicate Nearer(v: View, from: View) {
    if Level(v) != Level(from) then Level(v) < Level(from)
    else if Unanswered(v) != Unanswered(from) then Unanswered(v) < Unanswered(from)
    else if Unreplied(v) != Unreplied(from) then Unreplied(v) < Unreplied(from)
    else if v.waiting != from.waiting then v.waiting < from.waiting
    else Rank(v) < Rank(from)
  }

  lemma UnrepliedIs(v: View)
    requires Agreed(v)
    ensures Unreplied(v) >= Unanswered(v)
  {
  }

  lemma SkipAdvances(v: View)
    requires Agreed(v) && SkipsView(v)
    ensures Nearer(HostRead(v, false), v)
  {
  }

  lemma ProxyAdvances(v: View)
    requires Agreed(v) && !SkipsView(v) && !v.toProxy.Empty?
    ensures Nearer(ProxyRead(v), v)
  {
    hide Nearer, ProxyRead;
    match v.pstate
    case ITransmitPrep => ProxyAdvancesAnnounced(v);
    case TransmitPrep => ProxyAdvancesAnnounced(v);
    case IReset => ProxyAdvancesReset(v);
    case Reset => ProxyAdvancesReset(v);
    case ITransmitting => ProxyAdvancesTransmitting(v);
    case Transmitting => ProxyAdvancesTransmitting(v);
    case IReceiving => ProxyAdvancesReceiving(v);
    case Receiving => ProxyAdvancesReceiving(v);
    case _ => ProxyAdvancesRest(v);
  }

  lemma ProxyAdvancesAnnounced(v: View)
    requires Agreed(v) && !v.toProxy.Empty? && v.pstate in {ITransmitPrep, TransmitPrep}
    ensures Nearer(ProxyRead(v), v)
  {
    hide Nearer, ProxyRead;
    if v.toProxy.One? { LastAdvancesAnnounced(v); } else { FirstAdvancesAnnounced(v); }
  }

  lemma LastAdvancesAnnounced(v: View)
    requires Agreed(v) && v.toProxy.One? && v.pstate in {ITransmitPrep, TransmitPrep}
    ensures Nearer(ProxyRead(v), v)
  {
  }

  lemma FirstAdvancesAnnounced(v: View)
    requires Agreed(v) && !v.toProxy.Empty? && !v.toProxy.One? && v.pstate in {ITransmitPrep, TransmitPrep}
    ensures Nearer(ProxyRead(v), v)
  {
  }

  lemma ProxyAdvancesReset(v: View)
    requires Agreed(v) && !SkipsView(v) && !v.toProxy.Empty? && v.pstate in {IReset, Reset}
    ensures Nearer(ProxyRead(v), v)
  {
  }

  lemma ProxyAdvancesTransmitting(v: View)
    requires Agreed(v) && !v.toProxy.Empty? && v.pstate in {ITransmitting, Transmitting}
    ensures Nearer(ProxyRead(v), v)
  {
    hide Nearer, ProxyRead;
    if v.toProxy.One? { PacketAdvances(v); } else { WillAdvances(v); }
  }

  lemma PacketAdvances(v: View)
    requires Agreed(v) && v.toProxy.One? && v.pstate in {ITransmitting, Transmitting}
    ensures Nearer(ProxyRead(v), v)
  {
  }

  lemma WillAdvances(v: View)
    requires Agreed(v) && !v.toProxy.Empty? && !v.toProxy.One? && v.pstate in {ITransmitting, Transmitting}
    ensures Nearer(ProxyRead(v), v)
  {
  }

  lemma ProxyAdvancesRest(v: View)
    requires Agreed(v) && !v.toProxy.Empty? && v.pstate in {Initial, IWelcome, IIdle, Idle}
    ensures Nearer(ProxyRead(v), v)
  {
  }

  lemma ProxyAdvancesReceiving(v: View)
    requires Agreed(v) && !v.toProxy.Empty? && v.pstate in {IReceiving, Receiving}
    ensures Nearer(ProxyRead(v), v)
  {
  }

  lemma EndAdvances(v: View)
    requires Agreed(v) && v.toProxy.Empty? && Writing(v)
    requires !SkipsView(v) && !StuckView(v)
    ensures Nearer(Ended(v), v)
  {
  }

  lemma ReadAdvances(v: View)
    requires Agreed(v) && v.toProxy.Empty? && !Writing(v)
    requires !v.toHost.Empty?
    ensures Nearer(HostRead(v, true), v)
  {
    hide Nearer, HostRead;
    match v.pstate
    case TransmitPrep => ReadAdvancesAnnounced(v);
    case Transmitting => ReadAdvancesTransmitting(v);
    case Receiving => ReadAdvancesReceiving(v);
    case _ => ReadAdvancesRest(v);
  }

  lemma ReadAdvancesAnnounced(v: View)
    requires Agreed(v) && v.toProxy.Empty? && v.pstate == TransmitPrep && !v.toHost.Empty?
    ensures Nearer(HostRead(v, true), v)
  {
  }

  lemma ReadAdvancesTransmitting(v: View)
    requires Agreed(v) && v.toProxy.Empty? && v.pstate == Transmitting && !v.toHost.Empty?
    ensures Nearer(HostRead(v, true), v)
  {
  }

  lemma ReadAdvancesRest(v: View)
    requires Agreed(v) && v.toProxy.Empty? && v.pstate in {Initial, Idle, Reset} && !v.toHost.Empty?
    ensures Nearer(HostRead(v, true), v)
  {
  }

  lemma ReadAdvancesReceiving(v: View)
    requires Agreed(v) && v.toProxy.Empty? && v.pstate == Receiving && !v.toHost.Empty?
    ensures Nearer(HostRead(v, true), v)
  {
  }

  lemma RestAdvances(v: View)
    requires Agreed(v) && QuietView(v) && !Writing(v)
    requires !StuckView(v) && !DoneView(v)
    ensures if v.queue == 0 then v.outside > 0 && Nearer(Responded(v), v) else Nearer(Requested(v), v)
  {
  }

  lemma ScheduledAdvances(v: View)
    requires Agreed(v) && !StuckView(v) && !DoneView(v)
    ensures Nearer(Next(v, Scheduled(v)), v) && (Scheduled(v).Answer? ==> v.outside > 0)
  {
    hide Agreed, StuckView, SkipsView, DoneView, Nearer, HostRead, Requested, Ended, ProxyRead, Responded;
    match Scheduled(v)
    case HostReads(behind) => if behind { ReadAdvances(v); } else { SkipAdvances(v); }
    case ProxyReads => ProxyAdvances(v);
    case WriteEnds => EndAdvances(v);
    case _ => RestAdvances(v);
  }

  /** In this order nothing is lost. */
  lemma ScheduledLosesNothing(v: View)
    requires Agreed(v)
    ensures Scheduled(v).HostReads? ==> !LastAckView(v, Scheduled(v).behind)
  {
  }

  lemma DoneIs(v: View)
    requires Agreed(v) && DoneView(v)
    ensures Unreplied(v) == 0
    ensures v.spare > 1 ==> !QuietView(Next(v, ClientSends))
  {
  }

  // ---- examples ----

  const STARTED := View(Initial, 0, MAX_REQUEST_COUNT, Empty, One(KWelcome), false, false, false, 0, 0, 0)

  /** The proxies get to know each other. */
  const WELCOMED: seq<Event> := [HostReads(false), WriteEnds, WriteEnds] + [ProxyReads, ProxyReads]

  const IDLE := STARTED.(pstate := Idle, toHost := Empty, may := true)

  /** No ACK is read before the end of the write it answers. */
  predicate PromptOf(v: View, evs: seq<Event>)
    decreases |evs|
  {
    evs == [] || (!(evs[0].HostReads? && EarlyView(v)) && PromptOf(Next(v, evs[0]), evs[1..]))
  }

  predicate Leads(v: View, evs: seq<Event>, v': View) {
    RunOf(v, evs) == v' && PromptOf(v, evs)
  }

  lemma {:induction false} LeadsOn(v: View, evs: seq<Event>, v': View, more: seq<Event>, v'': View)
    requires Leads(v, evs, v') && Leads(v', more, v'')
    ensures Leads(v, evs + more, v'')
    decreases |evs|
  {
    hide Next, EarlyView;
    if evs == [] {
      assert evs + more == more;
    } else {
      assert (evs + more)[1..] == evs[1..] + more;
      LeadsOn(Next(v, evs[0]), evs[1..], v', more, v'');
    }
  }

  lemma LeadsThree(v: View, a: Event, b: Event, c: Event)
    requires !(a.HostReads? && EarlyView(v)) && !(b.HostReads? && EarlyView(Next(v, a))) && !(c.HostReads? && EarlyView(Next(Next(v, a), b)))
    ensures Leads(v, [a, b, c], Next(Next(Next(v, a), b), c)) && Leads(v, [a, b], Next(Next(v, a), b))
  {
    hide RunOf, Next, EarlyView;
    RunOfThree(v, a, b, c);
    assert [a, b, c][1..] == [b, c] && [b, c][1..] == [c] && [c][1..] == [] && [a, b][1..] == [b] && [b][1..] == [];
    assert PromptOf(Next(Next(v, a), b), [c]);
    assert PromptOf(Next(v, a), [b, c]) && PromptOf(Next(v, a), [b]);
  }

  lemma Welcomes()
    ensures Leads(STARTED, WELCOMED, IDLE)
  {
    hide RunOf, PromptOf, Leads;
    var v := STARTED.(pstate := Idle, toProxy := Two(KWelcome, KAck), toHost := Empty);
    LeadsThree(STARTED, HostReads(false), WriteEnds, WriteEnds);
    LeadsThree(v, ProxyReads, ProxyReads, ProxyReads);
    LeadsOn(STARTED, [HostReads(false), WriteEnds, WriteEnds], v, [ProxyReads, ProxyReads], IDLE);
  }

  /** The answer to an announcement is read before the announcing write has ended. */
  const ANNOUNCE_EARLY: seq<Event> := [ClientSends, ProxyReads, HostReads(false)]

  lemma AnnouncementLost()
    ensures StuckView(RunOf(IDLE, ANNOUNCE_EARLY))
  {
    hide RunOf;
    RunOfThree(IDLE, ClientSends, ProxyReads, HostReads(false));
  }

  /** The acknowledgement of a packet and a WANT-SEND are read before the packet's write has ended. */
  const PACKET_EARLY: seq<Event> := [ClientSends, WriteEnds, ProxyReads] + [HostReads(false), ProxyReads, Answer(0)] + [HostReads(true)]

  const ASKING := IDLE.(pstate := ITransmitting, spare := MAX_REQUEST_COUNT - 1, toHost := Two(KAck, KWant), pending := true, queue := 1)

  lemma PacketAnswered()
    ensures RunOf(IDLE, [ClientSends, WriteEnds, ProxyReads] + [HostReads(false), ProxyReads, Answer(0)]) == ASKING
  {
    hide RunOf;
    var v := IDLE.(pstate := TransmitPrep, waiting := 1, spare := MAX_REQUEST_COUNT - 1, toHost := One(KAck), may := false);
    assert RunOf(IDLE, [ClientSends, WriteEnds, ProxyReads]) == v by { RunOfThree(IDLE, ClientSends, WriteEnds, ProxyReads); }
    assert RunOf(v, [HostReads(false), ProxyReads, Answer(0)]) == ASKING by { RunOfThree(v, HostReads(false), ProxyReads, Answer(0)); }
    RunSplits(IDLE, [ClientSends, WriteEnds, ProxyReads], [HostReads(false), ProxyReads, Answer(0)]);
  }

  lemma WantLost()
    ensures StuckView(RunOf(IDLE, PACKET_EARLY))
  {
    hide RunOf;
    PacketAnswered();
    RunOfOne(ASKING, HostReads(true));
    RunSplits(IDLE, [ClientSends, WriteEnds, ProxyReads] + [HostReads(false), ProxyReads, Answer(0)], [HostReads(true)]);
  }

  /** Two requests go out; while the first response is on its way, the second is given. */
  const TWO_SENT: seq<Event> :=
    [ClientSends, ClientSends, WriteEnds] + [ProxyReads, HostReads(false), WriteEnds] + [ProxyReads, HostReads(false), WriteEnds]
    + [ProxyReads, HostReads(false), WriteEnds]
  const LEAVING: seq<Event> :=
    [ProxyReads, HostReads(false), Answer(0)] + [HostReads(false), ProxyReads, Answer(0)] + [HostReads(false), ProxyReads]

  const BUSY := IDLE.(pstate := Transmitting, spare := MAX_REQUEST_COUNT - 2, toProxy := One(KPacket), may := false, outside := 1)

  lemma BothSent()
    ensures Leads(IDLE, TWO_SENT, BUSY)
  {
    hide RunOf, PromptOf, Leads;
    var v1 := IDLE.(pstate := TransmitPrep, waiting := 2, spare := MAX_REQUEST_COUNT - 2, toProxy := One(KWill));
    var v2 := v1.(pstate := Transmitting, waiting := 1, toProxy := One(KPacket), may := false);
    var v3 := v1.(waiting := 1, outside := 1);
    assert Leads(IDLE, [ClientSends, ClientSends, WriteEnds], v1) by { LeadsThree(IDLE, ClientSends, ClientSends, WriteEnds); }
    assert Leads(v1, [ProxyReads, HostReads(false), WriteEnds], v2) by { LeadsThree(v1, ProxyReads, HostReads(false), WriteEnds); }
    assert Leads(v2, [ProxyReads, HostReads(false), WriteEnds], v3) by { LeadsThree(v2, ProxyReads, HostReads(false), WriteEnds); }
    assert Leads(v3, [ProxyReads, HostReads(false), WriteEnds], BUSY) by { LeadsThree(v3, ProxyReads, HostReads(false), WriteEnds); }
    var step := [ProxyReads, HostReads(false), WriteEnds];
    LeadsOn(IDLE, [ClientSends, ClientSends, WriteEnds], v1, step, v2);
    LeadsOn(IDLE, [ClientSends, ClientSends, WriteEnds] + step, v2, step, v3);
    LeadsOn(IDLE, [ClientSends, ClientSends, WriteEnds] + step + step, v3, step, BUSY);
  }

  const LEFT := IDLE.(pstate := IIdle, spare := MAX_REQUEST_COUNT - 1, queue := 1)

  lemma OneIsLeft()
    ensures Leads(BUSY, LEAVING, LEFT)
  {
    hide RunOf, PromptOf, Leads;
    var v1 := IDLE.(spare := MAX_REQUEST_COUNT - 2, toHost := One(KWant), pending := true, queue := 1, outside := 1);
    var v2 := v1.(pstate := IReceiving, toHost := One(KLast), sending := true, queue := 2, outside := 0);
    var a, b, c := [ProxyReads, HostReads(false), Answer(0)], [HostReads(false), ProxyReads, Answer(0)], [HostReads(false), ProxyReads];
    assert Leads(BUSY, a, v1) by { LeadsThree(BUSY, ProxyReads, HostReads(false), Answer(0)); }
    assert Leads(v1, b, v2) by { LeadsThree(v1, HostReads(false), ProxyReads, Answer(0)); }
    assert Leads(v2, c, LEFT) by { LeadsThree(v2, HostReads(false), ProxyReads, ProxyReads); }
    LeadsOn(BUSY, a, v1, b, v2);
    LeadsOn(BUSY, a + b, v2, c, LEFT);
  }

  /** Three requests; the first is answered just when the second is announced. */
  const ANNOUNCED_TWICE: seq<Event> :=
    [ClientSends, ClientSends, ClientSends] + [WriteEnds, ProxyReads, HostReads(false)] + [WriteEnds, ProxyReads, HostReads(false)]
    + [WriteEnds, Answer(0), ProxyReads]
  const COLLIDING: seq<Event> := [HostReads(false), WriteEnds, ProxyReads] + [HostReads(false), WriteEnds, HostReads(false)]

  const ANSWERED := IDLE.(pstate := TransmitPrep, waiting := 2, spare := MAX_REQUEST_COUNT - 3, toHost := Two(KWant, KAck), may := false, queue := 1)

  lemma AnsweredMeanwhile()
    ensures Leads(IDLE, ANNOUNCED_TWICE, ANSWERED)
  {
    hide RunOf, PromptOf, Leads;
    var v1 := IDLE.(pstate := ITransmitPrep, waiting := 3, spare := MAX_REQUEST_COUNT - 3, toProxy := One(KWill));
    var v2 := v1.(pstate := ITransmitting, waiting := 2, toProxy := One(KPacket), may := false);
    var v3 := v1.(waiting := 2, outside := 1);
    var step := [WriteEnds, ProxyReads, HostReads(false)];
    assert Leads(IDLE, [ClientSends, ClientSends, ClientSends], v1) by { LeadsThree(IDLE, ClientSends, ClientSends, ClientSends); }
    assert Leads(v1, step, v2) by { LeadsThree(v1, WriteEnds, ProxyReads, HostReads(false)); }
    assert Leads(v2, step, v3) by { LeadsThree(v2, WriteEnds, ProxyReads, HostReads(false)); }
    assert Leads(v3, [WriteEnds, Answer(0), ProxyReads], ANSWERED) by { LeadsThree(v3, WriteEnds, Answer(0), ProxyReads); }
    LeadsOn(IDLE, [ClientSends, ClientSends, ClientSends], v1, step, v2);
    LeadsOn(IDLE, [ClientSends, ClientSends, ClientSends] + step, v2, step, v3);
    LeadsOn(IDLE, [ClientSends, ClientSends, ClientSends] + step + step, v3, [WriteEnds, Answer(0), ProxyReads], ANSWERED);
  }

  const COLLIDED := ANSWERED.(pstate := ITransmitPrep, waiting := 1, toProxy := Two(KPacket, KWill), toHost := Empty)

  lemma TheyCollide()
    ensures Leads(ANSWERED, COLLIDING, COLLIDED)
  {
    hide RunOf, PromptOf, Leads;
    var v := ANSWERED.(toHost := Two(KAck, KAck));
    var a, b := [HostReads(false), WriteEnds, ProxyReads], [HostReads(false), WriteEnds, HostReads(false)];
    assert Leads(ANSWERED, a, v) by { LeadsThree(ANSWERED, HostReads(false), WriteEnds, ProxyReads); }
    assert Leads(v, b, COLLIDED) by { LeadsThree(v, HostReads(false), WriteEnds, HostReads(false)); }
    LeadsOn(ANSWERED, a, v, b, COLLIDED);
  }

  /** From the start of the connection: responses left over, and resets without end. */
  lemma TheyHappen()
    ensures Leads(STARTED, WELCOMED + TWO_SENT + LEAVING, LEFT) && StalledView(LEFT)
    ensures Leads(STARTED, WELCOMED + ANNOUNCED_TWICE + COLLIDING, COLLIDED) && StormView(COLLIDED)
  {
    hide RunOf, PromptOf, Leads;
    Welcomes();
    BothSent();
    OneIsLeft();
    AnsweredMeanwhile();
    TheyCollide();
    LeadsOn(STARTED, WELCOMED, IDLE, TWO_SENT, BUSY);
    LeadsOn(STARTED, WELCOMED + TWO_SENT, BUSY, LEAVING, LEFT);
    LeadsOn(STARTED, WELCOMED, IDLE, ANNOUNCED_TWICE, ANSWERED);
    LeadsOn(STARTED, WELCOMED + ANNOUNCED_TWICE, ANSWERED, COLLIDING, COLLIDED);
  }

  lemma TheyCanBeStuck()
    ensures StuckView(RunOf(STARTED, WELCOMED + ANNOUNCE_EARLY)) && StuckView(RunOf(STARTED, WELCOMED + PACKET_EARLY))
  {
    hide RunOf, PromptOf;
    Welcomes();
    AnnouncementLost();
    WantLost();
    RunSplits(STARTED, WELCOMED, ANNOUNCE_EARLY);
    RunSplits(STARTED, WELCOMED, PACKET_EARLY);
  }
}
