/**
 The two proxies connected by a line in each direction. Clients send requests, programs outside
 answer them, and the proxies read and write at any time: all these steps interleave freely.
 */
module ProxyLink {
  import opened Bytes
  import opened ProxyEngine
  import opened InsideProxy
  import opened LinkTable

  /**
   Both proxies, the records on the way in both directions, and the requests outside that have no
   response yet. History: the request each response answers.
   */
  datatype Link = Link(inside: Inside, engine: Engine, toProxy: seq<Write>, toHost: seq<Entry>,
                       outside: seq<Job>, answered: seq<Job>)

  datatype Event =
    | ClientSends             // a client sends a request to the inside proxy
    | WriteEnds               // the end of a write of the inside proxy
    | HostReads(behind: bool) // the inside proxy reads a record, or an ACK and a WANT-SEND right behind it
    | ProxyReads              // the outside proxy reads a record
    | Answer(i: nat)          // a program outside answers one of its requests

  /** The outside proxy has just dialed. */
  function Start(): Link {
    Link(Started(), Dialed(INITIAL), [], [Welcome], [], [])
  }

  function RecordOf(w: Write): Input {
    match w
    case Control(h) => Record(ProxyPos, true, h)
    case Packet(_) => Record(ProxyPos, false, HostOther)
  }

  /** What the outside proxy writes in a step. */
  function Sent(e: Engine, i: Input): seq<Entry> {
    var e' := ProxyEngine.Step(e, i);
    var added := if |e.log| <= |e'.log| then e'.log[|e.log|..] else [];
    if added != [] && added[0] == FromHost then added[1..] else added
  }

  /** The inside proxy has moved on. */
  function Moved(l: Link, s: Inside): Link {
    l.(inside := s, toProxy := l.toProxy + if |l.inside.out| <= |s.out| then s.out[|l.inside.out|..] else [])
  }

  /** The slot a response names. */
  function SlotOf(l: Link, t: Entry): nat {
    if t.Data? && t.no < |l.answered| then l.answered[t.no].slot else 0
  }

  predicate Together(l: Link) {
    |l.toHost| > 1 && l.toHost[0].Ack? && l.toHost[1].WantSend?
  }

  predicate Ready(l: Link) {
    WellFormed(l.inside) && (l.toHost != [] ==> CanRead(l.inside, l.toHost[0]))
  }

  function Step(l: Link, ev: Event): Link
    requires Ready(l)
  {
    match ev
    case ClientSends => Moved(l, Accept(l.inside))
    case WriteEnds => Moved(l, Written(l.inside))
    case HostReads(behind) =>
      if l.toHost == [] then l
      else
        var both := behind && Together(l);
        Moved(l.(toHost := l.toHost[if both then 2 else 1..]), Received(l.inside, l.toHost[0], both, SlotOf(l, l.toHost[0])))
    case ProxyReads =>
      if l.toProxy == [] then l
      else
        var w := l.toProxy[0];
        l.(engine := ProxyEngine.Step(l.engine, RecordOf(w)), toProxy := l.toProxy[1..],
           toHost := l.toHost + Sent(l.engine, RecordOf(w)), outside := if w.Packet? then l.outside + [w.job] else l.outside)
    case Answer(i) =>
      if i >= |l.outside| then l
      else
        l.(engine := ProxyEngine.Step(l.engine, Respond), toHost := l.toHost + Sent(l.engine, Respond),
           outside := l.outside[..i] + l.outside[i + 1..], answered := l.answered + [l.outside[i]])
  }

  // ---- the link and the table ----

  function KindOf(t: Entry): Kind {
    match t
    case Ack => KAck
    case WantSend(_) => KWant
    case AckWantSend(_) => KAckWant
    case Welcome => KWelcome
    case Data(_, more) => if more then KMore else KLast
    case FromHost => KOther
  }

  function KindOfWrite(w: Write): Kind {
    match w
    case Packet(_) => KPacket
    case Control(h) =>
      match h
      case HostWelcome => KWelcome
      case HostWillSend => KWill
      case HostAck => KAck
      case HostSendPacket => KSend
      case HostReset => KReset
      case _ => KOther
  }

  function LineOf(kinds: seq<Kind>): Line {
    if |kinds| == 0 then Empty
    else if |kinds| == 1 then One(kinds[0])
    else if |kinds| == 2 then Two(kinds[0], kinds[1])
    else if |kinds| == 3 then Three(kinds[0], kinds[1], kinds[2])
    else Jam
  }

  function ToHostLine(s: seq<Entry>): Line {
    LineOf(seq(|s|, i requires 0 <= i < |s| => KindOf(s[i])))
  }

  function ToProxyLine(s: seq<Write>): Line {
    LineOf(seq(|s|, i requires 0 <= i < |s| => KindOfWrite(s[i])))
  }

  lemma LinePushed(s: seq<Kind>, k: Kind)
    ensures LineOf(s + [k]) == Push(LineOf(s), k)
  {
  }

  lemma LinePopped(s: seq<Kind>)
    requires s != [] && !LineOf(s).Jam?
    ensures LineOf(s[1..]) == Pop(LineOf(s)) && !LineOf(s).Empty? && LineOf(s).k == s[0]
  {
  }

  lemma HostPushed(s: seq<Entry>, t: Entry)
    ensures ToHostLine(s + [t]) == Push(ToHostLine(s), KindOf(t)) && ToHostLine(s + []) == ToHostLine(s)
  {
    var kinds, longer := seq(|s|, i requires 0 <= i < |s| => KindOf(s[i])), s + [t];
    LinePushed(kinds, KindOf(t));
    assert seq(|longer|, i requires 0 <= i < |longer| => KindOf(longer[i])) == kinds + [KindOf(t)];
    assert s + [] == s;
  }

  lemma ProxyPushed(s: seq<Write>, w: Write)
    ensures ToProxyLine(s + [w]) == Push(ToProxyLine(s), KindOfWrite(w)) && ToProxyLine(s + []) == ToProxyLine(s)
  {
    var kinds, longer := seq(|s|, i requires 0 <= i < |s| => KindOfWrite(s[i])), s + [w];
    LinePushed(kinds, KindOfWrite(w));
    assert seq(|longer|, i requires 0 <= i < |longer| => KindOfWrite(longer[i])) == kinds + [KindOfWrite(w)];
    assert s + [] == s;
  }

  lemma HostPopped(s: seq<Entry>)
    requires s != [] && !ToHostLine(s).Jam?
    ensures ToHostLine(s[1..]) == Pop(ToHostLine(s)) && !ToHostLine(s).Empty? && ToHostLine(s).k == KindOf(s[0])
  {
    var kinds := seq(|s|, i requires 0 <= i < |s| => KindOf(s[i]));
    LinePopped(kinds);
    assert seq(|s[1..]|, i requires 0 <= i < |s[1..]| => KindOf(s[1..][i])) == kinds[1..];
  }

  lemma ProxyPopped(s: seq<Write>)
    requires s != [] && !ToProxyLine(s).Jam?
    ensures ToProxyLine(s[1..]) == Pop(ToProxyLine(s)) && !ToProxyLine(s).Empty? && ToProxyLine(s).k == KindOfWrite(s[0])
  {
    var kinds := seq(|s|, i requires 0 <= i < |s| => KindOfWrite(s[i]));
    LinePopped(kinds);
    assert seq(|s[1..]|, i requires 0 <= i < |s[1..]| => KindOfWrite(s[1..][i])) == kinds[1..];
  }

  function ViewOf(l: Link): View {
    var e := l.engine;
    View(l.inside.pstate, |l.inside.waiting|, |l.inside.free|, ToProxyLine(l.toProxy), ToHostLine(l.toHost),
         e.sending, e.mayRequestSend, e.pendingRequestSend, |e.queue|, |l.inside.replies| - |e.finished|, |l.outside|)
  }

  /** The inside proxy has moved on and written nothing. */
  lemma MovedSilently(l: Link, s: Inside)
    requires s.out == l.inside.out
    ensures ViewOf(Moved(l, s)) == ViewOf(l).(pstate := s.pstate, waiting := |s.waiting|, spare := |s.free|, lead := |s.replies| - |l.engine.finished|)
  {
    hide ToProxyLine, ToHostLine;
    assert s.out[|l.inside.out|..] == [];
    ProxyPushed(l.toProxy, Control(HostOther));
  }

  /** It has written one record. */
  lemma MovedTelling(l: Link, s: Inside, w: Write)
    requires s.out == l.inside.out + [w]
    ensures ViewOf(Moved(l, s)) == ViewOf(l).(pstate := s.pstate, waiting := |s.waiting|, spare := |s.free|, lead := |s.replies| - |l.engine.finished|,
                                              toProxy := Push(ToProxyLine(l.toProxy), KindOfWrite(w)))
    ensures Moved(l, s).toProxy == l.toProxy + [w]
  {
    hide ToProxyLine, ToHostLine;
    assert s.out[|l.inside.out|..] == [w];
    ProxyPushed(l.toProxy, w);
  }

  /** It has entered a state with a handshake. */
  lemma Entered(l: Link, s: Inside, p: PState, h: Handshake)
    requires s.out == l.inside.out
    ensures var l' := Moved(l, Enter(s, p, h));
            && ViewOf(l') == Tell(ViewOf(l).(waiting := |s.waiting|, spare := |s.free|, lead := |s.replies| - |l.engine.finished|), p, KindOfWrite(Control(h)))
            && l'.toProxy == l.toProxy + [Control(h)]
  {
    hide ToProxyLine, ToHostLine;
    MovedTelling(l, Enter(s, p, h), Control(h));
  }

  lemma ClientSendsView(l: Link)
    requires Ready(l)
    ensures ViewOf(Step(l, ClientSends)) == Requested(ViewOf(l))
  {
    hide ToProxyLine, ToHostLine, Moved;
    var s := l.inside;
    if |s.free| <= 1 || s.pstate != Idle {
      MovedSilently(l, Accept(s));
    } else {
      Entered(l, Accept(s.(pstate := IIdle)).(pstate := Idle), ITransmitPrep, HostWillSend);
    }
  }

  lemma WriteEndsView(l: Link)
    requires Ready(l)
    ensures ViewOf(Step(l, WriteEnds)) == Ended(ViewOf(l))
  {
    hide ToProxyLine, ToHostLine, Moved;
    var s := l.inside;
    if s.pstate == IIdle && s.waiting != [] {
      Entered(l, s, ITransmitPrep, HostWillSend);
    } else if s.pstate == IWelcome {
      Entered(l, s, IIdle, HostAck);
    } else {
      MovedSilently(l, Written(s));
    }
  }

  /** Without the record read. */
  function Popped(l: Link, both: bool): Link
    requires l.toHost != [] && (both ==> Together(l))
  {
    l.(toHost := l.toHost[if both then 2 else 1..])
  }

  lemma PoppedView(l: Link, both: bool)
    requires l.toHost != [] && !ToHostLine(l.toHost).Jam? && (both ==> Together(l))
    ensures var line := ToHostLine(l.toHost);
            && ViewOf(Popped(l, both)) == ViewOf(l).(toHost := if both then Pop(Pop(line)) else Pop(line))
            && !line.Empty? && line.k == KindOf(l.toHost[0])
  {
    HostPopped(l.toHost);
    if both {
      HostPopped(l.toHost[1..]);
      assert l.toHost[1..][1..] == l.toHost[2..];
    }
  }

  lemma TogetherIs(l: Link)
    requires !ToHostLine(l.toHost).Jam?
    ensures Together(l) <==> BothThere(ToHostLine(l.toHost))
  {
  }

  /** Data names a slot. */
  predicate SlotsNamed(l: Link) {
    l.toHost != [] ==> SlotOf(l, l.toHost[0]) < MAX_REQUEST_COUNT
  }

  lemma HostReadsView(l: Link, behind: bool)
    requires Ready(l) && SlotsNamed(l) && !ToHostLine(l.toHost).Jam?
    ensures ViewOf(Step(l, HostReads(behind))) == HostRead(ViewOf(l), behind)
  {
    hide ToProxyLine, Moved;
    if l.toHost != [] {
      var both := behind && Together(l);
      TogetherIs(l);
      PoppedView(l, both);
      hide ToHostLine;
      ReceivedView(l, Popped(l, both), l.toHost[0], both, SlotOf(l, l.toHost[0]));
    }
  }

  /** A record was taken off the line. */
  predicate TakenOff(l: Link, l': Link, t: Entry, both: bool) {
    && l'.inside == l.inside && l'.engine == l.engine && l'.toProxy == l.toProxy && |l'.outside| == |l.outside|
    && var line := ToHostLine(l.toHost);
    && !line.Empty? && !line.Jam? && line.k == KindOf(t) && (both ==> BothThere(line))
    && ToHostLine(l'.toHost) == if both then Pop(Pop(line)) else Pop(line)
  }

  lemma WritesOne(s: Inside, t: Entry, both: bool, slot: nat)
    requires WellFormed(s) && CanRead(s, t)
    ensures var s' := Received(s, t, both, slot);
            s'.out == s.out || (|s'.out| == |s.out| + 1 && s'.out == s.out + [s'.out[|s.out|]])
  {
  }

  lemma AckView(l: Link, l': Link, both: bool, slot: nat)
    requires WellFormed(l'.inside) && CanRead(l'.inside, Ack) && slot < MAX_REQUEST_COUNT && TakenOff(l, l', Ack, both)
    ensures ViewOf(Moved(l', Received(l'.inside, Ack, both, slot))) == HostRead(ViewOf(l), both)
  {
    hide ToProxyLine, ToHostLine, Moved, Pop, Push;
    var s, s' := l'.inside, Received(l'.inside, Ack, both, slot);
    WritesOne(s, Ack, both, slot);
    if s'.out == s.out {
      MovedSilently(l', s');
    } else {
      MovedTelling(l', s', s'.out[|s.out|]);
    }
  }

  /** What reading a record does to the inside proxy. */
  lemma ReceivedView(l: Link, l': Link, t: Entry, both: bool, slot: nat)
    requires WellFormed(l'.inside) && CanRead(l'.inside, t) && slot < MAX_REQUEST_COUNT && TakenOff(l, l', t, both)
    ensures ViewOf(Moved(l', Received(l'.inside, t, both, slot))) == HostRead(ViewOf(l), both)
  {
    hide ToProxyLine, ToHostLine, Moved, Pop, Push;
    if t.Ack? {
      AckView(l, l', both, slot);
    } else {
      var s, s' := l'.inside, Received(l'.inside, t, both, slot);
      WritesOne(s, t, both, slot);
      if s'.out == s.out {
        MovedSilently(l', s');
      } else {
        MovedTelling(l', s', s'.out[|s.out|]);
      }
    }
  }

  // ---- the outside proxy ----

  /** What it writes when it reads a record or has a response. */
  lemma SentIs(e: Engine, i: Input)
    requires i == Respond || (i.Record? && i.pos == ProxyPos)
    ensures var e' := ProxyEngine.Step(e, i); Sent(e, i) == if i == Respond then RespondSays(e) else Says(e, i)
  {
    var e' := ProxyEngine.Step(e, i);
    if i == Respond {
      assert e'.log == e.log + RespondSays(e);
      assert e'.log[|e.log|..] == RespondSays(e);
    } else {
      assert e'.log == e.log + ([FromHost] + Says(e, i)) by {
        StepSays(e, i);
      }
      assert e'.log[|e.log|..] == [FromHost] + Says(e, i);
      assert ([FromHost] + Says(e, i))[1..] == Says(e, i);
    }
  }

  function RespondSays(e: Engine): seq<Entry> {
    if e.queue == [] && e.mayRequestSend && !e.pendingRequestSend then [WantSend(e.sending)] else []
  }

  function Says(e: Engine, i: Input): seq<Entry>
    requires i.Record?
  {
    if !i.write then [if e.queue != [] then AckWantSend(false) else Ack]
    else
      match i.h
      case HostWillSend => [Ack]
      case HostSendPacket =>
        var q := if e.sending && e.queue != [] then e.queue[1..] else e.queue;
        if q == [] then [] else [Data(q[0], |q| > 1)]
      case HostReset => [if e.queue != [] then AckWantSend(false) else Ack]
      case HostOther => [Welcome]
      case _ => []
  }

  lemma StepSays(e: Engine, i: Input)
    requires i.Record? && i.pos == ProxyPos
    ensures ProxyEngine.Step(e, i).log == e.log + ([FromHost] + Says(e, i))
  {
    var log := e.log + [FromHost];
    assert e.log + ([FromHost] + Says(e, i)) == log + Says(e, i) && log + [] == log;
  }

  /** The outside proxy is what the view says. */
  predicate Shows(v: View, e: Engine) {
    v.sending == e.sending && v.may == e.mayRequestSend && v.pending == e.pendingRequestSend && v.queue == |e.queue|
  }

  /** The view after a record was read. */
  predicate ReadShows(v: View, v': View, e: Engine, i: Input)
    requires i.Record?
  {
    var e' := ProxyEngine.Step(e, i);
    var said := Says(e, i);
    && Shows(v', e') && v'.lead == v.lead + |e.finished| - |e'.finished|
    && |said| <= 1 && v'.toHost == (if said == [] then v.toHost else Push(v.toHost, KindOf(said[0])))
    && v'.pstate == v.pstate && v'.waiting == v.waiting && v'.spare == v.spare && v'.toProxy == Pop(v.toProxy)
    && v'.outside == v.outside + if i.write then 0 else 1
  }

  lemma EngineReads(e: Engine, w: Write, v: View)
    requires Shows(v, e) && !v.toProxy.Empty? && !v.toProxy.Jam? && v.toProxy.k == KindOfWrite(w) != KOther
    ensures ReadShows(v, ProxyRead(v), e, RecordOf(w))
  {
    hide Pop, Push;
    if w == Control(HostSendPacket) {
      EngineSends(e, v);
    }
  }

  lemma EngineSends(e: Engine, v: View)
    requires Shows(v, e) && !v.toProxy.Empty? && !v.toProxy.Jam? && v.toProxy.k == KSend
    ensures ReadShows(v, ProxyRead(v), e, RecordOf(Control(HostSendPacket)))
  {
    hide Pop, Push;
  }

  lemma ProxyReadsView(l: Link)
    requires Ready(l) && !ToProxyLine(l.toProxy).Jam?
    requires l.toProxy != [] ==> KindOfWrite(l.toProxy[0]) != KOther
    ensures ViewOf(Step(l, ProxyReads)) == ProxyRead(ViewOf(l))
  {
    hide KindOf, KindOfWrite, Says, ToHostLine, Sent, ProxyRead, ProxyEngine.Step, Push, Pop;
    if l.toProxy != [] {
      var i := RecordOf(l.toProxy[0]);
      ProxyPopped(l.toProxy);
      SentIs(l.engine, i);
      EngineReads(l.engine, l.toProxy[0], ViewOf(l));
      var said := Says(l.engine, i);
      HostPushed(l.toHost, if said == [] then Ack else said[0]);
      assert said == [] || said == [said[0]];
    } else {
      NothingRead(ViewOf(l));
    }
  }

  lemma NothingRead(v: View)
    requires v.toProxy.Empty?
    ensures ProxyRead(v) == v
  {
  }

  lemma AnswerView(l: Link, i: nat)
    requires Ready(l)
    ensures ViewOf(Step(l, Answer(i))) == if i < |l.outside| then Responded(ViewOf(l)) else ViewOf(l)
  {
    hide ToProxyLine, ToHostLine, Sent;
    SentIs(l.engine, Respond);
    HostPushed(l.toHost, WantSend(l.engine.sending));
  }
}
