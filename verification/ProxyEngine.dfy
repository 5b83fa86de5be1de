/**
 The handshake engine of the outside proxy, on values: its flags, the queue of responses, and
 logs of what was enqueued, transmitted and finished. Responses carry the number they got when enqueued.
 */
module ProxyEngine {
  import opened Bytes

  /** What the host tells with a handshake. */
  datatype Handshake = HostWelcome | HostWillSend | HostAck | HostSendPacket | HostReset | HostState | HostOther

  /** The handshake codes in the low half of the WCC byte. */
  function HandshakeOf(wcc: byte): Handshake {
    match wcc & 0x0F
    case 0x00 => HostWelcome
    case 0x0D => HostWelcome // the same, announcing binary transfer
    case 0x01 => HostWillSend
    case 0x04 => HostAck
    case 0x05 => HostSendPacket
    case 0x0F => HostReset
    case 0x0E => HostState
    case _ => HostOther
  }

  /** The screen position that starts a record: that of the proxy VM, that of some other program, or neither. */
  datatype Position = ProxyPos | ForeignPos | OtherPos

  datatype Input =
    | Record(pos: Position, write: bool, h: Handshake) // from the host; without `write` it is a data packet
    | Respond                                       // a pool thread hands over a response
    | Dial                                          // the proxy has (re-)connected

  /** Log entries: records taken in and what was written, with the state of `sending` when a want-send was written. */
  datatype Entry =
    | FromHost
    | WantSend(whileSending: bool)
    | Ack
    | AckWantSend(whileSending: bool)
    | Welcome
    | Data(no: nat, more: bool)

  datatype Engine = Engine(
    connected: bool, sending: bool, mayRequestSend: bool, pendingRequestSend: bool, lastWasWantSend: bool,
    queue: seq<nat>, enqueued: seq<nat>, finished: seq<nat>, transmitted: seq<nat>, log: seq<Entry>)

  const INITIAL := Engine(false, true, false, false, false, [], [], [], [], [])

  /** The engine after `dialToVm`, from where the queue claims start. */
  function Dialed(e: Engine): Engine {
    e.(sending := false, log := e.log + [Welcome])
  }

  function FinishFirst(e: Engine): Engine {
    if !e.sending || e.queue == [] then e
    else e.(queue := e.queue[1..], finished := e.finished + [e.queue[0]])
  }

  function SendFirst(e: Engine): Engine {
    if e.sending || e.queue == [] then e
    else e.(sending := true, transmitted := e.transmitted + [e.queue[0]], log := e.log + [Data(e.queue[0], |e.queue| > 1)])
  }

  function Enqueue(e: Engine): Engine {
    var no := |e.enqueued|;
    e.(queue := e.queue + [no], enqueued := e.enqueued + [no])
  }

  function HandleHandshake(e: Engine, h: Handshake): Engine {
    match h
    case HostWillSend =>
      e.(sending := false, mayRequestSend := false, pendingRequestSend := false, lastWasWantSend := false, log := e.log + [Ack])
    case HostAck =>
      FinishFirst(e).(sending := false, mayRequestSend := true, pendingRequestSend := false)
    case HostSendPacket =>
      SendFirst(FinishFirst(e).(sending := false))
    case HostWelcome =>
      e.(sending := false, mayRequestSend := false, pendingRequestSend := false)
    case HostReset =>
      e.(sending := false, mayRequestSend := true, pendingRequestSend := e.queue != [], lastWasWantSend := false,
         log := e.log + [if e.queue != [] then AckWantSend(false) else Ack])
    case HostState => e
    case HostOther => e.(sending := false, lastWasWantSend := false, log := e.log + [Welcome])
  }

  /** The acknowledge written for a data packet. */
  function HandlePacket(e: Engine): Engine {
    if e.queue != [] then
      e.(sending := false, pendingRequestSend := true, lastWasWantSend := true, mayRequestSend := false,
         log := e.log + [AckWantSend(false)])
    else
      e.(sending := false, pendingRequestSend := false, lastWasWantSend := false, mayRequestSend := true, log := e.log + [Ack])
  }

  /** A record is interpreted if the proxy VM is or becomes visible; a foreign screen ends the connection. */
  predicate Interpreted(e: Engine, pos: Position) {
    if e.connected then pos != ForeignPos else pos == ProxyPos
  }

  function Receive(e: Engine, pos: Position, write: bool, h: Handshake): Engine {
    var e' := e.(log := e.log + [FromHost]);
    if !Interpreted(e, pos) then e'
    else if write then HandleHandshake(e'.(connected := true), h)
    else HandlePacket(e'.(connected := true))
  }

  function SendResponse(e: Engine): Engine {
    var e' := Enqueue(e);
    if e.queue != [] then e'
    else if e.mayRequestSend && !e.pendingRequestSend then
      e'.(pendingRequestSend := true, lastWasWantSend := true, log := e.log + [WantSend(e.sending)])
    else e'
  }

  function Step(e: Engine, i: Input): Engine {
    match i
    case Record(pos, write, h) => Receive(e, pos, write, h)
    case Respond => SendResponse(e)
    case Dial => Dialed(e)
  }

  function Run(e: Engine, inputs: seq<Input>): Engine
    decreases |inputs|
  {
    if inputs == [] then e else Run(Step(e, inputs[0]), inputs[1..])
  }

  // ---- which records are interpreted ----

  /** A screen of some other program changes nothing; nor does anything before the proxy VM has shown itself. */
  lemma ForeignChangesNothing(e: Engine, pos: Position, write: bool, h: Handshake)
    requires pos == ForeignPos || (!e.connected && pos != ProxyPos)
    ensures Step(e, Record(pos, write, h)) == e.(log := e.log + [FromHost])
  {
  }

  /** The proxy VM shows itself with its own position, and from then on a record without one is as good. */
  lemma ProxyConnects(e: Engine, write: bool, h: Handshake)
    ensures Step(e, Record(ProxyPos, write, h)) == Step(e.(connected := true), Record(OtherPos, write, h))
    ensures Step(e, Record(ProxyPos, write, h)).connected
  {
  }

  // ---- conservation and order ----

  /** A sequence with adjacent repeats removed. */
  function Dedup(s: seq<nat>): seq<nat> {
    if |s| <= 1 then s
    else if s[|s| - 1] == s[|s| - 2] then Dedup(s[..|s| - 1])
    else Dedup(s[..|s| - 1]) + [s[|s| - 1]]
  }

  /** Everything enqueued is finished or waiting, in order. */
  predicate Conserved(e: Engine) {
    && e.enqueued == e.finished + e.queue
    && forall i :: 0 <= i < |e.enqueued| ==> e.enqueued[i] == i
  }

  /** Without repeats of the same head, the first `n` responses were transmitted, in order and without gaps. */
  predicate SentUpTo(e: Engine, n: nat) {
    && n <= |e.enqueued| && Dedup(e.transmitted) == e.enqueued[..n]
    && (n > 0 <==> e.transmitted != [])
    && (n > 0 ==> e.transmitted[|e.transmitted| - 1] == n - 1)
  }

  /** While sending, the queue head exists and is the last packet transmitted. */
  predicate Inv(e: Engine) {
    && Conserved(e)
    && (SentUpTo(e, |e.finished|) || SentUpTo(e, |e.finished| + 1))
    && (e.sending ==> e.queue != [] && SentUpTo(e, |e.finished| + 1))
  }

  lemma DedupSnoc(s: seq<nat>, x: nat)
    ensures Dedup(s + [x]) == if s != [] && s[|s| - 1] == x then Dedup(s) else Dedup(s) + [x]
  {
    var t := s + [x];
    assert t[..|t| - 1] == s;
    if s == [] {
      assert t == [x] && Dedup(s) + [x] == [x];
    }
  }

  lemma FinishKeeps(e: Engine)
    requires Inv(e)
    ensures Inv(FinishFirst(e).(sending := false))
    ensures FinishFirst(e).finished != e.finished ==>
              (e.sending && e.transmitted != [] && FinishFirst(e).finished == e.finished + [e.transmitted[|e.transmitted| - 1]])
  {
    var e' := FinishFirst(e);
    if e.sending {
      assert e.finished + e.queue == (e.finished + [e.queue[0]]) + e.queue[1..];
      assert SentUpTo(e', |e'.finished|);
    }
    assert forall n: nat :: SentUpTo(e', n) ==> SentUpTo(e'.(sending := false), n);
  }

  lemma SendKeeps(e: Engine)
    requires Inv(e) && !e.sending
    ensures Inv(SendFirst(e))
  {
    hide Dedup;
    if e.queue != [] {
      var e', n := SendFirst(e), |e.finished|;
      assert e.queue[0] == e.enqueued[n] == n;
      DedupSnoc(e.transmitted, n);
      assert e.enqueued[..n + 1] == e.enqueued[..n] + [n];
      assert SentUpTo(e', n + 1);
    }
  }

  lemma EnqueueKeeps(e: Engine)
    requires Inv(e)
    ensures Inv(Enqueue(e))
    ensures var e', n := Enqueue(e), |e.enqueued|;
            && e.enqueued <= e'.enqueued && e.queue <= e'.queue && n !in e.enqueued
            && |e'.enqueued| == n + 1 && |e'.queue| == |e.queue| + 1 && e'.enqueued[n] == e'.queue[|e.queue|] == n
  {
    var e', no := Enqueue(e), |e.enqueued|;
    assert e.finished + e.queue + [no] == e.finished + (e.queue + [no]);
    forall n: nat | SentUpTo(e, n)
      ensures SentUpTo(e', n)
    {
      assert e'.enqueued[..n] == e.enqueued[..n];
    }
  }

  /** Same queue, logs of responses and `sending` not newly set. */
  lemma FlagsKeep(e: Engine, e': Engine)
    requires Inv(e) && (e'.sending ==> e.sending)
    requires e'.queue == e.queue && e'.enqueued == e.enqueued && e'.finished == e.finished && e'.transmitted == e.transmitted
    ensures Inv(e')
  {
    assert forall n: nat :: SentUpTo(e, n) ==> SentUpTo(e', n);
  }

  lemma HandshakeKeeps(e: Engine, h: Handshake)
    requires Inv(e)
    ensures Inv(HandleHandshake(e, h))
  {
    var e' := HandleHandshake(e, h);
    if h == HostSendPacket {
      FinishKeeps(e);
      SendKeeps(FinishFirst(e).(sending := false));
    } else if h == HostAck {
      FinishKeeps(e);
      FlagsKeep(FinishFirst(e).(sending := false), e');
    } else {
      FlagsKeep(e, e');
    }
  }

  lemma StepKeeps(e: Engine, i: Input)
    requires Inv(e)
    ensures Inv(Step(e, i))
  {
    hide Dedup, Inv;
    match i
    case Record(pos, write, h) =>
      var e0 := e.(log := e.log + [FromHost]);
      var e1 := e0.(connected := true);
      FlagsKeep(e, e0);
      FlagsKeep(e, e1);
      HandshakeKeeps(e1, h);
      FlagsKeep(e1, HandlePacket(e1));
    case Respond =>
      EnqueueKeeps(e);
      FlagsKeep(Enqueue(e), SendResponse(e));
    case Dial =>
      FlagsKeep(e, Dialed(e));
  }

  /**
   In every run of receives, handshakes, responses and reconnects: the responses enqueued are the
   finished ones followed by the waiting ones; the transmissions follow the enqueue order without
   gaps; and nothing is finished that was not transmitted.
   */
  lemma {:induction false} RunsConserve(e: Engine, inputs: seq<Input>)
    requires Inv(e)
    ensures var e' := Run(e, inputs);
            && Inv(e') && e'.enqueued == e'.finished + e'.queue
            && Dedup(e'.transmitted) <= e'.enqueued && |e'.finished| <= |Dedup(e'.transmitted)| <= |e'.finished| + 1
            && e'.finished <= Dedup(e'.transmitted)
    decreases |inputs|
  {
    if inputs == [] {
      var n := |Dedup(e.transmitted)|;
      assert e.finished == e.enqueued[..|e.finished|];
    } else {
      StepKeeps(e, inputs[0]);
      RunsConserve(Step(e, inputs[0]), inputs[1..]);
    }
  }

  // ---- want-send handshakes ----

  /** A want-send was written and no record came from the host since. */
  predicate WantOpen(log: seq<Entry>) {
    log != [] &&
    (log[|log| - 1].WantSend? || (!log[|log| - 1].FromHost? && WantOpen(log[..|log| - 1])))
  }

  predicate WantsApart(log: seq<Entry>) {
    forall i, j :: 0 <= i < j < |log| && log[i].WantSend? && log[j].WantSend? ==>
      exists k :: i < k < j && log[k].FromHost?
  }

  predicate NotWhileSending(log: seq<Entry>) {
    forall i :: 0 <= i < |log| && (log[i].WantSend? || log[i].AckWantSend?) ==> !log[i].whileSending
  }

  predicate Wants(e: Engine) {
    && (WantOpen(e.log) ==> e.pendingRequestSend)
    && WantsApart(e.log) && NotWhileSending(e.log)
  }

  /** In a log without an open want-send, every want-send is followed by a record from the host. */
  lemma {:induction false} ClosedWants(log: seq<Entry>, i: nat)
    requires !WantOpen(log) && i < |log| && log[i].WantSend?
    ensures exists k :: i < k < |log| && log[k].FromHost?
  {
    var last := |log| - 1;
    if !log[last].FromHost? {
      ClosedWants(log[..last], i);
      var k :| i < k < last && log[..last][k].FromHost?;
      assert log[k].FromHost?;
    }
  }

  lemma LogGrows(log: seq<Entry>, x: Entry)
    requires WantsApart(log) && NotWhileSending(log)
    requires x.WantSend? ==> !WantOpen(log)
    requires x.WantSend? || x.AckWantSend? ==> !x.whileSending
    ensures WantsApart(log + [x]) && NotWhileSending(log + [x])
    ensures WantOpen(log + [x]) <==> x.WantSend? || (!x.FromHost? && WantOpen(log))
  {
    var log' := log + [x];
    assert log'[..|log|] == log;
    forall i, j | 0 <= i < j < |log'| && log'[i].WantSend? && log'[j].WantSend?
      ensures exists k :: i < k < j && log'[k].FromHost?
    {
      if j < |log| {
        var k :| i < k < j && log[k].FromHost?;
        assert log'[k].FromHost?;
      } else {
        ClosedWants(log, i);
        var k :| i < k < |log| && log[k].FromHost?;
        assert log'[k].FromHost?;
      }
    }
  }

  /** A freshly dialed connector meets both invariants. */
  lemma DialedStarts()
    ensures Inv(Dialed(INITIAL)) && Wants(Dialed(INITIAL))
  {
    var e := Dialed(INITIAL);
    assert e.transmitted == [] && e.enqueued == [] && e.finished == [] && e.queue == [] && !e.sending;
    assert SentUpTo(e, 0) by {
      assert Dedup([]) == [];
    }
    assert e.log == [Welcome];
    assert !WantOpen([]);
    assert [Welcome][..0] == [];
  }

  /** After a record from the host, at most one entry other than a want-send is written. */
  lemma ReplyKeepsWants(e: Engine, e': Engine, reply: Entry)
    requires Wants(e) && !WantOpen(e.log)
    requires e'.log == e.log || e'.log == e.log + [reply]
    requires !reply.WantSend? && (reply.AckWantSend? ==> !reply.whileSending)
    ensures Wants(e')
  {
    LogGrows(e.log, reply);
  }

  lemma HandshakeKeepsWants(e: Engine, h: Handshake)
    requires Wants(e) && !WantOpen(e.log)
    ensures Wants(HandleHandshake(e, h))
  {
    var e' := HandleHandshake(e, h);
    match h
    case HostSendPacket =>
      var e1 := FinishFirst(e).(sending := false);
      ReplyKeepsWants(e, e', if e1.queue == [] then Ack else Data(e1.queue[0], |e1.queue| > 1));
    case HostReset =>
      ReplyKeepsWants(e, e', if e.queue != [] then AckWantSend(false) else Ack);
    case HostWillSend =>
      ReplyKeepsWants(e, e', Ack);
    case _ =>
      ReplyKeepsWants(e, e', Welcome);
  }

  lemma StepKeepsWants(e: Engine, i: Input)
    requires Inv(e) && Wants(e)
    ensures Wants(Step(e, i))
  {
    match i
    case Record(pos, write, h) =>
      LogGrows(e.log, FromHost);
      var e1 := e.(log := e.log + [FromHost], connected := true);
      HandshakeKeepsWants(e1, h);
      ReplyKeepsWants(e1, HandlePacket(e1), if e.queue != [] then AckWantSend(false) else Ack);
    case Respond =>
      if SendResponse(e).log != e.log {
        assert !e.sending;
        LogGrows(e.log, WantSend(false));
      }
    case Dial =>
      LogGrows(e.log, Welcome);
  }

  /**
   In every run no want-send handshake is written while a packet is under way, and between any
   two WANT_SENDs there is a record from the host.
   */
  lemma {:induction false} WantSendsAreSpaced(e: Engine, inputs: seq<Input>)
    requires Inv(e) && Wants(e)
    ensures Wants(Run(e, inputs))
    decreases |inputs|
  {
    if inputs != [] {
      StepKeeps(e, inputs[0]);
      StepKeepsWants(e, inputs[0]);
      WantSendsAreSpaced(Step(e, inputs[0]), inputs[1..]);
    }
  }

  // ---- a host that answers each data packet ----

  /** While a packet is under way the host only sends ACK, SEND-PACKET, or records without effect. */
  predicate Answers(e: Engine, i: Input) {
    match i
    case Record(pos, write, h) =>
      e.sending && Interpreted(e, pos) ==> write && (h == HostAck || h == HostSendPacket || h == HostState)
    case Respond => true
    case Dial => false
  }

  predicate Answering(e: Engine, inputs: seq<Input>)
    decreases |inputs|
  {
    inputs == [] || (Answers(e, inputs[0]) && Answering(Step(e, inputs[0]), inputs[1..]))
  }

  /** On one connection: what was transmitted is what was finished plus the packet under way. */
  predicate Once(start: Engine, e: Engine) {
    && start.transmitted <= e.transmitted && start.finished <= e.finished
    && (e.sending ==> e.queue != [])
    && e.transmitted[|start.transmitted|..]
         == e.finished[|start.finished|..] + if e.sending then [e.queue[0]] else []
  }

  lemma FinishKeepsOnce(start: Engine, e: Engine)
    requires Once(start, e)
    ensures Once(start, FinishFirst(e).(sending := false))
  {
    if e.sending {
      var f := |start.finished|;
      assert (e.finished + [e.queue[0]])[f..] == e.finished[f..] + [e.queue[0]];
    }
  }

  lemma SendKeepsOnce(start: Engine, e: Engine)
    requires Once(start, e) && !e.sending
    ensures Once(start, SendFirst(e))
  {
    if e.queue != [] {
      var t := |start.transmitted|;
      assert (e.transmitted + [e.queue[0]])[t..] == e.transmitted[t..] + [e.queue[0]];
    }
  }

  /** Steps that neither transmit nor finish, and keep the head while a packet is under way. */
  lemma OthersKeepOnce(start: Engine, e: Engine, e': Engine)
    requires Once(start, e) && e'.transmitted == e.transmitted && e'.finished == e.finished
    requires e'.sending == e.sending && e.queue <= e'.queue
    ensures Once(start, e')
  {
  }

  lemma HandshakeKeepsOnce(start: Engine, e: Engine, h: Handshake)
    requires Once(start, e) && (e.sending ==> h == HostAck || h == HostSendPacket || h == HostState)
    ensures Once(start, HandleHandshake(e, h))
  {
    FinishKeepsOnce(start, e);
    var e1 := FinishFirst(e).(sending := false);
    match h
    case HostSendPacket => SendKeepsOnce(start, e1);
    case HostAck => OthersKeepOnce(start, e1, HandleHandshake(e, h));
    case _ => OthersKeepOnce(start, e, HandleHandshake(e, h));
  }

  lemma StepKeepsOnce(start: Engine, e: Engine, i: Input)
    requires Once(start, e) && Answers(e, i)
    ensures Once(start, Step(e, i))
  {
    match i
    case Record(pos, write, h) =>
      var e0 := e.(log := e.log + [FromHost]);
      var e1 := e0.(connected := true);
      OthersKeepOnce(start, e, e0);
      OthersKeepOnce(start, e, e1);
      if Interpreted(e, pos) {
        if write {
          HandshakeKeepsOnce(start, e1, h);
        } else {
          OthersKeepOnce(start, e1, HandlePacket(e1));
        }
      }
    case Respond =>
      OthersKeepOnce(start, e, SendResponse(e));
    case Dial =>
  }

  /** With such a host every response is transmitted exactly once per connection, in order. */
  lemma {:induction false} AnsweringHostGetsEachOnce(start: Engine, e: Engine, inputs: seq<Input>)
    requires Inv(e) && Once(start, e) && Answering(e, inputs)
    ensures var e' := Run(e, inputs);
            && Once(start, e')
            && forall i, j :: |start.transmitted| <= i < j < |e'.transmitted| ==> e'.transmitted[i] < e'.transmitted[j]
    decreases |inputs|
  {
    if inputs == [] {
      assert e.transmitted[|start.transmitted|..] <= (e.finished + e.queue)[|start.finished|..];
      assert forall i :: |start.transmitted| <= i < |e.transmitted| ==>
        e.transmitted[i] == e.transmitted[|start.transmitted|..][i - |start.transmitted|]
                         == e.enqueued[|start.finished| + i - |start.transmitted|];
    } else {
      StepKeeps(e, inputs[0]);
      StepKeepsOnce(start, e, inputs[0]);
      AnsweringHostGetsEachOnce(start, Step(e, inputs[0]), inputs[1..]);
    }
  }

  /** A dialed connection starts with nothing under way. */
  lemma DialedOnce(e: Engine)
    ensures Once(Dialed(e), Dialed(e))
  {
  }

  // ---- exactly when a response is repeated ----

  /** What was transmitted from place `t` on: the transmissions of one connection, or all of them. */
  function Since(e: Engine, t: nat): seq<nat> {
    if t <= |e.transmitted| then e.transmitted[t..] else []
  }

  /** The host asks for a packet. */
  predicate Asks(e: Engine, i: Input) {
    i.Record? && i.write && i.h == HostSendPacket && Interpreted(e, i.pos)
  }

  /** The head is the last one transmitted since `t`. */
  predicate HeadWasLast(e: Engine, t: nat) {
    e.queue != [] && Since(e, t) != [] && Since(e, t)[|Since(e, t)| - 1] == e.queue[0]
  }

  /** The host asks for a packet while none is under way, and the head is the last one it got. */
  predicate Repeats(e: Engine, i: Input, t: nat) {
    Asks(e, i) && !e.sending && HeadWasLast(e, t)
  }

  predicate NoneRepeats(e: Engine, inputs: seq<Input>, t: nat)
    decreases |inputs|
  {
    inputs == [] || (!Repeats(e, inputs[0], t) && NoneRepeats(Step(e, inputs[0]), inputs[1..], t))
  }

  /** How many transmissions repeat the one before. */
  function Extra(s: seq<nat>): int {
    |s| - |Dedup(s)|
  }

  predicate NonDecreasing(s: seq<nat>) {
    forall i, j :: 0 <= i < j < |s| ==> s[i] <= s[j]
  }

  lemma {:induction false} ExtraIsNat(s: seq<nat>)
    ensures Extra(s) >= 0
  {
    if |s| > 1 {
      ExtraIsNat(s[..|s| - 1]);
    }
  }

  /** In ascending order only neighbours can be equal, so nothing is there twice exactly if nothing is extra. */
  lemma {:induction false} DistinctIffNoExtra(s: seq<nat>)
    requires NonDecreasing(s)
    ensures Distinct(s) <==> Extra(s) == 0
  {
    ExtraIsNat(s);
    if |s| > 1 {
      var init, n := s[..|s| - 1], |s| - 1;
      ExtraIsNat(init);
      DistinctIffNoExtra(init);
      if s[n] == s[n - 1] {
        assert !Distinct(s);
      } else {
        assert forall i :: 0 <= i < n ==> s[i] <= s[n - 1] < s[n];
        assert Distinct(init) ==> Distinct(s);
        assert Distinct(s) ==> Distinct(init);
      }
    }
  }

  predicate Ascending(s: seq<nat>) {
    forall i, j :: 0 <= i < j < |s| ==> s[i] < s[j]
  }

  /** A list whose repeats are only neighbours is in the order of the list without them. */
  lemma {:induction false} DedupOrders(s: seq<nat>)
    requires Ascending(Dedup(s))
    ensures NonDecreasing(s) && (s == [] <==> Dedup(s) == [])
    ensures s != [] ==> Dedup(s)[|Dedup(s)| - 1] == s[|s| - 1]
  {
    if |s| > 1 {
      var init, n, d := s[..|s| - 1], |s| - 1, Dedup(s);
      assert Dedup(init) == if s[n] == s[n - 1] then d else d[..|d| - 1];
      DedupOrders(init);
      if s[n] != s[n - 1] {
        assert d[|d| - 1] == s[n] && d[|d| - 2] == Dedup(init)[|d| - 2] == init[n - 1];
      }
      assert s[n - 1] <= s[n];
    }
  }

  lemma SinceOrdered(e: Engine, t: nat)
    requires Inv(e)
    ensures NonDecreasing(Since(e, t))
  {
    DedupOrders(e.transmitted);
  }

  lemma SendExtra(e: Engine, t: nat)
    requires !e.sending && t <= |e.transmitted|
    ensures Extra(Since(SendFirst(e), t)) == Extra(Since(e, t)) + if HeadWasLast(e, t) then 1 else 0
  {
    hide Dedup;
    if e.queue != [] {
      var sent, head := Since(e, t), e.queue[0];
      DedupSnoc(sent, head);
      assert Since(SendFirst(e), t) == (e.transmitted + [head])[t..] == sent + [head];
    }
  }

  /** Asked for a packet while one is under way, the engine sends a new one. */
  lemma NextIsNew(e: Engine, t: nat)
    requires Inv(e) && e.sending && t <= |e.transmitted|
    ensures !HeadWasLast(FinishFirst(e).(sending := false), t)
  {
    var n := |e.finished|;
    if |e.queue| > 1 && Since(e, t) != [] {
      assert e.queue[1] == e.enqueued[n + 1] == n + 1;
      assert Since(e, t)[|Since(e, t)| - 1] == e.transmitted[|e.transmitted| - 1] == n;
    }
  }

  lemma SendPacketExtra(e: Engine, t: nat)
    requires Inv(e) && t <= |e.transmitted|
    ensures Extra(Since(HandleHandshake(e, HostSendPacket), t)) == Extra(Since(e, t)) + if !e.sending && HeadWasLast(e, t) then 1 else 0
  {
    var e1 := FinishFirst(e).(sending := false);
    assert Since(e1, t) == Since(e, t);
    SendExtra(e1, t);
    if e.sending {
      NextIsNew(e, t);
    } else {
      assert HeadWasLast(e1, t) == HeadWasLast(e, t);
    }
  }

  /** Only a request of the host for a packet makes the engine transmit. */
  lemma OthersTransmitNothing(e: Engine, i: Input)
    requires !Asks(e, i)
    ensures Step(e, i).transmitted == e.transmitted
  {
    hide HandleHandshake;
    if i.Record? {
      HandshakeTransmitsNothing(e.(log := e.log + [FromHost], connected := true), i.h);
    }
  }

  lemma HandshakeTransmitsNothing(e: Engine, h: Handshake)
    ensures h != HostSendPacket ==> HandleHandshake(e, h).transmitted == e.transmitted
  {
  }

  /** Each step adds one repeated transmission if it is such a request of the host, and else none. */
  lemma StepExtra(e: Engine, i: Input, t: nat)
    requires Inv(e) && t <= |e.transmitted|
    ensures Extra(Since(Step(e, i), t)) == Extra(Since(e, t)) + if Repeats(e, i, t) then 1 else 0
  {
    if Asks(e, i) {
      var e1 := e.(log := e.log + [FromHost], connected := true);
      FlagsKeep(e, e1);
      assert Since(e1, t) == Since(e, t);
      assert HeadWasLast(e1, t) == HeadWasLast(e, t);
      SendPacketExtra(e1, t);
      AskedStep(e, i);
    } else {
      OthersTransmitNothing(e, i);
      assert Since(Step(e, i), t) == Since(e, t);
    }
  }

  lemma AskedStep(e: Engine, i: Input)
    requires Asks(e, i)
    ensures Step(e, i) == HandleHandshake(e.(log := e.log + [FromHost], connected := true), HostSendPacket)
  {
  }

  lemma TransmittedGrows(e: Engine, i: Input)
    ensures |e.transmitted| <= |Step(e, i).transmitted|
  {
    if Asks(e, i) {
      AskedStep(e, i);
    } else {
      OthersTransmitNothing(e, i);
    }
  }

  lemma {:induction false} RunExtra(e: Engine, inputs: seq<Input>, t: nat)
    requires Inv(e) && t <= |e.transmitted|
    ensures Inv(Run(e, inputs)) && t <= |Run(e, inputs).transmitted| && Extra(Since(Run(e, inputs), t)) >= Extra(Since(e, t))
    ensures Extra(Since(Run(e, inputs), t)) == Extra(Since(e, t)) <==> NoneRepeats(e, inputs, t)
    decreases |inputs|
  {
    if inputs != [] {
      StepExtra(e, inputs[0], t);
      TransmittedGrows(e, inputs[0]);
      StepKeeps(e, inputs[0]);
      RunExtra(Step(e, inputs[0]), inputs[1..], t);
    }
  }

  /**
   Exactly when each response is transmitted once: in a run of a connection that started at place
   `t` no response goes out twice if and only if the host never asks for a packet while none is
   under way and the head was the last one it got.
   */
  lemma OnceIffNoneRepeats(e: Engine, inputs: seq<Input>, t: nat)
    requires Inv(e) && t <= |e.transmitted| && Distinct(Since(e, t))
    ensures Distinct(Since(Run(e, inputs), t)) <==> NoneRepeats(e, inputs, t)
  {
    SinceOrdered(e, t);
    DistinctIffNoExtra(Since(e, t));
    RunExtra(e, inputs, t);
    SinceOrdered(Run(e, inputs), t);
    DistinctIffNoExtra(Since(Run(e, inputs), t));
  }

  /** Between two packets the head is one that the connection did not get. */
  lemma HeadIsNew(start: Engine, e: Engine)
    requires Inv(e) && Once(start, e) && !e.sending && e.queue != [] && Since(e, |start.transmitted|) != []
    ensures !HeadWasLast(e, |start.transmitted|)
  {
    var n, done := |e.finished|, e.finished[|start.finished|..];
    assert e.transmitted[|start.transmitted|..] == done + [] == done;
    assert e.transmitted[|e.transmitted| - 1] == done[|done| - 1] == e.finished[n - 1] == e.enqueued[n - 1] == n - 1;
    assert e.queue[0] == e.enqueued[n] == n;
  }

  /** A host that answers each packet never does that. */
  lemma {:induction false} AnsweringNeverRepeats(start: Engine, e: Engine, inputs: seq<Input>)
    requires Inv(e) && Once(start, e) && Answering(e, inputs)
    ensures NoneRepeats(e, inputs, |start.transmitted|)
    decreases |inputs|
  {
    if inputs != [] {
      if !e.sending && e.queue != [] && Since(e, |start.transmitted|) != [] {
        HeadIsNew(start, e);
      }
      StepKeeps(e, inputs[0]);
      StepKeepsOnce(start, e, inputs[0]);
      AnsweringNeverRepeats(start, Step(e, inputs[0]), inputs[1..]);
    }
  }

  lemma OneMoreStep(e: Engine, i: Input, rest: seq<Input>)
    ensures Run(e, [i] + rest) == Run(Step(e, i), rest)
  {
    assert ([i] + rest)[1..] == rest;
  }

  lemma RunOfTwo(e: Engine, a: Input, b: Input, rest: seq<Input>)
    ensures Run(e, [a, b] + rest) == Run(Step(Step(e, a), b), rest)
  {
    hide Step, Run;
    OneMoreStep(e, a, [b] + rest);
    OneMoreStep(Step(e, a), b, rest);
    assert [a, b] + rest == [a] + ([b] + rest);
  }

  lemma RunOfOne(e: Engine, i: Input)
    ensures Run(e, [i]) == Step(e, i)
  {
    hide Step;
    assert [i][1..] == [];
    assert Run(Step(e, i), []) == Step(e, i);
  }

  lemma RunOfFive(e: Engine, a: Input, b: Input, c: Input, d: Input, f: Input)
    ensures Run(e, [a, b, c, d, f]) == Step(Step(Step(Step(Step(e, a), b), c), d), f)
  {
    hide Step, Run;
    RunOfTwo(e, a, b, [c, d, f]);
    RunOfTwo(Step(Step(e, a), b), c, d, [f]);
    RunOfOne(Step(Step(Step(Step(e, a), b), c), d), f);
    assert [a, b, c, d, f] == [a, b] + [c, d, f] && [c, d, f] == [c, d] + [f];
  }

  /**
   Without that a response can be transmitted twice: the host sends a request, asks for the response,
   and sends a packet of its own instead of the answer.
   */
  lemma UnansweredIsRepeated()
    ensures var send := Record(ProxyPos, true, HostSendPacket);
            Run(Dialed(INITIAL), [Record(ProxyPos, false, HostOther), Respond, send, Record(ProxyPos, true, HostWillSend), send]).transmitted
              == [0, 0]
  {
    hide Run;
    var packet, send, will := Record(ProxyPos, false, HostOther), Record(ProxyPos, true, HostSendPacket), Record(ProxyPos, true, HostWillSend);
    RunOfFive(Dialed(INITIAL), packet, Respond, send, will, send);
    var e2 := Step(Step(Dialed(INITIAL), packet), Respond);
    var e4 := Step(Step(e2, send), will);
    assert e2.queue == [0] && Step(e2, send).transmitted == [0] && e4.queue == [0] && !e4.sending;
  }

  // ---- what the host's records end, forbid and allow ----

  /** A record that means something: all but dump requests. */
  predicate Meant(e: Engine, i: Input) {
    i.Record? && Interpreted(e, i.pos) && (i.write ==> i.h != HostState)
  }

  /**
   Each such record ends the sending, whatever it is, and only a SEND-PACKET starts the next one; the
   packet under way is finished if and only if the record is an ACK or a SEND-PACKET.
   */
  lemma RecordEndsSending(e: Engine, i: Input)
    requires Meant(e, i)
    ensures var e' := Step(e, i);
            && (e'.sending <==> e'.transmitted != e.transmitted) && (e'.sending ==> i.write && i.h == HostSendPacket)
            && (e'.finished != e.finished <==> e.sending && e.queue != [] && i.write && (i.h == HostAck || i.h == HostSendPacket))
  {
    if i.write && i.h == HostSendPacket {
      SendPacketTransmits(e);
    }
  }

  /** A SEND-PACKET transmits the head of what is not finished by it. */
  lemma SendPacketTransmits(e: Engine)
    ensures var e', q := HandleHandshake(e, HostSendPacket), if e.sending && e.queue != [] then e.queue[1..] else e.queue;
            if q == [] then e'.transmitted == e.transmitted && !e'.sending
            else e'.transmitted == e.transmitted + [q[0]] && e'.sending
  {
  }

  /** Nothing else changes `sending`, but for a new connection, which ends it. */
  lemma OthersKeepSending(e: Engine, i: Input)
    requires !Meant(e, i)
    ensures Step(e, i).sending == (e.sending && !i.Dial?) && Step(e, i).finished == e.finished
  {
  }

  function WantSends(log: seq<Entry>): nat {
    if log == [] then 0 else WantSends(log[..|log| - 1]) + if log[|log| - 1].WantSend? then 1 else 0
  }

  lemma WantSendsOfLonger(log: seq<Entry>, t: Entry)
    ensures WantSends(log + [t]) == WantSends(log) + if t.WantSend? then 1 else 0
  {
    assert (log + [t])[..|log|] == log;
  }

  /** The host allows want-sends: with an ACK, a RESET, or a data packet. */
  predicate Allows(e: Engine, i: Input) {
    i.Record? && Interpreted(e, i.pos) && (!i.write || i.h == HostAck || i.h == HostReset)
  }

  ghost predicate NoneAllows(e: Engine, inputs: seq<Input>)
    decreases |inputs|
  {
    inputs == [] || (!Allows(e, inputs[0]) && NoneAllows(Step(e, inputs[0]), inputs[1..]))
  }

  lemma SilentStep(e: Engine, i: Input)
    requires !e.mayRequestSend && !Allows(e, i)
    ensures !Step(e, i).mayRequestSend && WantSends(Step(e, i).log) == WantSends(e.log)
  {
    hide WantSends;
    var log := if i.Record? then e.log + [FromHost] else e.log;
    WantSendsOfLonger(e.log, FromHost);
    WantSendsOfLonger(log, Ack);
    WantSendsOfLonger(log, Welcome);
    var q := if e.sending && e.queue != [] then e.queue[1..] else e.queue;
    if q != [] { WantSendsOfLonger(log, Data(q[0], |q| > 1)); }
  }

  /** The host imposes silence with a WILL-SEND or a WELCOME: from then on nobody asks for sending until the host allows it. */
  lemma HostSilences(e: Engine, i: Input, inputs: seq<Input>)
    requires Meant(e, i) && i.write && (i.h == HostWillSend || i.h == HostWelcome) && NoneAllows(Step(e, i), inputs)
    ensures WantSends(Run(Step(e, i), inputs).log) == WantSends(Step(e, i).log)
  {
    hide Run, NoneAllows, WantSends;
    StaysSilent(Step(e, i), inputs);
  }

  lemma {:induction false} StaysSilent(e: Engine, inputs: seq<Input>)
    requires !e.mayRequestSend && NoneAllows(e, inputs)
    ensures WantSends(Run(e, inputs).log) == WantSends(e.log)
    decreases |inputs|
  {
    hide Step, Allows, WantSends;
    if inputs != [] {
      SilentStep(e, inputs[0]);
      StaysSilent(Step(e, inputs[0]), inputs[1..]);
    }
  }

  /** When the host has allowed it, the next response for an empty queue is asked for at once; waiting ones are asked for with the answer. */
  lemma HostAllows(e: Engine, i: Input)
    requires Allows(e, i)
    ensures var e' := Step(e, i);
            && (e'.queue == [] ==> Step(e', Respond).log == e'.log + [WantSend(false)])
            && (e'.queue != [] && !(i.write && i.h == HostAck) ==> e'.log == e.log + [FromHost, AckWantSend(false)] && e'.pendingRequestSend)
  {
  }

  // ---- when a pause is made ----

  /** The last handshake written; data packets are none. */
  function LastWritten(log: seq<Entry>): Option<Entry> {
    if log == [] then None
    else if log[|log| - 1].FromHost? || log[|log| - 1].Data? then LastWritten(log[..|log| - 1])
    else Some(log[|log| - 1])
  }

  /** `lastWasWantSend` is set while a want-send is the last handshake written, and never after an ACK. */
  predicate PauseOk(e: Engine) {
    var last := LastWritten(e.log);
    && (e.lastWasWantSend ==> last.Some? && !last.value.Ack?)
    && (last.Some? && last.value.WantSend? ==> e.lastWasWantSend)
  }

  lemma LastOfLonger(log: seq<Entry>, t: Entry)
    ensures LastWritten(log + [t]) == if t.FromHost? || t.Data? then LastWritten(log) else Some(t)
  {
    assert (log + [t])[..|log|] == log;
  }

  lemma HandshakeKeepsPause(e: Engine, h: Handshake)
    requires PauseOk(e)
    ensures PauseOk(HandleHandshake(e, h))
  {
    hide LastWritten;
    LastOfLonger(e.log, Ack);
    LastOfLonger(e.log, AckWantSend(false));
    LastOfLonger(e.log, Welcome);
    var q := if e.sending && e.queue != [] then e.queue[1..] else e.queue;
    if q != [] { LastOfLonger(e.log, Data(q[0], |q| > 1)); }
  }

  lemma StepKeepsPause(e: Engine, i: Input)
    requires PauseOk(e)
    ensures PauseOk(Step(e, i))
  {
    hide LastWritten;
    match i
    case Record(_, _, h) =>
      hide HandleHandshake;
      var e' := e.(log := e.log + [FromHost], connected := true);
      LastOfLonger(e.log, FromHost);
      HandshakeKeepsPause(e', h);
      LastOfLonger(e'.log, Ack);
      LastOfLonger(e'.log, AckWantSend(false));
    case Respond => LastOfLonger(e.log, WantSend(e.sending));
    case Dial => LastOfLonger(e.log, Welcome);
  }

  /** In every run the pause before an ACK is made only when no ACK was written since the want-send it is for. */
  lemma {:induction false} PauseKept(e: Engine, inputs: seq<Input>)
    requires PauseOk(e)
    ensures PauseOk(Run(e, inputs))
    decreases |inputs|
  {
    hide PauseOk, Step;
    if inputs != [] {
      StepKeepsPause(e, inputs[0]);
      PauseKept(Step(e, inputs[0]), inputs[1..]);
    }
  }
}
