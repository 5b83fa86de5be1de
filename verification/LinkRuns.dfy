/**
 All runs of the two proxies: no response is transmitted or delivered twice, each request that was
 accepted gets no reply but its own, and no slot is ever used for two requests. When exactly replies
 stay out.
 */
module LinkRuns {
  import opened Bytes
  import ProxyEngine
  import opened InsideProxy
  import opened LinkTable
  import opened ProxyLink
  import opened LinkTroubles

  // ---- where the requests are ----

  /** The requests waiting in these slots. */
  function JobsOf(slots: seq<nat>, requests: seq<nat>): seq<Job>
    requires forall i :: 0 <= i < |slots| ==> slots[i] < |requests|
  {
    seq(|slots|, i requires 0 <= i < |slots| => Job(slots[i], requests[slots[i]]))
  }

  function Packets(line: seq<Write>): seq<Job> {
    if line == [] then [] else (if line[0].Packet? then [line[0].job] else []) + Packets(line[1..])
  }

  lemma {:induction false} PacketsPushed(line: seq<Write>, w: Write)
    ensures Packets(line + [w]) == Packets(line) + if w.Packet? then [w.job] else []
  {
    if line == [] {
      assert (line + [w])[1..] == [];
    } else {
      var first, last := if line[0].Packet? then [line[0].job] else [], if w.Packet? then [w.job] else [];
      assert (line + [w])[1..] == line[1..] + [w];
      PacketsPushed(line[1..], w);
      Assoc(first, Packets(line[1..]), last);
    }
  }

  /** Everything in work: requests waiting, on the line, outside, and answered but not yet replied to. */
  ghost function Work(l: Link): multiset<Job>
    requires WellFormed(l.inside) && |l.inside.replies| <= |l.answered|
  {
    multiset(JobsOf(l.inside.waiting, l.inside.requests)) + multiset(Packets(l.toProxy))
    + multiset(l.outside) + multiset(l.answered[|l.inside.replies|..])
  }

  /** Each slot is free once, or holds just the request in work that names it. */
  ghost predicate Placed(work: multiset<Job>, free: seq<nat>, requests: seq<nat>) {
    && |requests| == MAX_REQUEST_COUNT && |free| + |work| == MAX_REQUEST_COUNT
    && (forall i :: 0 <= i < |free| ==> free[i] < MAX_REQUEST_COUNT)
    && (forall j :: j in work ==> j.slot < MAX_REQUEST_COUNT && j.no == requests[j.slot])
    && (forall x: nat :: x < MAX_REQUEST_COUNT ==> work[Job(x, requests[x])] + multiset(free)[x] == 1)
  }

  /** Each request that was accepted is in work or got one reply, and never both. */
  ghost predicate Counted(work: multiset<Job>, replies: seq<Reply>, accepted: nat) {
    && accepted == |replies| + |work|
    && (forall j :: j in work ==> j.no < accepted)
    && (forall j, k :: j in work && k in work && j.no == k.no ==> j == k)
    && (forall n :: 0 <= n < |replies| ==> replies[n].to < accepted)
    && (forall m, n :: 0 <= m < n < |replies| ==> replies[m].to != replies[n].to)
    && (forall j, n :: j in work && 0 <= n < |replies| ==> replies[n].to != j.no)
  }

  lemma PlacedOnce(work: multiset<Job>, free: seq<nat>, requests: seq<nat>, j: Job)
    requires Placed(work, free, requests) && j in work
    ensures work[j] == 1 && j.slot !in free && j.slot < MAX_REQUEST_COUNT == |requests| && j.no == requests[j.slot]
  {
    assert j == Job(j.slot, requests[j.slot]);
    assert j.slot !in multiset(free);
  }

  lemma AcceptPlaces(work: multiset<Job>, free: seq<nat>, requests: seq<nat>, no: nat)
    requires Placed(work, free, requests) && free != []
    ensures Placed(work + multiset{Job(free[0], no)}, free[1..], requests[free[0] := no])
    ensures forall j :: j in work ==> j.slot != free[0]
  {
    var f := free[0];
    assert free == [f] + free[1..];
    assert multiset(free) == multiset{f} + multiset(free[1..]);
    forall j | j in work
      ensures j.slot != f
    {
      PlacedOnce(work, free, requests, j);
    }
  }

  lemma DeliverPlaces(work: multiset<Job>, free: seq<nat>, requests: seq<nat>, j: Job)
    requires Placed(work, free, requests) && j in work
    ensures Placed(work - multiset{j}, free + [j.slot], requests)
  {
    PlacedOnce(work, free, requests, j);
    assert j == Job(j.slot, requests[j.slot]);
    assert multiset(free + [j.slot]) == multiset(free) + multiset{j.slot};
  }

  lemma AcceptCounts(work: multiset<Job>, replies: seq<Reply>, accepted: nat, slot: nat)
    requires Counted(work, replies, accepted)
    ensures Counted(work + multiset{Job(slot, accepted)}, replies, accepted + 1)
  {
    var work' := work + multiset{Job(slot, accepted)};
    assert |work'| == |work| + 1;
    assert forall j :: j in work' <==> j in work || j == Job(slot, accepted);
  }

  lemma DeliverCounts(work: multiset<Job>, replies: seq<Reply>, accepted: nat, j: Job, resp: nat)
    requires Counted(work, replies, accepted) && work[j] == 1
    ensures Counted(work - multiset{j}, replies + [Reply(j.no, resp)], accepted)
  {
    var work', replies' := work - multiset{j}, replies + [Reply(j.no, resp)];
    assert work == work' + multiset{j};
    assert forall k :: k in work' <==> k in work && k != j;
  }

  ghost predicate WorkOk(l: Link) {
    && WellFormed(l.inside) && |l.inside.replies| <= |l.answered|
    && Placed(Work(l), l.inside.free, l.inside.requests)
    && Counted(Work(l), l.inside.replies, l.inside.accepted)
  }

  /** Replies are given in the order of the responses, each to the request its response answers. */
  ghost predicate RepliesOk(l: Link) {
    && |l.answered| == |l.engine.enqueued| && |l.inside.replies| <= |l.answered|
    && forall n :: 0 <= n < |l.inside.replies| ==> l.inside.replies[n] == Reply(l.answered[n].no, n)
  }

  /** A response on the line is the one the outside proxy is sending. */
  ghost predicate DataOk(l: Link) {
    forall k :: 0 <= k < |l.toHost| && l.toHost[k].Data? ==> l.toHost[k].no == |l.engine.finished| < |l.answered|
  }

  ghost predicate LinkOk(l: Link) {
    Agreed(ViewOf(l)) && ProxyEngine.Inv(l.engine) && WorkOk(l) && RepliesOk(l) && DataOk(l)
  }

  /** The records that are there can be read. */
  lemma OkIsReady(l: Link)
    requires LinkOk(l)
    ensures Ready(l) && !ToHostLine(l.toHost).Jam? && !ToProxyLine(l.toProxy).Jam?
    ensures l.toProxy != [] ==> KindOfWrite(l.toProxy[0]) != KOther
    ensures l.toHost != [] && l.toHost[0].Data? ==> DataCase(l)
    ensures SlotsNamed(l)
  {
    hide Agreed, ProxyEngine.Inv, WorkOk, RepliesOk, DataOk;
    LinesCanBeRead(l);
    if l.toHost != [] && l.toHost[0].Data? {
      DataIsNext(l);
    }
  }

  lemma LinesCanBeRead(l: Link)
    requires LinkOk(l)
    ensures Ready(l) && !ToHostLine(l.toHost).Jam? && !ToProxyLine(l.toProxy).Jam?
    ensures l.toProxy != [] ==> KindOfWrite(l.toProxy[0]) != KOther
  {
    hide Agreed, Placed, Counted, Work, ProxyEngine.Inv, RepliesOk, DataOk, ToHostLine, ToProxyLine;
    NoJam(ViewOf(l));
    if l.toProxy != [] { ProxyPopped(l.toProxy); }
  }

  lemma DataIsNext(l: Link)
    requires LinkOk(l) && l.toHost != [] && l.toHost[0].Data?
    ensures DataCase(l) && SlotOf(l, l.toHost[0]) < MAX_REQUEST_COUNT
  {
    hide Agreed, Placed, Counted, Work, ProxyEngine.Inv, ToHostLine, ToProxyLine;
    NoJam(ViewOf(l));
    HostPopped(l.toHost);
    DataComes(ViewOf(l));
    NextInWork(l);
    PlacedOnce(Work(l), l.inside.free, l.inside.requests, l.answered[|l.inside.replies|]);
  }

  /** A response is read when it is expected, and it is the next one to be delivered. */
  ghost predicate DataCase(l: Link) {
    && l.toHost != [] && l.toHost[0].Data? && |l.inside.replies| < |l.answered|
    && l.toHost[0].no == |l.engine.finished| == |l.inside.replies|
    && (l.inside.pstate == Receiving || l.inside.pstate == IReceiving)
  }

  lemma NoJam(v: View)
    requires Agreed(v)
    ensures !v.toHost.Jam? && !v.toProxy.Jam? && !v.toHost.Three?
    ensures !v.toProxy.Empty? ==> v.toProxy.k in {KWelcome, KAck, KWill, KSend, KReset, KPacket}
    ensures v.pstate == TransmitPrep ==> v.waiting > 0
  {
  }

  lemma DataComes(v: View)
    requires Agreed(v) && !v.toHost.Empty? && !v.toHost.Jam? && v.toHost.k in {KLast, KMore}
    ensures (v.pstate == Receiving || v.pstate == IReceiving) && v.lead == 0 && v.queue > 0
  {
  }

  // ---- where the requests go ----

  /** At most a handshake was written. */
  ghost predicate Spoke(line: seq<Write>, line': seq<Write>) {
    line' == line || exists h :: line' == line + [Control(h)]
  }

  lemma SpokeKeeps(line: seq<Write>, line': seq<Write>)
    requires Spoke(line, line')
    ensures Packets(line') == Packets(line)
  {
    if line' != line {
      var h :| line' == line + [Control(h)];
      PacketsPushed(line, Control(h));
      assert Packets(line) + [] == Packets(line);
    }
  }

  /** The inside proxy has entered another state, and possibly sent a handshake. */
  lemma NothingMoves(l: Link, l': Link)
    requires WorkOk(l) && l'.outside == l.outside && l'.answered == l.answered
    requires l'.inside == l.inside.(pstate := l'.inside.pstate, out := l'.inside.out) && Spoke(l.toProxy, l'.toProxy)
    ensures WorkOk(l')
  {
    hide Placed, Counted, Spoke;
    SpokeKeeps(l.toProxy, l'.toProxy);
    assert Work(l') == Work(l);
  }

  lemma JobsGrow(slots: seq<nat>, requests: seq<nat>, f: nat, no: nat)
    requires f < |requests| && forall i :: 0 <= i < |slots| ==> slots[i] < |requests| && slots[i] != f
    ensures JobsOf(slots + [f], requests[f := no]) == JobsOf(slots, requests) + [Job(f, no)]
  {
  }

  lemma FreeNotWaiting(l: Link)
    requires WorkOk(l) && l.inside.free != []
    ensures forall i :: 0 <= i < |l.inside.waiting| ==> l.inside.waiting[i] != l.inside.free[0]
  {
    var s := l.inside;
    forall i | 0 <= i < |s.waiting|
      ensures s.waiting[i] != s.free[0]
    {
      var j := JobsOf(s.waiting, s.requests)[i];
      assert j in Work(l);
      PlacedOnce(Work(l), s.free, s.requests, j);
    }
  }

  ghost predicate Accepts(l: Link, l': Link) {
    && WellFormed(l.inside) && l.inside.free != []
    && var s, f := l.inside, l.inside.free[0];
    && l'.outside == l.outside && l'.answered == l.answered && Spoke(l.toProxy, l'.toProxy)
    && l'.inside == s.(pstate := l'.inside.pstate, out := l'.inside.out, free := s.free[1..], waiting := s.waiting + [f],
                       requests := s.requests[f := s.accepted], accepted := s.accepted + 1)
  }

  lemma AcceptMoves(l: Link, l': Link)
    requires WellFormed(l.inside) && |l.inside.replies| <= |l.answered| && Accepts(l, l')
    requires forall i :: 0 <= i < |l.inside.waiting| ==> l.inside.waiting[i] != l.inside.free[0]
    ensures WellFormed(l'.inside) && Work(l') == Work(l) + multiset{Job(l.inside.free[0], l.inside.accepted)}
  {
    hide Spoke;
    SpokeKeeps(l.toProxy, l'.toProxy);
    JobsGrow(l.inside.waiting, l.inside.requests, l.inside.free[0], l.inside.accepted);
  }

  /** A request gets a slot. */
  lemma ClientSendsWork(l: Link, l': Link)
    requires WorkOk(l) && Accepts(l, l')
    ensures WorkOk(l')
  {
    hide Work, Placed, Counted, WellFormed, Spoke;
    var s := l.inside;
    FreeNotWaiting(l);
    AcceptMoves(l, l');
    AcceptPlaces(Work(l), s.free, s.requests, s.accepted);
    AcceptCounts(Work(l), s.replies, s.accepted, s.free[0]);
  }

  lemma JobsSplit(slots: seq<nat>, requests: seq<nat>)
    requires slots != [] && forall i :: 0 <= i < |slots| ==> slots[i] < |requests|
    ensures JobsOf(slots, requests) == [Job(slots[0], requests[slots[0]])] + JobsOf(slots[1..], requests)
  {
  }

  /** The first waiting request goes onto the line. */
  lemma TransmitWork(l: Link, l': Link)
    requires WorkOk(l) && l.inside.waiting != [] && l'.outside == l.outside && l'.answered == l.answered
    requires var s := l.inside;
             && l'.inside == s.(pstate := l'.inside.pstate, out := l'.inside.out, waiting := s.waiting[1..])
             && l'.toProxy == l.toProxy + [Packet(Job(s.waiting[0], s.requests[s.waiting[0]]))]
    ensures WorkOk(l')
  {
    hide Placed, Counted, JobsOf;
    var s := l.inside;
    var first := Job(s.waiting[0], s.requests[s.waiting[0]]);
    PacketsPushed(l.toProxy, Packet(first));
    JobsSplit(s.waiting, s.requests);
    assert Work(l') == Work(l);
  }

  ghost predicate Delivers(l: Link, l': Link) {
    && |l.inside.replies| < |l.answered|
    && var s, j := l.inside, l.answered[|l.inside.replies|];
    && l'.outside == l.outside && l'.answered == l.answered && Spoke(l.toProxy, l'.toProxy)
    && l'.inside == s.(pstate := l'.inside.pstate, out := l'.inside.out, free := s.free + [j.slot],
                       replies := s.replies + [Reply(j.no, |s.replies|)])
  }

  lemma NextSplits(answered: seq<Job>, n: nat)
    requires n < |answered|
    ensures multiset(answered[n..]) == multiset{answered[n]} + multiset(answered[n + 1..])
  {
    assert answered[n..] == [answered[n]] + answered[n + 1..];
  }

  lemma DeliverKeepsForm(l: Link, l': Link)
    requires WellFormed(l.inside) && Delivers(l, l') && l.answered[|l.inside.replies|].slot < MAX_REQUEST_COUNT
    ensures WellFormed(l'.inside)
  {
  }

  lemma DeliverMoves(l: Link, l': Link)
    requires WellFormed(l.inside) && Delivers(l, l') && l.answered[|l.inside.replies|].slot < MAX_REQUEST_COUNT
    ensures WellFormed(l'.inside) && Work(l') == Work(l) - multiset{l.answered[|l.inside.replies|]}
  {
    DeliverKeepsForm(l, l');
    hide Spoke, JobsOf, Packets;
    SpokeKeeps(l.toProxy, l'.toProxy);
    NextSplits(l.answered, |l.inside.replies|);
  }

  lemma NextInWork(l: Link)
    requires WellFormed(l.inside) && |l.inside.replies| < |l.answered|
    ensures l.answered[|l.inside.replies|] in Work(l)
  {
    assert l.answered[|l.inside.replies|..][0] == l.answered[|l.inside.replies|];
  }

  /** A reply is given, and the slot is free again. */
  lemma DeliverWork(l: Link, l': Link)
    requires WorkOk(l) && Delivers(l, l')
    ensures WorkOk(l')
  {
    var s, work, j := l.inside, Work(l), l.answered[|l.inside.replies|];
    hide Work, Placed, Counted, WellFormed, Spoke;
    NextInWork(l);
    PlacedOnce(work, s.free, s.requests, j);
    DeliverMoves(l, l');
    DeliverPlaces(work, s.free, s.requests, j);
    DeliverCounts(work, s.replies, s.accepted, j, |s.replies|);
  }

  lemma ProxyReadsWork(l: Link, l': Link)
    requires WorkOk(l) && l.toProxy != [] && l'.inside == l.inside && l'.answered == l.answered
    requires l'.toProxy == l.toProxy[1..]
    requires l'.outside == if l.toProxy[0].Packet? then l.outside + [l.toProxy[0].job] else l.outside
    ensures WorkOk(l')
  {
    hide Placed, Counted;
    assert Work(l') == Work(l);
  }

  lemma AnswerWork(l: Link, l': Link, i: nat)
    requires WorkOk(l) && i < |l.outside| && l'.inside == l.inside && l'.toProxy == l.toProxy
    requires l'.outside == l.outside[..i] + l.outside[i + 1..] && l'.answered == l.answered + [l.outside[i]]
    ensures WorkOk(l')
  {
    hide Placed, Counted;
    assert l.outside == l.outside[..i] + [l.outside[i]] + l.outside[i + 1..];
    var n := |l.inside.replies|;
    assert l'.answered[n..] == l.answered[n..] + [l.outside[i]];
    assert Work(l') == Work(l);
  }

  // ---- the steps ----

  lemma MovedSpoke(l: Link, s: Inside)
    requires s.out == l.inside.out || exists h :: s.out == l.inside.out + [Control(h)]
    ensures Spoke(l.toProxy, Moved(l, s).toProxy)
  {
    if s.out == l.inside.out {
      assert s.out[|l.inside.out|..] == [];
      assert l.toProxy + [] == l.toProxy;
    } else {
      var h :| s.out == l.inside.out + [Control(h)];
      assert s.out[|l.inside.out|..] == [Control(h)];
    }
  }

  lemma ClientSendsKeeps(l: Link)
    requires LinkOk(l)
    ensures Ready(l) && LinkOk(Step(l, ClientSends))
  {
    hide Agreed, Placed, Counted, ProxyEngine.Inv, Work, Requested, ViewOf;
    OkIsReady(l);
    var l' := Step(l, ClientSends);
    ClientSendsView(l);
    RequestedAgrees(ViewOf(l));
    MovedSpoke(l, Accept(l.inside));
    if |l.inside.free| > 1 {
      ClientSendsWork(l, l');
    } else {
      NothingMoves(l, l');
    }
  }

  lemma WrittenMoves(s: Inside)
    ensures var s' := Written(s); s' == s.(pstate := s'.pstate, out := s'.out)
    ensures Written(s).out == s.out || exists h :: Written(s).out == s.out + [Control(h)]
  {
  }

  lemma WriteEndsKeeps(l: Link)
    requires LinkOk(l)
    ensures Ready(l) && LinkOk(Step(l, WriteEnds))
  {
    hide Agreed, WorkOk, ProxyEngine.Inv, Ended, ViewOf, Written, Spoke;
    OkIsReady(l);
    WriteEndsView(l);
    EndedAgrees(ViewOf(l));
    WrittenMoves(l.inside);
    MovedSpoke(l, Written(l.inside));
    NothingMoves(l, Step(l, WriteEnds));
  }

  predicate Takes(s: Inside, t: ProxyEngine.Entry) {
    t.Data? && (s.pstate == Receiving || s.pstate == IReceiving)
  }

  /** Only the next request sent out and a reply to a client change more than the state. */
  lemma ReceivedIs(s: Inside, t: ProxyEngine.Entry, both: bool, slot: nat)
    requires WellFormed(s) && CanRead(s, t) && slot < MAX_REQUEST_COUNT
    ensures var s' := Received(s, t, both, slot);
            if t.Ack? && s.pstate == TransmitPrep then s' == Transmit(s)
            else
              && (s'.out == s.out || exists h :: s'.out == s.out + [Control(h)])
              && if Takes(s, t)
                 then s' == s.(pstate := s'.pstate, out := s'.out, free := s.free + [slot], replies := s.replies + [Reply(s.requests[slot], t.no)])
                 else s' == s.(pstate := s'.pstate, out := s'.out)
  {
  }

  /** Reading a record of either kind. */
  lemma ReceivedWork(l: Link, l': Link, t: ProxyEngine.Entry, both: bool, slot: nat)
    requires WorkOk(l) && CanRead(l.inside, t) && slot < MAX_REQUEST_COUNT
    requires l'.outside == l.outside && l'.answered == l.answered
    requires l'.inside == Received(l.inside, t, both, slot)
    requires l'.toProxy == Moved(l, l'.inside).toProxy
    requires t.Data? ==> |l.inside.replies| < |l.answered| && slot == l.answered[|l.inside.replies|].slot && t.no == |l.inside.replies|
    ensures WorkOk(l')
    ensures if Takes(l.inside, t)
            then l'.inside.replies == l.inside.replies + [Reply(l.answered[t.no].no, t.no)]
            else l'.inside.replies == l.inside.replies
  {
    hide Received, Work, Placed, Counted, Spoke;
    var s, s' := l.inside, l'.inside;
    ReceivedIs(s, t, both, slot);
    if t.Ack? && s.pstate == TransmitPrep {
      assert s'.out[|s.out|..] == [Packet(Job(s.waiting[0], s.requests[s.waiting[0]]))];
      TransmitWork(l, l');
    } else {
      MovedSpoke(l, s');
      if Takes(s, t) {
        NextInWork(l);
        PlacedOnce(Work(l), s.free, s.requests, l.answered[t.no]);
        DeliverWork(l, l');
      } else {
        NothingMoves(l, l');
      }
    }
  }

  lemma HostReadsKeeps(l: Link, behind: bool)
    requires LinkOk(l)
    ensures Ready(l) && LinkOk(Step(l, HostReads(behind)))
  {
    hide Agreed, WorkOk, ProxyEngine.Inv, HostRead, ViewOf, Received;
    OkIsReady(l);
    HostReadsView(l, behind);
    HostReadAgrees(ViewOf(l), behind);
    if l.toHost != [] {
      var t, both := l.toHost[0], behind && Together(l);
      var l' := Step(l, HostReads(behind));
      ReceivedWork(l, l', t, both, SlotOf(l, t));
      assert forall k :: 0 <= k < |l'.toHost| ==> l'.toHost[k] in l.toHost;
    }
  }

  lemma NothingFinished(v: View)
    requires Agreed(v) && !v.toProxy.Empty? && v.sending
    ensures v.toProxy.k in {KAck, KSend} && v.toHost.Empty? && v.lead == 1
  {
  }

  /** What the outside proxy has to do with its responses when it reads a record. */
  lemma EngineStep(e: ProxyEngine.Engine, w: Write)
    requires ProxyEngine.Inv(e) && KindOfWrite(w) != KOther
    ensures var e' := ProxyEngine.Step(e, RecordOf(w));
            && e'.enqueued == e.enqueued && (e'.finished == e.finished || e.sending)
            && forall t :: t in Says(e, RecordOf(w)) && t.Data? ==> t.no == |e'.finished| < |e.enqueued|
  {
    hide ProxyEngine.Dedup, ProxyEngine.SentUpTo;
    var i := RecordOf(w);
    ProxyEngine.StepKeeps(e, i);
    var e' := ProxyEngine.Step(e, i);
    if w == Control(ProxyEngine.HostSendPacket) && e'.queue != [] {
      assert e'.queue[0] == e'.enqueued[|e'.finished|] == |e'.finished|;
    }
  }

  lemma ProxyReadsKeeps(l: Link)
    requires LinkOk(l)
    ensures Ready(l) && LinkOk(Step(l, ProxyReads))
  {
    hide Agreed, Placed, Counted, ProxyEngine.Inv, Work, ProxyRead, ViewOf, Says, Sent, ProxyEngine.Step;
    OkIsReady(l);
    ProxyReadsView(l);
    ProxyReadAgrees(ViewOf(l));
    if l.toProxy != [] {
      var w, l' := l.toProxy[0], Step(l, ProxyReads);
      ProxyReadsWork(l, l');
      ProxyEngine.StepKeeps(l.engine, RecordOf(w));
      EngineStep(l.engine, w);
      SentIs(l.engine, RecordOf(w));
      if l.engine.sending {
        LineEmpty(l);
      }
    }
  }

  /** While a response is under way, the outside proxy reads its answer, and there is nothing on the line to the inside. */
  lemma LineEmpty(l: Link)
    requires LinkOk(l) && l.toProxy != [] && l.engine.sending
    ensures l.toHost == [] && KindOfWrite(l.toProxy[0]) in {KAck, KSend}
  {
    hide Agreed, Placed, Counted, ProxyEngine.Inv, Work;
    NoJam(ViewOf(l));
    ProxyPopped(l.toProxy);
    NothingFinished(ViewOf(l));
  }

  lemma OutsideShows(l: Link)
    ensures ViewOf(l).outside == |l.outside|
  {
  }

  lemma AnswerKeeps(l: Link, i: nat)
    requires LinkOk(l)
    ensures Ready(l) && LinkOk(Step(l, Answer(i)))
  {
    hide Agreed, Placed, Counted, ProxyEngine.Inv, Work, Responded, ViewOf, Sent;
    OkIsReady(l);
    AnswerView(l, i);
    if i < |l.outside| {
      OutsideShows(l);
      RespondedAgrees(ViewOf(l));
      AnswerWork(l, Step(l, Answer(i)), i);
      ProxyEngine.StepKeeps(l.engine, ProxyEngine.Respond);
      SentIs(l.engine, ProxyEngine.Respond);
    }
  }

  lemma StepKeeps(l: Link, ev: Event)
    requires LinkOk(l)
    ensures Ready(l) && LinkOk(Step(l, ev))
  {
    hide LinkOk, Step;
    match ev
    case ClientSends => ClientSendsKeeps(l);
    case WriteEnds => WriteEndsKeeps(l);
    case HostReads(behind) => HostReadsKeeps(l, behind);
    case ProxyReads => ProxyReadsKeeps(l);
    case Answer(i) => AnswerKeeps(l, i);
  }

  lemma StartOk()
    ensures LinkOk(Start())
  {
    var l := Start();
    assert Work(l) == multiset{};
    SlotsOnce(l.inside.free);
  }

  /** In the ring of all slots each slot is there once. */
  lemma SlotsOnce(free: seq<nat>)
    requires free == AllSlots()
    ensures forall x: nat :: x < MAX_REQUEST_COUNT ==> multiset(free)[x] == 1
  {
    forall x: nat | x < MAX_REQUEST_COUNT
      ensures multiset(free)[x] == 1
    {
      var i := if x == 0 then MAX_REQUEST_COUNT - 1 else x - 1;
      assert free == free[..i] + [free[i]] + free[i + 1..];
      assert x !in free[..i] && x !in free[i + 1..];
    }
  }

  // ---- all runs ----

  ghost function Run(l: Link, evs: seq<Event>): Link
    requires LinkOk(l)
    decreases |evs|
  {
    if evs == [] then l
    else
      StepKeeps(l, evs[0]);
      Run(Step(l, evs[0]), evs[1..])
  }

  lemma {:induction false} RunKeeps(l: Link, evs: seq<Event>)
    requires LinkOk(l)
    ensures LinkOk(Run(l, evs))
    decreases |evs|
  {
    hide LinkOk, Step;
    if evs != [] {
      StepKeeps(l, evs[0]);
      RunKeeps(Step(l, evs[0]), evs[1..]);
    }
  }

  /** What the outside proxy is told in a run. */
  ghost function InputsOf(l: Link, evs: seq<Event>): seq<ProxyEngine.Input>
    requires LinkOk(l)
    decreases |evs|
  {
    if evs == [] then []
    else
      StepKeeps(l, evs[0]);
      InputOf(l, evs[0]) + InputsOf(Step(l, evs[0]), evs[1..])
  }

  function InputOf(l: Link, ev: Event): seq<ProxyEngine.Input> {
    match ev
    case ProxyReads => if l.toProxy == [] then [] else [RecordOf(l.toProxy[0])]
    case Answer(i) => if i < |l.outside| then [ProxyEngine.Respond] else []
    case _ => []
  }

  /** One event: the outside proxy takes its input, and the inside proxy has answered what was sent. */
  lemma HostAnswers(l: Link, ev: Event)
    requires LinkOk(l)
    ensures Ready(l) && var e, i := l.engine, InputOf(l, ev);
            if i == [] then Step(l, ev).engine == e else Step(l, ev).engine == ProxyEngine.Step(e, i[0]) && ProxyEngine.Answers(e, i[0])
  {
    hide Agreed, WorkOk, RepliesOk, DataOk, ProxyEngine.Inv, ProxyEngine.Step;
    OkIsReady(l);
    if ev == ProxyReads && l.toProxy != [] && l.engine.sending {
      LineEmpty(l);
    }
  }

  /**
   In every run the inside proxy is a host that answers each data packet before it sends anything
   else: collisions of the handshakes and resets never come between.
   */
  lemma {:induction false} InsideProxyAnswers(l: Link, evs: seq<Event>)
    requires LinkOk(l)
    ensures var inputs := InputsOf(l, evs);
            ProxyEngine.Answering(l.engine, inputs) && ProxyEngine.Run(l.engine, inputs) == Run(l, evs).engine
    decreases |evs|
  {
    hide LinkOk, Step, ProxyEngine.Step, ProxyEngine.Answers;
    if evs != [] {
      var i := InputOf(l, evs[0]);
      StepKeeps(l, evs[0]);
      HostAnswers(l, evs[0]);
      InsideProxyAnswers(Step(l, evs[0]), evs[1..]);
      var rest := InputsOf(Step(l, evs[0]), evs[1..]);
      if i == [] {
        assert i + rest == rest;
      } else {
        assert i == [i[0]] && (i + rest)[0] == i[0] && (i + rest)[1..] == rest;
      }
    }
  }

  /** Each response is transmitted once, in order, in all runs of both proxies. */
  lemma TransmittedOnce(evs: seq<Event>)
    ensures LinkOk(Start())
    ensures var e := Run(Start(), evs).engine;
            && e.transmitted <= e.enqueued && Distinct(e.transmitted)
            && |e.transmitted| == |e.finished| + if e.sending then 1 else 0
  {
    StartOk();
    hide LinkOk, Step;
    InsideProxyAnswers(Start(), evs);
    var start, inputs := Start().engine, InputsOf(Start(), evs);
    ProxyEngine.DialedStarts();
    ProxyEngine.DialedOnce(ProxyEngine.INITIAL);
    ProxyEngine.AnsweringHostGetsEachOnce(start, start, inputs);
    ProxyEngine.RunsConserve(start, inputs);
    var e := Run(Start(), evs).engine;
    assert e.transmitted[0..] == e.transmitted && e.finished[0..] == e.finished;
  }

  lemma LeadIs(v: View)
    requires Agreed(v)
    ensures v.lead == if v.sending && v.toHost.Empty? && !v.toProxy.Empty? && v.toProxy.k in {KAck, KSend} then 1 else 0
  {
  }

  lemma LineLengths(l: Link)
    requires LinkOk(l)
    ensures |l.toHost| <= 2 && |l.toProxy| <= 3
  {
    hide Agreed, WorkOk, ProxyEngine.Inv, RepliesOk, DataOk, ToHostLine, ToProxyLine;
    NoJam(ViewOf(l));
    LinesAre(l.toHost, l.toProxy);
  }

  lemma LinesAre(toHost: seq<ProxyEngine.Entry>, toProxy: seq<Write>)
    ensures !ToHostLine(toHost).Jam? && !ToHostLine(toHost).Three? ==> |toHost| <= 2
    ensures !ToProxyLine(toProxy).Jam? ==> |toProxy| <= 3
  {
    hide KindOf, KindOfWrite;
  }

  /**
   In all runs of both proxies, whatever the order in which clients send, programs answer and
   records are written and read: the n-th reply is made of the n-th response and goes to the request
   that response answers; no request gets two replies, and each one accepted has got its reply or is
   in exactly one place; no slot is used for two requests. Each response was transmitted once before
   its reply, and at most one is under way; never more than three records are on the way.
   */
  lemma EachRequestOnce(evs: seq<Event>)
    ensures LinkOk(Start())
    ensures var l := Run(Start(), evs); var s, e := l.inside, l.engine;
            && WellFormed(s) && |s.replies| <= |l.answered| == |e.enqueued|
            && (forall n :: 0 <= n < |s.replies| ==> s.replies[n] == Reply(l.answered[n].no, n))
            && Counted(Work(l), s.replies, s.accepted) && Placed(Work(l), s.free, s.requests)
            && |e.finished| <= |s.replies| <= |e.transmitted| <= |s.replies| + 1
            && e.transmitted <= e.enqueued && Distinct(e.transmitted)
            && |l.toHost| <= 2 && |l.toProxy| <= 3
  {
    TransmittedOnce(evs);
    hide Start, Agreed, Placed, Counted, ProxyEngine.Inv, Distinct;
    RunKeeps(Start(), evs);
    LeadIs(ViewOf(Run(Start(), evs)));
    LineLengths(Run(Start(), evs));
  }

  /** When a response is read there is room for its slot in the ring of free ones. */
  lemma RoomForSlot(l: Link)
    requires LinkOk(l) && l.toHost != [] && l.toHost[0].Data?
    ensures |l.inside.free| + |l.inside.waiting| < MAX_REQUEST_COUNT
  {
    hide Agreed, Counted, ProxyEngine.Inv;
    DataIsNext(l);
    var n := |l.inside.replies|;
    assert |multiset(JobsOf(l.inside.waiting, l.inside.requests))| == |l.inside.waiting|;
    assert |multiset(l.answered[n..])| == |l.answered| - n;
  }

  // ---- the runs of the table ----

  lemma StepShows(l: Link, ev: Event)
    requires LinkOk(l)
    ensures Ready(l) && LinkOk(Step(l, ev)) && Agreed(ViewOf(l)) && ViewOf(Step(l, ev)) == Next(ViewOf(l), ev)
  {
    StepKeeps(l, ev);
    hide Agreed, WorkOk, RepliesOk, DataOk, ProxyEngine.Inv, Step, ViewOf, ToHostLine, ToProxyLine, HostRead, Requested, Ended, ProxyRead, Responded;
    OkIsReady(l);
    OutsideShows(l);
    match ev
    case ClientSends => ClientSendsView(l);
    case WriteEnds => WriteEndsView(l);
    case HostReads(behind) => HostReadsView(l, behind);
    case ProxyReads => ProxyReadsView(l);
    case Answer(i) => AnswerView(l, i);
  }

  lemma {:induction false} RunShows(l: Link, evs: seq<Event>)
    requires LinkOk(l)
    ensures LinkOk(Run(l, evs)) && ViewOf(Run(l, evs)) == RunOf(ViewOf(l), evs)
    decreases |evs|
  {
    hide LinkOk, Step, ViewOf, Next;
    if evs != [] {
      StepShows(l, evs[0]);
      RunShows(Step(l, evs[0]), evs[1..]);
    }
  }

  lemma StartShows()
    ensures LinkOk(Start()) && ViewOf(Start()) == STARTED
  {
    StartOk();
  }

  lemma {:induction false} RunJoins(l: Link, evs: seq<Event>, more: seq<Event>)
    requires LinkOk(l)
    ensures LinkOk(Run(l, evs)) && Run(l, evs + more) == Run(Run(l, evs), more)
    decreases |evs|
  {
    hide LinkOk, Step;
    if evs == [] {
      assert evs + more == more;
    } else {
      assert (evs + more)[1..] == evs[1..] + more;
      StepKeeps(l, evs[0]);
      RunJoins(Step(l, evs[0]), evs[1..], more);
    }
  }

  /** The records on the lines show in the view. */
  lemma HostLineShows(s: seq<ProxyEngine.Entry>)
    ensures ToHostLine(s).Empty? <==> s == []
    ensures ToHostLine(s) == One(KAck) <==> |s| == 1 && s[0].Ack?
    ensures ToHostLine(s) == Two(KAck, KWant) <==> |s| == 2 && s[0].Ack? && s[1].WantSend?
    ensures !ToHostLine(s).Empty? && !ToHostLine(s).Jam? ==> ToHostLine(s).k == KindOf(s[0])
  {
  }

  lemma ProxyLineShows(s: seq<Write>)
    ensures ToProxyLine(s).Empty? <==> s == []
    ensures ToProxyLine(s) == One(KAck) <==> s == [Control(ProxyEngine.HostAck)]
  {
    if ToProxyLine(s) == One(KAck) {
      assert s == [s[0]];
    }
  }

  // ---- what can go wrong ----

  predicate Quiet(l: Link) {
    l.toProxy == [] && l.toHost == []
  }

  /** The inside proxy waits for an ACK, or the outside one for a SEND-PACKET, that will not come. */
  predicate Stuck(l: Link) {
    && Quiet(l)
    && (l.inside.pstate in {ITransmitPrep, TransmitPrep} || (l.inside.pstate in {ITransmitting, Transmitting} && l.engine.pendingRequestSend))
  }

  /**
   Read before the end of the write it answers, and ignored, with no other record on its way: the
   ACK of an announcement, or that of a packet together with the WANT-SEND behind it.
   */
  predicate LosesAck(l: Link, ev: Event) {
    && ev.HostReads? && l.toProxy == []
    && ((l.inside.pstate == ITransmitPrep && |l.toHost| == 1 && l.toHost[0].Ack?)
        || (l.inside.pstate == ITransmitting && ev.behind && |l.toHost| == 2 && Together(l)))
  }

  /** The inside proxy is idle, nothing is on its way, and responses are left. */
  predicate Stalled(l: Link) {
    Quiet(l) && l.inside.pstate in {IIdle, Idle} && l.engine.queue != []
  }

  /** An ACK finishes a response while another is queued. */
  predicate LeavesOver(l: Link, ev: Event) {
    ev.ProxyReads? && l.toProxy == [Control(ProxyEngine.HostAck)] && l.engine.sending && |l.engine.queue| > 1
  }

  /** A client's request is announced. */
  predicate Announces(l: Link, ev: Event) {
    || (ev.ClientSends? && l.inside.pstate == Idle && |l.inside.free| > 1)
    || (ev.WriteEnds? && l.inside.pstate == IIdle && l.inside.waiting != [])
  }

  /**
   Announcements and resets follow each other: the answer to the announcement is taken for that to
   the reset, so the next request is announced, and the answer to the reset leads to another reset.
   */
  predicate Storming(l: Link) {
    StormView(ViewOf(l))
  }

  /** A request is announced while a packet is unanswered, or a WANT-SEND is read before the end of an announcement. */
  predicate Collides(l: Link, ev: Event) {
    CollidesView(ViewOf(l), ev)
  }

  /** The inside proxy ignores an ACK, as the write of its reset has not ended. */
  predicate SkipsAck(l: Link, ev: Event) {
    ev.HostReads? && l.inside.pstate == IReset && l.toHost != [] && l.toHost[0].Ack?
  }

  datatype Trouble = Deadlock | Stall | ResetStorm

  predicate Suffers(t: Trouble, l: Link) {
    match t
    case Deadlock => Stuck(l)
    case Stall => Stalled(l)
    case ResetStorm => Storming(l)
  }

  predicate Begins(t: Trouble, l: Link, ev: Event) {
    match t
    case Deadlock => LosesAck(l, ev)
    case Stall => LeavesOver(l, ev)
    case ResetStorm => Collides(l, ev)
  }

  predicate Ends(t: Trouble, l: Link, ev: Event) {
    match t
    case Deadlock => false
    case Stall => Announces(l, ev)
    case ResetStorm => SkipsAck(l, ev)
  }

  /** The same in the view. */
  lemma TroubleShows(l: Link, ev: Event)
    requires Agreed(ViewOf(l))
    ensures var v := ViewOf(l);
            && (Stuck(l) <==> StuckView(v)) && (LosesAck(l, ev) <==> ev.HostReads? && LastAckView(v, ev.behind))
            && (Stalled(l) <==> StalledView(v)) && (LeavesOver(l, ev) <==> ev.ProxyReads? && LeavesView(v))
            && (Announces(l, ev) <==> AnnouncesView(v, ev))
            && (SkipsAck(l, ev) <==> ev.HostReads? && SkipsView(v))
  {
    hide Agreed, ToHostLine, ToProxyLine;
    HostLineShows(l.toHost);
    ProxyLineShows(l.toProxy);
    NoJam(ViewOf(l));
  }

  lemma TroubleStep(t: Trouble, l: Link, ev: Event)
    requires LinkOk(l)
    ensures Ready(l) && LinkOk(Step(l, ev))
    ensures Suffers(t, Step(l, ev)) <==> Begins(t, l, ev) || (Suffers(t, l) && !Ends(t, l, ev))
  {
    hide LinkOk, Step, ViewOf, Agreed, Next, Stuck, Stalled, LosesAck, LeavesOver, Announces, SkipsAck,
      StuckView, LastAckView, StalledView, LeavesView, AnnouncesView, StormView, CollidesView, SkipsView;
    StepShows(l, ev);
    StepShows(Step(l, ev), ev);
    TroubleShows(l, ev);
    TroubleShows(Step(l, ev), ev);
    match t
    case Deadlock => StuckNext(ViewOf(l), ev);
    case Stall => StalledNext(ViewOf(l), ev);
    case ResetStorm => StormNext(ViewOf(l), ev);
  }

  /** No event of the run ends it. */
  ghost predicate NeverEnds(t: Trouble, l: Link, evs: seq<Event>)
    requires LinkOk(l)
    decreases |evs|
  {
    evs == [] || (!Ends(t, l, evs[0]) && (StepKeeps(l, evs[0]); NeverEnds(t, Step(l, evs[0]), evs[1..])))
  }

  /** Some event of the run begins it, and none after that ends it. */
  ghost predicate BeginsFor(t: Trouble, l: Link, evs: seq<Event>)
    requires LinkOk(l)
    decreases |evs|
  {
    evs != [] &&
    (StepKeeps(l, evs[0]);
     BeginsFor(t, Step(l, evs[0]), evs[1..]) || (Begins(t, l, evs[0]) && NeverEnds(t, Step(l, evs[0]), evs[1..])))
  }

  /** When exactly a run ends with the proxies waiting for each other, with responses left over, or amid resets. */
  lemma {:induction false} TroubleIff(t: Trouble, l: Link, evs: seq<Event>)
    requires LinkOk(l)
    ensures Suffers(t, Run(l, evs)) <==> BeginsFor(t, l, evs) || (Suffers(t, l) && NeverEnds(t, l, evs))
    decreases |evs|
  {
    hide LinkOk, Step, Suffers, Begins, Ends;
    if evs != [] {
      TroubleStep(t, l, evs[0]);
      TroubleIff(t, Step(l, evs[0]), evs[1..]);
    }
  }

  // ---- for ever ----

  ghost predicate LosesAnAck(l: Link, evs: seq<Event>)
    requires LinkOk(l)
    decreases |evs|
  {
    evs != [] && (LosesAck(l, evs[0]) || (StepKeeps(l, evs[0]); LosesAnAck(Step(l, evs[0]), evs[1..])))
  }

  /** A run ends with the proxies waiting for each other if and only if such an ACK is lost in it. */
  lemma {:induction false} StuckIffAckLost(l: Link, evs: seq<Event>)
    requires LinkOk(l)
    ensures Stuck(Run(l, evs)) <==> Stuck(l) || LosesAnAck(l, evs)
    decreases |evs|
  {
    hide LinkOk, Step, Stuck, LosesAck;
    if evs != [] {
      TroubleStep(Deadlock, l, evs[0]);
      StuckIffAckLost(Step(l, evs[0]), evs[1..]);
    }
  }

  lemma {:induction false} PacketsCounted(line: seq<Write>)
    requires !ToProxyLine(line).Jam?
    ensures |Packets(line)| == PacketsOn(ToProxyLine(line))
  {
    hide ToProxyLine;
    ProxyLineShows(line);
    if line != [] {
      ProxyPopped(line);
      PacketsCounted(line[1..]);
    }
  }

  /** The view tells how many requests have no reply. */
  lemma UnrepliedShows(l: Link)
    requires LinkOk(l)
    ensures var v, s := ViewOf(l), l.inside; Unreplied(v) == s.accepted - |s.replies| && v.spare + Unreplied(v) == MAX_REQUEST_COUNT
  {
    OkIsReady(l);
    hide Agreed, DataOk, ProxyEngine.SentUpTo, ProxyEngine.Dedup;
    PacketsCounted(l.toProxy);
    WorkCounted(l);
  }

  lemma WorkCounted(l: Link)
    requires WellFormed(l.inside) && |l.inside.replies| <= |l.answered|
    ensures |Work(l)| == |l.inside.waiting| + |Packets(l.toProxy)| + |l.outside| + |l.answered| - |l.inside.replies|
  {
    hide Packets;
    assert |multiset(JobsOf(l.inside.waiting, l.inside.requests))| == |l.inside.waiting|;
    assert |multiset(l.answered[|l.inside.replies|..])| == |l.answered| - |l.inside.replies|;
  }

  predicate AllReplied(l: Link) {
    l.inside.accepted == |l.inside.replies|
  }

  /** Unless they wait for each other, the proxies can get all requests replied to. */
  lemma {:induction false} Finishing(l: Link) returns (evs: seq<Event>)
    requires LinkOk(l) && !Stuck(l)
    ensures DoneView(ViewOf(Run(l, evs)))
    decreases Level(ViewOf(l)), Unanswered(ViewOf(l)), Unreplied(ViewOf(l)), ViewOf(l).waiting, Rank(ViewOf(l))
  {
    hide LinkOk, Step, ViewOf, Agreed, Next, Stuck, LosesAck, StuckView, LastAckView, Scheduled, DoneView,
      Level, Unanswered, Unreplied, Rank;
    var v := ViewOf(l);
    if DoneView(v) {
      evs := [];
    } else {
      var ev := Scheduled(v);
      StepShows(l, ev);
      TroubleShows(l, ev);
      TroubleStep(Deadlock, l, ev);
      ScheduledAdvances(v);
      ScheduledLosesNothing(v);
      StepShows(Step(l, ev), ev);
      UnrepliedIs(v);
      UnrepliedIs(ViewOf(Step(l, ev)));
      var rest := Finishing(Step(l, ev));
      evs := [ev] + rest;
      assert evs[1..] == rest;
    }
  }

  lemma DoneReplied(l: Link)
    requires LinkOk(l) && DoneView(ViewOf(l))
    ensures AllReplied(l) && Ready(l) && !Quiet(Step(l, ClientSends))
  {
    hide LinkOk, Step, ViewOf, Agreed, Next, DoneView, Unreplied;
    StepShows(l, ClientSends);
    UnrepliedShows(l);
    DoneIs(ViewOf(l));
    QuietShows(Step(l, ClientSends));
  }

  lemma QuietShows(l: Link)
    ensures Quiet(l) <==> QuietView(ViewOf(l))
  {
    hide ToHostLine, ToProxyLine;
    HostLineShows(l.toHost);
    ProxyLineShows(l.toProxy);
  }

  lemma StuckUnreplied(l: Link)
    requires LinkOk(l) && Stuck(l)
    ensures Quiet(l) && !AllReplied(l)
  {
    hide LinkOk, Step, ViewOf, Agreed, Next, Unreplied;
    StepShows(l, ClientSends);
    TroubleShows(l, ClientSends);
    StuckIsUnreplied(ViewOf(l));
    UnrepliedShows(l);
  }

  /** Whatever happens, no record comes any more. */
  ghost predicate Dead(l: Link)
    requires LinkOk(l)
  {
    forall evs :: Quiet(Run(l, evs))
  }

  /** Requests that were accepted and those still to come can get their replies. */
  ghost predicate CanFinish(l: Link)
    requires LinkOk(l)
  {
    exists evs :: AllReplied(Run(l, evs))
  }

  /** Being stuck is for ever, and nothing else is. */
  lemma DeadIffStuck(l: Link)
    requires LinkOk(l)
    ensures Dead(l) <==> Stuck(l)
    ensures CanFinish(l) <==> !Stuck(l)
  {
    hide LinkOk, Step, Stuck, Quiet, AllReplied, ViewOf, LosesAck, DoneView;
    if Stuck(l) {
      forall evs
        ensures Quiet(Run(l, evs)) && !AllReplied(Run(l, evs))
      {
        RunKeeps(l, evs);
        StuckIffAckLost(l, evs);
        StuckUnreplied(Run(l, evs));
      }
    } else {
      var evs := Finishing(l);
      RunKeeps(l, evs);
      DoneReplied(Run(l, evs));
      RunJoins(l, evs, [ClientSends]);
      RunsOne(Run(l, evs), ClientSends);
      assert !Quiet(Run(l, evs + [ClientSends]));
    }
  }

  lemma RunsOne(l: Link, ev: Event)
    requires LinkOk(l)
    ensures Ready(l) && Run(l, [ev]) == Step(l, ev)
  {
    hide LinkOk, Step;
    StepKeeps(l, ev);
    assert [ev][1..] == [];
  }

  /** It can happen to the first request of a client: the answer to its announcement, or to its packet, comes too early. */
  lemma AckCanBeLost()
    ensures LinkOk(Start())
    ensures Stuck(Run(Start(), WELCOMED + ANNOUNCE_EARLY)) && Stuck(Run(Start(), WELCOMED + PACKET_EARLY))
  {
    hide LinkOk, Step, Start, ViewOf, Stuck, StuckView, RunOf;
    StartShows();
    TheyCanBeStuck();
    StuckRun(Start(), WELCOMED + ANNOUNCE_EARLY);
    StuckRun(Start(), WELCOMED + PACKET_EARLY);
  }

  lemma StuckRun(l: Link, evs: seq<Event>)
    requires LinkOk(l)
    ensures Stuck(Run(l, evs)) <==> StuckView(RunOf(ViewOf(l), evs))
  {
    hide LinkOk, Step, Start, ViewOf, Stuck, StuckView, RunOf;
    RunShows(l, evs);
    StepShows(Run(l, evs), ClientSends);
    TroubleShows(Run(l, evs), ClientSends);
  }

  // ---- while a write has not ended ----

  /** An ACK is read before the end of the write it answers. */
  predicate ReadsEarly(l: Link, ev: Event) {
    && ev.HostReads? && l.toHost != [] && l.toHost[0].Ack?
    && (l.inside.pstate == ITransmitPrep || l.inside.pstate == ITransmitting)
  }

  ghost predicate Prompt(l: Link, evs: seq<Event>)
    requires LinkOk(l)
    decreases |evs|
  {
    evs == [] || (!ReadsEarly(l, evs[0]) && (StepKeeps(l, evs[0]); Prompt(Step(l, evs[0]), evs[1..])))
  }

  lemma EarlyShows(l: Link, ev: Event)
    requires Agreed(ViewOf(l))
    ensures ReadsEarly(l, ev) <==> ev.HostReads? && EarlyView(ViewOf(l))
  {
    hide Agreed, ToHostLine, ToProxyLine;
    HostLineShows(l.toHost);
    NoJam(ViewOf(l));
  }

  lemma {:induction false} PromptShows(l: Link, evs: seq<Event>)
    requires LinkOk(l)
    ensures Prompt(l, evs) <==> PromptOf(ViewOf(l), evs)
    decreases |evs|
  {
    hide LinkOk, Step, ViewOf, Next, ReadsEarly, EarlyView;
    if evs != [] {
      StepShows(l, evs[0]);
      EarlyShows(l, evs[0]);
      PromptShows(Step(l, evs[0]), evs[1..]);
    }
  }

  lemma QuietIs(l: Link)
    requires LinkOk(l) && Quiet(l) && !WaitsView(ViewOf(l))
    ensures l.inside.pstate in {IWelcome, IIdle, Idle}
  {
    hide LinkOk, Agreed, WaitsView, ToHostLine, ToProxyLine;
    StepShows(l, ClientSends);
    QuietShows(l);
    QuietIsIdle(ViewOf(l));
  }

  /**
   If every write has ended before its answer is read, the proxies never wait for each other: with
   nothing on the way the inside proxy is idle, or about to be.
   */
  lemma {:induction false} QuietMeansIdle(l: Link, evs: seq<Event>)
    requires LinkOk(l) && !WaitsView(ViewOf(l)) && Prompt(l, evs)
    ensures Quiet(Run(l, evs)) ==> Run(l, evs).inside.pstate in {IWelcome, IIdle, Idle}
    decreases |evs|
  {
    hide LinkOk, Step, WaitsView, ViewOf, ReadsEarly, EarlyView, Next;
    if evs == [] {
      if Quiet(l) { QuietIs(l); }
    } else {
      StepShows(l, evs[0]);
      EarlyShows(l, evs[0]);
      WaitsNext(ViewOf(l), evs[0]);
      QuietMeansIdle(Step(l, evs[0]), evs[1..]);
    }
  }

  lemma PromptFromStart(evs: seq<Event>)
    ensures LinkOk(Start())
    ensures Prompt(Start(), evs) && Quiet(Run(Start(), evs)) ==> Run(Start(), evs).inside.pstate in {IWelcome, IIdle, Idle}
  {
    hide LinkOk, Step, Start, ViewOf;
    StartShows();
    if Prompt(Start(), evs) {
      QuietMeansIdle(Start(), evs);
    }
  }

  // ---- responses left over, and resets ----

  /** Responses left over are sent as soon as a request is announced: one of a client, unless one waits already. */
  lemma LeftAreSent(l: Link)
    requires LinkOk(l) && Stalled(l)
    ensures var l' := Run(l, Serving(ViewOf(l))); |l'.toHost| == 1 && l'.toHost[0].Data?
  {
    hide LinkOk, Step, Stalled, StalledView, Serving, Next, RunOf;
    StepShows(l, ClientSends);
    TroubleShows(l, ClientSends);
    StalledIsServed(ViewOf(l));
    RunShows(l, Serving(ViewOf(l)));
    OneData(Run(l, Serving(ViewOf(l))).toHost);
  }

  lemma OneData(s: seq<ProxyEngine.Entry>)
    ensures ToHostLine(s).One? && ToHostLine(s).k in {KLast, KMore} ==> |s| == 1 && s[0].Data?
  {
  }

  lemma RepliesStay(s: Inside, t: ProxyEngine.Entry, both: bool, slot: nat)
    requires WellFormed(s)
    ensures Accept(s).replies == s.replies && Written(s).replies == s.replies
    ensures CanRead(s, t) && s.pstate != Receiving && s.pstate != IReceiving ==> Received(s, t, both, slot).replies == s.replies
  {
  }

  lemma StormIs(l: Link)
    requires Storming(l)
    ensures !Quiet(l) && l.inside.pstate in {ITransmitPrep, TransmitPrep, IReset, Reset}
  {
    hide ToHostLine, ToProxyLine, StormView;
    QuietShows(l);
    StormState(ViewOf(l));
  }

  lemma NoReply(l: Link, ev: Event)
    requires LinkOk(l) && Storming(l)
    ensures Ready(l) && Step(l, ev).inside.replies == l.inside.replies
  {
    hide LinkOk, Storming, ViewOf, Received, Accept, Written, Sent, ProxyEngine.Step, WellFormed, CanRead;
    StepKeeps(l, ev);
    StormIs(l);
    var t := if l.toHost == [] then ProxyEngine.Ack else l.toHost[0];
    RepliesStay(l.inside, t, ev.HostReads? && ev.behind && Together(l), SlotOf(l, t));
  }

  /** As long as no ACK is skipped, the resets go on, and no client gets a reply. */
  lemma {:induction false} StormStarves(l: Link, evs: seq<Event>)
    requires LinkOk(l) && Storming(l) && NeverEnds(ResetStorm, l, evs)
    ensures Storming(Run(l, evs)) && Run(l, evs).inside.replies == l.inside.replies && !Quiet(Run(l, evs))
    decreases |evs|
  {
    hide LinkOk, Step, Storming;
    if evs == [] {
      StormIs(l);
    } else {
      TroubleStep(ResetStorm, l, evs[0]);
      NoReply(l, evs[0]);
      StormStarves(Step(l, evs[0]), evs[1..]);
    }
  }

  /** Both happen though every write has ended before its answer is read. */
  lemma PromptIsNotEnough()
    ensures LinkOk(Start())
    ensures Prompt(Start(), WELCOMED + TWO_SENT + LEAVING) && Stalled(Run(Start(), WELCOMED + TWO_SENT + LEAVING))
    ensures Prompt(Start(), WELCOMED + ANNOUNCED_TWICE + COLLIDING) && Storming(Run(Start(), WELCOMED + ANNOUNCED_TWICE + COLLIDING))
  {
    hide LinkOk, Step, Start, ViewOf, Stalled, StalledView, StormView, RunOf;
    StartShows();
    TheyHappen();
    var left, collided := WELCOMED + TWO_SENT + LEAVING, WELCOMED + ANNOUNCED_TWICE + COLLIDING;
    PromptShows(Start(), left);
    RunShows(Start(), left);
    StepShows(Run(Start(), left), ClientSends);
    TroubleShows(Run(Start(), left), ClientSends);
    PromptShows(Start(), collided);
    RunShows(Start(), collided);
  }
}
