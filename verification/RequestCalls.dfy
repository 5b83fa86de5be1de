/**
 What each call of the client's API does, from the call to its return, whatever response interrupts
 come between its statements: stated by the request before and after, not by the statements.
 */
module RequestCalls {
  import opened Bytes
  import opened RequestPool
  import opened RequestWaits

  /** The inputs up to the first return to the program. */
  ghost predicate Returns(s: State, inputs: seq<Input>)
    requires Inv(s)
    decreases |inputs|
  {
    if s.pc.Idle? then inputs == []
    else inputs != [] && (StepKeeps(s, inputs[0]); Returns(Step(s, inputs[0]), inputs[1..]))
  }

  /** A request as it was, or with the reply to it. */
  predicate Onward(r: Request, r': Request, replies: map<nat, Reply>) {
    r' == r || (r.Pending() && r.msgId in replies && r' == Answered(r, replies[r.msgId]))
  }

  /** All requests but `h` are as they were, or have got their replies. */
  ghost predicate OthersOnward(p: Pool, p': Pool, h: nat) {
    |p.reqs| <= |p'.reqs| && forall k :: 0 <= k < |p.reqs| && k != h ==> Onward(p.reqs[k], p'.reqs[k], p'.replies)
  }

  // ---- before and after ----

  /** The request that ncf_010 hands out: the newest free one, or one more. */
  predicate MadeAt(reqs: seq<Request>, h: nat) {
    && h <= |reqs| && (h < |reqs| ==> reqs[h].msgId == MID_FREE)
    && forall k :: 0 <= k < |reqs| && (k > h || h == |reqs|) ==> reqs[k].msgId != MID_FREE
  }

  function Blank(reqs: seq<Request>, h: nat): Request {
    if h < |reqs| then reqs[h].(dataLen := 0) else BLANK
  }

  ghost predicate Created(s0: State, s: State, word1: nat, word2: nat) {
    && s.result.Handle? && MadeAt(s0.pool.reqs, s.result.h) && s.result.h < |s.pool.reqs|
    && OthersOnward(s0.pool, s.pool, s.result.h)
    && s.pool.reqs[s.result.h] == Blank(s0.pool.reqs, s.result.h).(msgId := MID_NEW, word1 := word1, word2 := word2)
  }

  /** Nothing happens but that `rc` is returned. */
  predicate Refused(s0: State, s: State, rc: int) {
    s.pool == s0.pool && s.result == Rc(rc)
  }

  /** A request under way with its next number. */
  function Numbered(s0: State, h: nat): Request
    requires h < |s0.pool.reqs|
  {
    s0.pool.reqs[h].(msgId := s0.pool.lastMsgId + 1, sentAs := s0.pool.lastMsgId + 1)
  }

  /** Given back by VMCF, under way, or replied to and taken back. */
  ghost predicate SentBy(s0: State, s: State, h: nat, wait: bool)
    requires h < |s0.pool.reqs|
  {
    var id := s0.pool.lastMsgId + 1;
    && h < |s.pool.reqs| && OthersOnward(s0.pool, s.pool, h) && s.pool.lastMsgId == id && s.result.Rc?
    && if s.result.rc <= VMCF && s.pool.reqs[h].msgId == MID_NEW
       then s.result.rc < VMCF && s.pool.reqs[h] == s0.pool.reqs[h].(sentAs := id)
       else if !wait then s.result.rc == 0 && Onward(Numbered(s0, h), s.pool.reqs[h], s.pool.replies)
       else
         && id in s.pool.replies && s.result.rc == RcOf(s.pool.replies[id])
         && s.pool.reqs[h] == Answered(Numbered(s0, h), s.pool.replies[id]).(msgId := MID_RTRN)
  }

  /** The reply to a request that was sent is taken, with its return code. */
  ghost predicate Taken(s0: State, s: State, h: nat)
    requires h < |s0.pool.reqs|
  {
    var r, id := s0.pool.reqs[h], s0.pool.reqs[h].sentAs;
    && h < |s.pool.reqs| && OthersOnward(s0.pool, s.pool, h)
    && id in s.pool.replies && s.result == Rc(RcOf(s.pool.replies[id]))
    && s.pool.reqs[h] == (if r.Pending() then Answered(r, s.pool.replies[id]) else r).(msgId := MID_RTRN)
  }

  predicate AnyAwaited(reqs: seq<Request>) {
    exists k :: 0 <= k < |reqs| && Awaited(reqs[k])
  }

  /** A received request with the tag of the call, or none before the time is over; refused if and only if there is nothing to wait for. */
  ghost predicate FoundAny(s0: State, s: State, tag: nat) {
    && OthersOnward(s0.pool, s.pool, |s0.pool.reqs|)
    && if !AnyAwaited(s0.pool.reqs) then s.result == Rc(WAITRESP - 3)
       else
         || (s.result == TimedOut && s.timer)
         || (s.result.Handle? && s.result.h < |s.pool.reqs| && s.pool.reqs[s.result.h].msgId == MID_RCVD
             && (tag == 0 || s.pool.reqs[s.result.h].filterTag == tag))
  }

  /** Only request `h` has changed, to `r`. */
  ghost predicate Only(s0: State, s: State, h: nat, r: Request) {
    h < |s.pool.reqs| && OthersOnward(s0.pool, s.pool, h) && s.pool.reqs[h] == r && s.result == Rc(0)
  }

  /** What a call has done when it returns. */
  ghost predicate Done(call: Call, s0: State, s: State) {
    var reqs := s0.pool.reqs;
    match call
    case Create(word1, word2) => Created(s0, s, word1, word2)
    case Load(h, length) =>
      if h >= |reqs| then Refused(s0, s, SETREQDATA - 1)
      else if reqs[h].msgId != MID_NEW then Refused(s0, s, SETREQDATA - 2)
      else Only(s0, s, h, reqs[h].(dataLen := if length <= MAX_PACKET_LEN then length else MAX_PACKET_LEN))
    case Tag(h, tag) =>
      && (h >= |reqs| ==> s.pool == s0.pool)
      && (h < |reqs| ==> h < |s.pool.reqs| && OthersOnward(s0.pool, s.pool, h) && s.pool.reqs[h] == reqs[h].(filterTag := tag))
    case Send(h, wait) =>
      if h >= |reqs| then Refused(s0, s, SENDREQ - 1)
      else if reqs[h].msgId != MID_NEW then Refused(s0, s, SENDREQ - 2)
      else SentBy(s0, s, h, wait)
    case Wait(h) =>
      if h >= |reqs| then Refused(s0, s, WAITRESP - 1)
      else if reqs[h].msgId == MID_RTRN then Only(s0, s, h, reqs[h])
      else if reqs[h].msgId in {MID_FREE, MID_NEW} then OthersOnward(s0.pool, s.pool, |reqs|) && s.result == Rc(WAITRESP - 2)
      else Taken(s0, s, h)
    case WaitAny(tag) => FoundAny(s0, s, tag)
    case Free(h) =>
      if h >= |reqs| then Refused(s0, s, FREEREQ - 1)
      else if reqs[h].Pending() then Refused(s0, s, FREEREQ - 2)
      else Only(s0, s, h, reqs[h].(msgId := MID_FREE))
  }

  // ---- in between ----

  ghost predicate Creating(s0: State, s: State, word1: nat, word2: nat) {
    var reqs0, reqs, n := s0.pool.reqs, s.pool.reqs, |s0.pool.reqs|;
    match s.pc
    case Find(pos, w1, w2) =>
      && w1 == word1 && w2 == word2 && pos <= |reqs| == n && OthersOnward(s0.pool, s.pool, n)
      && forall k :: pos <= k < n ==> reqs0[k].msgId != MID_FREE
    case Fill(h, w1, w2) =>
      && w1 == word1 && w2 == word2 && MadeAt(reqs0, h) && h < |reqs| && OthersOnward(s0.pool, s.pool, h) && reqs[h] == Blank(reqs0, h)
    case MakeNew(h) =>
      && MadeAt(reqs0, h) && h < |reqs| && OthersOnward(s0.pool, s.pool, h)
      && reqs[h] == Blank(reqs0, h).(word1 := word1, word2 := word2)
    case _ => false
  }

  ghost predicate Sending(s0: State, s: State, h: nat, wait: bool) {
    && h < |s0.pool.reqs| <= |s.pool.reqs| && OthersOnward(s0.pool, s.pool, h) && s0.pool.reqs[h].msgId == MID_NEW
    && (if s.pc.Number? then s.pool.lastMsgId == s0.pool.lastMsgId else s.pool.lastMsgId == s0.pool.lastMsgId + 1)
    && match s.pc
       case Number(g, w) => g == h && w == wait && s.pool.reqs[h] == s0.pool.reqs[h]
       case Submit(g, w) => g == h && w == wait && s.pool.reqs[h] == Numbered(s0, h)
       case Undo(g, rc) => g == h && rc != 0 && s.pool.reqs[h] == Numbered(s0, h)
       case _ => InWait(s.pc) && s.pc.h == h && wait && Onward(Numbered(s0, h), s.pool.reqs[h], s.pool.replies)
  }

  ghost predicate Waiting(s0: State, s: State, h: nat) {
    && h < |s0.pool.reqs| <= |s.pool.reqs| && OthersOnward(s0.pool, s.pool, |s0.pool.reqs|)
    && InWait(s.pc) && s.pc.h == h && (s.pc.IsReturned? || s.pc.IsSent? || Awaited(s0.pool.reqs[h]))
  }

  ghost predicate WaitingAny(s0: State, s: State, tag: nat) {
    && OthersOnward(s0.pool, s.pool, |s0.pool.reqs|) && |s.pool.reqs| == |s0.pool.reqs|
    && match s.pc
       case AnyPending(pos, t) => t == tag && forall k :: pos <= k < |s0.pool.reqs| ==> !Awaited(s0.pool.reqs[k])
       case SetFilter(t) => t == tag && AnyAwaited(s0.pool.reqs)
       case Restore(found) => s.filter == tag && AnyAwaited(s0.pool.reqs) && (found.None? ==> s.timer)
       case _ => (s.pc.Again? || s.pc.Scan? || s.pc.BlockedAny? || s.pc.ClearAny?) && s.filter == tag && AnyAwaited(s0.pool.reqs)
  }

  ghost predicate Freeing(s0: State, s: State, h: nat) {
    s.pc == Release(h) && h < |s0.pool.reqs| && !s0.pool.reqs[h].Pending() && OthersOnward(s0.pool, s.pool, |s0.pool.reqs|)
  }

  ghost predicate Doing(call: Call, s0: State, s: State) {
    match call
    case Create(word1, word2) => Creating(s0, s, word1, word2)
    case Send(h, wait) => Sending(s0, s, h, wait)
    case Wait(h) => Waiting(s0, s, h)
    case WaitAny(tag) => WaitingAny(s0, s, tag)
    case Free(h) => Freeing(s0, s, h)
    case _ => false
  }

  lemma EnterDoes(s: State, call: Call)
    requires Inv(s) && s.pc.Idle?
    ensures var s' := EnterCall(s, call); if s'.pc.Idle? then Done(call, s, s') else Doing(call, s, s')
  {
  }

  // ---- responses ----

  /** A response leaves all onward. */
  lemma OthersStayOnward(p0: Pool, s: State, id: nat, reply: Reply, h: nat)
    requires Inv(s) && id in s.pool.inFlight && PoolOk(p0, None) && OthersOnward(p0, s.pool, h)
    ensures OthersOnward(p0, Interrupt(s, id, reply).pool, h)
  {
    var p' := Interrupt(s, id, reply).pool;
    DeliverKeeps(s.pool, Busy(s.pc), id, reply);
    IdFound(s.pool, Busy(s.pc), id);
    forall k | 0 <= k < |p0.reqs| && k != h
      ensures Onward(p0.reqs[k], p'.reqs[k], p'.replies)
    {
      OneStaysOnward(p0.reqs[k], s, id, reply, k);
    }
  }

  lemma OneStaysOnward(r: Request, s: State, id: nat, reply: Reply, k: nat)
    requires Inv(s) && id in s.pool.inFlight && k < |s.pool.reqs| && Onward(r, s.pool.reqs[k], s.pool.replies)
    requires r.Pending() ==> r.sentAs == r.msgId
    ensures var p' := Interrupt(s, id, reply).pool; k < |p'.reqs| && Onward(r, p'.reqs[k], p'.replies)
  {
    hide FindId;
    IdFound(s.pool, Busy(s.pc), id);
    var now := s.pool.reqs[k];
    if now != r {
      assert now.msgId == MID_RCVD && now.sentAs == r.msgId;
      assert Answers(s.pool, k, now);
    }
  }

  /** The request a response is for is neither free nor new nor returned. */
  lemma ResponseIs(s: State, id: nat, reply: Reply)
    requires Inv(s) && id in s.pool.inFlight
    ensures var p, p', h := s.pool, Interrupt(s, id, reply).pool, s.pool.owner[id];
            && h < |p.reqs| && p.reqs[h].Pending() && Busy(s.pc) != Some(h) && p'.reqs == p.reqs[h := Answered(p.reqs[h], reply)]
            && p'.lastMsgId == p.lastMsgId
    ensures var s' := Interrupt(s, id, reply); s'.pc == s.pc && s'.filter == s.filter && s'.timer == s.timer
  {
    DeliverKeeps(s.pool, Busy(s.pc), id, reply);
    IdFound(s.pool, Busy(s.pc), id);
  }

  lemma ResponseDoes(call: Call, s0: State, s: State, id: nat, reply: Reply)
    requires Inv(s0) && s0.pc.Idle? && Inv(s) && !s.pc.Idle? && id in s.pool.inFlight && Doing(call, s0, s)
    ensures Doing(call, s0, Interrupt(s, id, reply))
  {
    ResponseIs(s, id, reply);
    OthersStay(s0.pool, s, id, reply);
    if call.Send? && InWait(s.pc) {
      SentStaysOnward(s0, s, id, reply, call.h);
    }
    hide Interrupt, Inv, OthersOnward, Onward, MadeAt, AnyAwaited, Answered;
  }

  lemma OthersStay(p0: Pool, s: State, id: nat, reply: Reply)
    requires Inv(s) && id in s.pool.inFlight && PoolOk(p0, None)
    ensures forall h: nat :: OthersOnward(p0, s.pool, h) ==> OthersOnward(p0, Interrupt(s, id, reply).pool, h)
  {
    forall h: nat | OthersOnward(p0, s.pool, h)
      ensures OthersOnward(p0, Interrupt(s, id, reply).pool, h)
    {
      OthersStayOnward(p0, s, id, reply, h);
    }
  }

  lemma SentStaysOnward(s0: State, s: State, id: nat, reply: Reply, h: nat)
    requires Inv(s) && id in s.pool.inFlight && h < |s0.pool.reqs| && h < |s.pool.reqs|
    requires Onward(Numbered(s0, h), s.pool.reqs[h], s.pool.replies)
    ensures var p' := Interrupt(s, id, reply).pool; h < |p'.reqs| && Onward(Numbered(s0, h), p'.reqs[h], p'.replies)
  {
    OneStaysOnward(Numbered(s0, h), s, id, reply, h);
  }

  // ---- statements ----

  /** Either the call goes on, or it has returned and done its work. */
  ghost predicate GoesOn(call: Call, s0: State, s: State) {
    if s.pc.Idle? then Done(call, s0, s) else Doing(call, s0, s)
  }

  /** A statement that leaves all requests but `h` alone. */
  lemma OwnStays(p0: Pool, p: Pool, p': Pool, h: nat)
    requires OthersOnward(p0, p, h) && p'.replies == p.replies && |p.reqs| <= |p'.reqs|
    requires forall k :: 0 <= k < |p.reqs| && k != h ==> p'.reqs[k] == p.reqs[k]
    ensures OthersOnward(p0, p', h)
  {
  }

  lemma AllOnward(p0: Pool, p: Pool, h: nat)
    requires OthersOnward(p0, p, |p0.reqs|)
    ensures OthersOnward(p0, p, h) && (h < |p0.reqs| ==> Onward(p0.reqs[h], p.reqs[h], p.replies))
  {
  }

  lemma CreateDoes(s0: State, s: State, word1: nat, word2: nat)
    requires Inv(s) && InCreate(s.pc) && Creating(s0, s, word1, word2)
    ensures GoesOn(Create(word1, word2), s0, CreateStep(s))
  {
    hide IdsOk, FlightOk, RepliesOk, StatesOk, OthersOnward;
    var s' := CreateStep(s);
    match s.pc
    case Find(pos, _, _) => FindDoes(s0, s, word1, word2);
    case Fill(h, _, _) => OwnStays(s0.pool, s.pool, s'.pool, h);
    case MakeNew(h) => OwnStays(s0.pool, s.pool, s'.pool, h);
  }

  lemma FindDoes(s0: State, s: State, word1: nat, word2: nat)
    requires Inv(s) && s.pc.Find? && Creating(s0, s, word1, word2)
    ensures Creating(s0, CreateStep(s), word1, word2)
  {
    hide IdsOk, FlightOk, RepliesOk, StatesOk, OthersOnward;
    var pos, s', n := s.pc.pos, CreateStep(s), |s0.pool.reqs|;
    if pos == 0 {
      AllOnward(s0.pool, s.pool, n);
      OwnStays(s0.pool, s.pool, s'.pool, n);
    } else {
      AllOnward(s0.pool, s.pool, pos - 1);
      if s.pool.reqs[pos - 1].msgId == MID_FREE {
        OwnStays(s0.pool, s.pool, s'.pool, pos - 1);
      }
    }
  }

  lemma SendDoes(s0: State, s: State, rc: nat, h: nat, wait: bool)
    requires Inv(s) && InSend(s.pc) && Sending(s0, s, h, wait)
    ensures GoesOn(Send(h, wait), s0, SendStep(s, rc))
  {
    hide IdsOk, FlightOk, RepliesOk, StatesOk, OthersOnward;
    OwnStays(s0.pool, s.pool, SendStep(s, rc).pool, h);
  }

  /** The reply to a request is the one to its last transmission. */
  lemma ReplyHeld(s: State, h: nat)
    requires Inv(s) && h < |s.pool.reqs| && s.pool.reqs[h].msgId == MID_RCVD
    ensures var r := s.pool.reqs[h]; r.sentAs in s.pool.replies && r.recvRc == RcOf(s.pool.replies[r.sentAs])
  {
    assert Answers(s.pool, h, s.pool.reqs[h]);
  }

  lemma SendWaitDoes(s0: State, s: State, h: nat)
    requires Inv(s) && InWait(s.pc) && Sending(s0, s, h, true)
    ensures GoesOn(Send(h, true), s0, WaitStep(s))
  {
    hide IdsOk, FlightOk, RepliesOk, StatesOk, OthersOnward, PassedPosted;
    if s.pc.Take? { ReplyHeld(s, h); }
    StatesKnown(s, h);
    assert s.pool.lastMsgId >= MID_PEND by { NumbersAbove(s); }
    OwnStays(s0.pool, s.pool, WaitStep(s).pool, h);
  }

  lemma NumbersAbove(s: State)
    requires Inv(s)
    ensures s.pool.lastMsgId >= MID_PEND
    ensures forall h :: 0 <= h < |s.pool.reqs| && s.pool.reqs[h].Pending() ==> s.pool.reqs[h].sentAs == s.pool.reqs[h].msgId
  {
  }

  lemma StatesKnown(s: State, h: nat)
    requires Inv(s) && h < |s.pool.reqs|
    ensures s.pool.reqs[h].msgId in {MID_FREE, MID_NEW, MID_RCVD, MID_RTRN} || s.pool.reqs[h].Pending()
  {
  }

  lemma WaitDoes(s0: State, s: State, h: nat)
    requires Inv(s0) && Inv(s) && InWait(s.pc) && Waiting(s0, s, h)
    ensures GoesOn(Wait(h), s0, WaitStep(s))
  {
    hide IdsOk, FlightOk, RepliesOk, StatesOk, OthersOnward, PassedPosted;
    AllOnward(s0.pool, s.pool, h);
    StatesKnown(s0, h);
    StatesKnown(s, h);
    NumbersAbove(s0);
    if s.pc.Take? { ReplyHeld(s, h); }
    OwnStays(s0.pool, s.pool, WaitStep(s).pool, h);
  }

  lemma AnyPendingDoes(s0: State, s: State, tag: nat)
    requires Inv(s) && s.pc.AnyPending? && WaitingAny(s0, s, tag)
    ensures GoesOn(WaitAny(tag), s0, WaitAnyStep(s))
  {
    if s.pc.pos > 0 {
      AllOnward(s0.pool, s.pool, s.pc.pos - 1);
      StatesKnown(s, s.pc.pos - 1);
    }
    hide Inv, OthersOnward;
    assert WaitAnyStep(s).pool == s.pool;
  }

  lemma ScanningDoes(s0: State, s: State, tag: nat)
    requires Inv(s) && InWaitAny(s.pc) && !s.pc.AnyPending? && WaitingAny(s0, s, tag)
    ensures GoesOn(WaitAny(tag), s0, WaitAnyStep(s))
  {
    hide IdsOk, FlightOk, RepliesOk, StatesOk, OthersOnward, PassedPosted, AnyAwaited;
    assert WaitAnyStep(s).pool == s.pool;
  }

  lemma WaitAnyDoes(s0: State, s: State, tag: nat)
    requires Inv(s) && InWaitAny(s.pc) && WaitingAny(s0, s, tag)
    ensures GoesOn(WaitAny(tag), s0, WaitAnyStep(s))
  {
    hide *;
    if s.pc.AnyPending? { AnyPendingDoes(s0, s, tag); } else { ScanningDoes(s0, s, tag); }
  }

  lemma FreeDoes(s0: State, s: State, rc: nat, h: nat)
    requires Inv(s) && Freeing(s0, s, h)
    ensures GoesOn(Free(h), s0, StatementStep(s, rc))
  {
    AllOnward(s0.pool, s.pool, h);
    hide IdsOk, FlightOk, RepliesOk, StatesOk, OthersOnward;
    OwnStays(s0.pool, s.pool, StatementStep(s, rc).pool, h);
  }

  lemma StatementDoes(call: Call, s0: State, s: State, rc: nat)
    requires Inv(s0) && Inv(s) && Doing(call, s0, s)
    ensures GoesOn(call, s0, StatementStep(s, rc))
  {
    hide GoesOn, OthersOnward, Inv, CreateStep, SendStep, WaitStep, WaitAnyStep;
    match call
    case Create(word1, word2) => CreateDoes(s0, s, word1, word2);
    case Send(h, wait) => if InSend(s.pc) { SendDoes(s0, s, rc, h, wait); } else { SendWaitDoes(s0, s, h); }
    case Wait(h) => WaitDoes(s0, s, h);
    case WaitAny(tag) => WaitAnyDoes(s0, s, tag);
    case Free(h) => FreeDoes(s0, s, rc, h);
    case _ =>
  }

  lemma TimerDoes(call: Call, s0: State, s: State)
    requires Doing(call, s0, s)
    ensures Doing(call, s0, s.(timer := true))
  {
    hide OthersOnward;
  }

  lemma StepDoes(call: Call, s0: State, s: State, i: Input)
    requires Inv(s0) && s0.pc.Idle? && Inv(s) && !s.pc.Idle? && Doing(call, s0, s)
    ensures GoesOn(call, s0, Step(s, i))
  {
    hide Doing, Done, Inv, StatementStep, Interrupt;
    match i
    case Enter(_) =>
    case Statement(rc) => StatementDoes(call, s0, s, rc);
    case Response(id, reply) =>
      if id in s.pool.inFlight {
        ResponseDoes(call, s0, s, id, reply);
        ResponseGoesOn(s, id, reply);
      }
    case Timer => TimerDoes(call, s0, s);
  }

  lemma ResponseGoesOn(s: State, id: nat, reply: Reply)
    ensures Interrupt(s, id, reply).pc == s.pc
  {
  }

  lemma {:induction false} RunDoes(call: Call, s0: State, s: State, inputs: seq<Input>)
    requires Inv(s0) && s0.pc.Idle? && Inv(s) && GoesOn(call, s0, s) && Returns(s, inputs)
    ensures Done(call, s0, Run(s, inputs))
    decreases |inputs|
  {
    hide Inv, Doing, Done, Step;
    if inputs != [] {
      StepKeeps(s, inputs[0]);
      StepDoes(call, s0, s, inputs[0]);
      RunDoes(call, s0, Step(s, inputs[0]), inputs[1..]);
    }
  }

  /**
   Every call of an idle program has done what it promises when it returns, whatever responses and
   timer interrupts came between its statements, and all other requests are as they were or have
   got their replies.
   */
  lemma CallDoes(call: Call, s: State, inputs: seq<Input>)
    requires Inv(s) && s.pc.Idle?
    ensures Inv(Step(s, Enter(call)))
    ensures Returns(Step(s, Enter(call)), inputs) ==> Done(call, s, Run(Step(s, Enter(call)), inputs))
  {
    hide Done, Doing, Returns, Inv, EnterCall;
    StepKeeps(s, Enter(call));
    EnterDoes(s, call);
    if Returns(Step(s, Enter(call)), inputs) {
      RunDoes(call, s, Step(s, Enter(call)), inputs);
    }
  }

  /** What a call of ncf_037 hands out is a received request with the tag of that call, whatever happens while it waits. */
  lemma AnyFindsMatching(tag: nat, s: State, inputs: seq<Input>)
    requires Inv(s) && s.pc.Idle?
    ensures Inv(Step(s, Enter(WaitAny(tag))))
    ensures var s' := Run(Step(s, Enter(WaitAny(tag))), inputs);
            Returns(Step(s, Enter(WaitAny(tag))), inputs) && s'.result.Handle? ==>
              && s'.result.h < |s'.pool.reqs| && s'.pool.reqs[s'.result.h].msgId == MID_RCVD
              && (tag == 0 || s'.pool.reqs[s'.result.h].filterTag == tag)
  {
    hide Inv, Returns, OthersOnward, EnterCall, Step, Run;
    CallDoes(WaitAny(tag), s, inputs);
  }
}
