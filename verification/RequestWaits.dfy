/**
 The client's API operations statement by statement, interleaved with response interrupts and
 the timer: ids stay unique, pending requests are left alone, and no waiter misses a wake-up.
 */
module RequestWaits {
  import opened Bytes
  import opened RequestPool

  /** The API operations a program calls. */
  datatype Call =
    | Create(word1: nat, word2: nat) // ncf_010
    | Load(h: nat, length: nat)      // ncf_011
    | Tag(h: nat, tag: nat)          // ncf_035
    | Send(h: nat, wait: bool)       // ncf_021
    | Wait(h: nat)                   // ncf_030
    | WaitAny(tag: nat)              // ncf_037 with a timeout
    | Free(h: nat)                   // ncf_050

  /** The next statement of the program. Positions in the list count down to its end. */
  datatype Pc =
    | Idle
    | Find(pos: nat, word1: nat, word2: nat) | Fill(h: nat, word1: nat, word2: nat) | MakeNew(h: nat)
    | Number(h: nat, wait: bool) | Submit(h: nat, wait: bool) | Undo(h: nat, rc: nat)
    | IsReturned(h: nat) | IsSent(h: nat) | Test(h: nat) | Blocked(h: nat) | Clear(h: nat) | Take(h: nat)
    | AnyPending(pos: nat, tag: nat) | SetFilter(tag: nat) | Again | Scan(pos: nat) | BlockedAny | ClearAny
    | Restore(found: Option<nat>)
    | Release(h: nat)

  predicate InCreate(pc: Pc) {
    pc.Find? || pc.Fill? || pc.MakeNew?
  }

  predicate InSend(pc: Pc) {
    pc.Number? || pc.Submit? || pc.Undo?
  }

  predicate InWait(pc: Pc) {
    pc.IsReturned? || pc.IsSent? || pc.Test? || pc.Blocked? || pc.Clear? || pc.Take?
  }

  predicate InWaitAny(pc: Pc) {
    pc.AnyPending? || pc.SetFilter? || pc.Again? || pc.Scan? || pc.BlockedAny? || pc.ClearAny? || pc.Restore?
  }

  datatype Result = Nothing | Rc(rc: int) | Handle(h: nat) | TimedOut

  /** `ecb` and `timer` tell whether the response ECB and the timer ECB are posted. */
  datatype State = State(pool: Pool, filter: nat, ecb: bool, timer: bool, pc: Pc, result: Result)

  datatype Input =
    | Enter(call: Call)                  // the idle program calls an operation
    | Statement(rc: nat)                 // it executes its next statement; `rc` is what VMCF says
    | Response(id: nat, reply: Reply)    // a response interrupt
    | Timer                              // the timer runs out

  const INITIAL := State(Pool([BLANK, BLANK, BLANK, BLANK], 10, map[], {}, map[]), 0, false, false, Idle, Nothing)

  function Return(s: State, result: Result): State {
    s.(pc := Idle, result := result)
  }

  function EnterCall(s: State, call: Call): State {
    var reqs := s.pool.reqs;
    match call
    case Create(word1, word2) => s.(pc := Find(|reqs|, word1, word2))
    case WaitAny(tag) => s.(pc := AnyPending(|reqs|, tag))
    case Load(h, length) =>
      if h >= |reqs| then Return(s, Rc(SETREQDATA - 1))
      else if reqs[h].msgId != MID_NEW then Return(s, Rc(SETREQDATA - 2))
      else Return(s.(pool := Put(s.pool, h, reqs[h].(dataLen := if length > MAX_PACKET_LEN then MAX_PACKET_LEN else length))), Rc(0))
    case Tag(h, tag) =>
      if h >= |reqs| then Return(s, Nothing)
      else Return(s.(pool := Put(s.pool, h, reqs[h].(filterTag := tag))), Nothing)
    case Send(h, wait) =>
      if h >= |reqs| then Return(s, Rc(SENDREQ - 1))
      else if reqs[h].msgId != MID_NEW then Return(s, Rc(SENDREQ - 2))
      else s.(pc := Number(h, wait))
    case Wait(h) =>
      if h >= |reqs| then Return(s, Rc(WAITRESP - 1)) else s.(pc := IsReturned(h))
    case Free(h) =>
      if h >= |reqs| then Return(s, Rc(FREEREQ - 1))
      else if reqs[h].msgId >= MID_PEND then Return(s, Rc(FREEREQ - 2))
      else s.(pc := Release(h))
  }

  /** getRequest and the rest of ncf_010 */
  function CreateStep(s: State): State
    requires InCreate(s.pc) && if s.pc.Find? then s.pc.pos <= |s.pool.reqs| else s.pc.h < |s.pool.reqs|
  {
    var p := s.pool;
    match s.pc
    case Find(pos, word1, word2) =>
      if pos == 0 then
        s.(pool := p.(reqs := p.reqs + [BLANK]), pc := Fill(|p.reqs|, word1, word2))
      else if p.reqs[pos - 1].msgId == MID_FREE then
        s.(pool := Put(p, pos - 1, p.reqs[pos - 1].(dataLen := 0)), pc := Fill(pos - 1, word1, word2))
      else s.(pc := Find(pos - 1, word1, word2))
    case Fill(h, word1, word2) =>
      s.(pool := Put(p, h, p.reqs[h].(word1 := word1, word2 := word2)), pc := MakeNew(h))
    case MakeNew(h) =>
      Return(s.(pool := Put(p, h, p.reqs[h].(msgId := MID_NEW))), Handle(h))
  }

  /** ncf_021 after its checks */
  function SendStep(s: State, rc: nat): State
    requires InSend(s.pc) && s.pc.h < |s.pool.reqs|
  {
    var p := s.pool;
    match s.pc
    case Number(h, wait) => s.(pool := Numbered(p, h), pc := Submit(h, wait))
    case Submit(h, wait) =>
      if rc != 0 then s.(pc := Undo(h, rc))
      else
        var s' := s.(pool := p.(inFlight := p.inFlight + {p.reqs[h].msgId}));
        if wait then s'.(pc := IsReturned(h)) else Return(s', Rc(0))
    case Undo(h, rc) => Return(s.(pool := Put(p, h, p.reqs[h].(msgId := MID_NEW))), Rc(VMCF - rc))
  }

  /** ncf_030 */
  function WaitStep(s: State): State
    requires InWait(s.pc) && s.pc.h < |s.pool.reqs|
  {
    var p, h := s.pool, s.pc.h;
    var id := p.reqs[h].msgId;
    match s.pc
    case IsReturned(_) => if id == MID_RTRN then Return(s, Rc(0)) else s.(pc := IsSent(h))
    case IsSent(_) => if id < MID_RCVD then Return(s, Rc(WAITRESP - 2)) else s.(pc := Test(h))
    case Test(_) => s.(pc := if id != MID_RCVD then Blocked(h) else Take(h))
    case Blocked(_) => if s.ecb then s.(pc := Clear(h)) else s
    case Clear(_) => s.(ecb := false, pc := Test(h))
    case Take(_) => Return(s.(pool := Put(p, h, p.reqs[h].(msgId := MID_RTRN))), Rc(p.reqs[h].recvRc))
  }

  /** ncf_037 */
  function WaitAnyStep(s: State): State
    requires InWaitAny(s.pc)
    requires s.pc.AnyPending? || s.pc.Scan? ==> s.pc.pos <= |s.pool.reqs|
  {
    var reqs := s.pool.reqs;
    match s.pc
    case AnyPending(pos, tag) =>
      if pos == 0 then Return(s, Rc(WAITRESP - 3))
      else if reqs[pos - 1].msgId == MID_RCVD || reqs[pos - 1].msgId >= MID_PEND then s.(pc := SetFilter(tag))
      else s.(pc := AnyPending(pos - 1, tag))
    case SetFilter(tag) => s.(filter := tag, timer := false, pc := Again)
    case Again => s.(pc := if s.timer then Restore(None) else Scan(|reqs|))
    case Scan(pos) =>
      if pos == 0 then s.(pc := BlockedAny)
      else if Matches(reqs[pos - 1], s.filter) then s.(pc := Restore(Some(pos - 1)))
      else s.(pc := Scan(pos - 1))
    case BlockedAny => if s.ecb || s.timer then s.(pc := ClearAny) else s
    case ClearAny => s.(ecb := false, pc := Again)
    case Restore(found) => Return(s.(filter := 0), if found.Some? then Handle(found.value) else TimedOut)
  }

  ghost predicate PcOk(s: State) {
    var reqs, n := s.pool.reqs, |s.pool.reqs|;
    match s.pc
    case Idle => s.filter == 0
    case Find(pos, _, _) => pos <= n && s.filter == 0
    case Fill(h, _, _) => h < n && reqs[h].msgId == MID_FREE && s.filter == 0
    case MakeNew(h) => h < n && reqs[h].msgId == MID_FREE && s.filter == 0
    case Number(h, _) => h < n && reqs[h].msgId == MID_NEW && s.filter == 0
    case Submit(h, _) => h < n && s.filter == 0
    case Undo(h, rc) => h < n && s.filter == 0
    case IsReturned(h) => h < n && s.filter == 0
    case IsSent(h) => h < n && s.filter == 0 && reqs[h].msgId != MID_RTRN
    case Test(h) => h < n && s.filter == 0 && Awaited(reqs[h])
    case Blocked(h) => h < n && s.filter == 0 && Awaited(reqs[h]) && (reqs[h].msgId == MID_RCVD ==> s.ecb)
    case Clear(h) => h < n && s.filter == 0 && Awaited(reqs[h])
    case Take(h) => h < n && s.filter == 0 && reqs[h].msgId == MID_RCVD
    case AnyPending(pos, _) => pos <= n && s.filter == 0
    case SetFilter(_) => s.filter == 0
    case Again => true
    case Scan(pos) => pos <= n && PassedPosted(s, pos)
    case BlockedAny => PassedPosted(s, 0)
    case ClearAny => true
    case Restore(found) => found.Some? ==> found.value < n && Matches(reqs[found.value], s.filter)
    case Release(h) => h < n && !reqs[h].Pending() && s.filter == 0
  }

  predicate Awaited(r: Request) {
    r.msgId == MID_RCVD || r.Pending()
  }

  /** If the scan has passed a response it looks for, the ECB is posted. */
  ghost predicate PassedPosted(s: State, pos: nat) {
    forall k :: pos <= k < |s.pool.reqs| && Matches(s.pool.reqs[k], s.filter) ==> s.ecb
  }

  /** The ids used by the program and the interrupt handler are even and small, or above MID_PEND. */
  predicate StatesOk(p: Pool) {
    forall h :: 0 <= h < |p.reqs| ==> p.reqs[h].msgId in {MID_FREE, MID_NEW, MID_RCVD, MID_RTRN} || p.reqs[h].Pending()
  }

  /** The request the program has numbered but VMCF not yet taken. */
  function Busy(pc: Pc): Option<nat> {
    match pc
    case Submit(h, _) => Some(h)
    case Undo(h, _) => Some(h)
    case _ => None
  }

  ghost predicate Inv(s: State) {
    PoolOk(s.pool, Busy(s.pc)) && StatesOk(s.pool) && PcOk(s)
  }

  ghost function Step(s: State, i: Input): State
    requires Inv(s)
  {
    match i
    case Enter(call) => if s.pc.Idle? then EnterCall(s, call) else s
    case Statement(rc) => StatementStep(s, rc)
    case Response(id, reply) => if id in s.pool.inFlight then Interrupt(s, id, reply) else s
    case Timer => s.(timer := true)
  }

  ghost function StatementStep(s: State, rc: nat): State
    requires Inv(s)
  {
    if InCreate(s.pc) then CreateStep(s)
    else if InSend(s.pc) then SendStep(s, rc)
    else if InWait(s.pc) then WaitStep(s)
    else if InWaitAny(s.pc) then WaitAnyStep(s)
    else if s.pc.Release? then Return(s.(pool := Put(s.pool, s.pc.h, s.pool.reqs[s.pc.h].(msgId := MID_FREE))), Rc(0))
    else s
  }

  /** The interrupt handler: the response goes to its request, and the ECB is posted unless filtered out. */
  function Interrupt(s: State, id: nat, reply: Reply): State {
    match FindId(s.pool.reqs, id)
    case None => s
    case Some(h) =>
      s.(pool := Deliver(s.pool, id, reply),
         ecb := s.ecb || s.filter == 0 || s.pool.reqs[h].filterTag == s.filter)
  }

  lemma EnterKeeps(s: State, call: Call)
    requires Inv(s) && s.pc.Idle?
    ensures Inv(EnterCall(s, call))
  {
    hide IdsOk, FlightOk, RepliesOk;
    var p, s' := s.pool, EnterCall(s, call);
    if call.Load? && call.h < |p.reqs| && p.reqs[call.h].msgId == MID_NEW {
      PutKeeps(p, None, call.h, s'.pool.reqs[call.h]);
    } else if call.Tag? && call.h < |p.reqs| {
      TagKeeps(p, None, call.h, call.tag);
    } else {
      assert s'.pool == p;
    }
    assert PoolOk(s'.pool, None);
    assert PcOk(s');
  }

  lemma CreateKeeps(s: State)
    requires Inv(s) && InCreate(s.pc)
    ensures Inv(CreateStep(s))
  {
    hide IdsOk, FlightOk, RepliesOk;
    var p := s.pool;
    match s.pc
    case Find(pos, word1, word2) =>
      if pos == 0 {
        GrowKeeps(p);
      } else if p.reqs[pos - 1].msgId == MID_FREE {
        PutKeeps(p, None, pos - 1, p.reqs[pos - 1].(dataLen := 0));
      }
    case Fill(h, word1, word2) => PutKeeps(p, None, h, p.reqs[h].(word1 := word1, word2 := word2));
    case MakeNew(h) => PutKeeps(p, None, h, p.reqs[h].(msgId := MID_NEW));
  }

  lemma SendKeeps(s: State, rc: nat)
    requires Inv(s) && InSend(s.pc)
    ensures Inv(SendStep(s, rc))
  {
    hide IdsOk, FlightOk, RepliesOk;
    var p, h := s.pool, s.pc.h;
    match s.pc
    case Number(_, _) => NumberKeeps(p, h);
    case Submit(_, _) => AcceptKeeps(p, h);
    case Undo(_, _) => PutKeeps(p, Some(h), h, p.reqs[h].(msgId := MID_NEW));
  }

  lemma WaitKeeps(s: State)
    requires Inv(s) && InWait(s.pc)
    ensures Inv(WaitStep(s))
  {
    hide IdsOk, FlightOk, RepliesOk;
    var p, h := s.pool, s.pc.h;
    if s.pc.Take? {
      TakeKeeps(p, h);
    }
  }

  lemma WaitAnyKeeps(s: State)
    requires Inv(s) && InWaitAny(s.pc)
    ensures Inv(WaitAnyStep(s))
  {
    hide IdsOk, FlightOk, RepliesOk;
    var s' := WaitAnyStep(s);
    assert s'.pool == s.pool && Busy(s.pc) == Busy(s'.pc) == None;
    assert PcOk(s');
  }

  /** Receiving a pending request moves no statement and leaves the program's own requests alone. */
  lemma ReceivedKeepsPc(s: State, s': State, h: nat)
    requires PcOk(s) && h < |s.pool.reqs| == |s'.pool.reqs| && s.pool.reqs[h].Pending()
    requires s'.pc == s.pc && s'.filter == s.filter && s'.pool.reqs == s.pool.reqs[h := s'.pool.reqs[h]]
    requires s'.pool.reqs[h].msgId == MID_RCVD && s'.pool.reqs[h].filterTag == s.pool.reqs[h].filterTag
    requires s'.ecb == (s.ecb || Matches(s'.pool.reqs[h], s.filter))
    ensures PcOk(s')
  {
  }

  lemma InterruptKeeps(s: State, id: nat, reply: Reply)
    requires Inv(s) && id in s.pool.inFlight
    ensures Inv(Interrupt(s, id, reply))
  {
    DeliverKeeps(s.pool, Busy(s.pc), id, reply);
    ReceivedKeepsPc(s, Interrupt(s, id, reply), s.pool.owner[id]);
  }

  lemma StepKeeps(s: State, i: Input)
    requires Inv(s)
    ensures Inv(Step(s, i))
  {
    match i
    case Enter(call) => if s.pc.Idle? { EnterKeeps(s, call); }
    case Response(id, reply) => if id in s.pool.inFlight { InterruptKeeps(s, id, reply); }
    case Timer =>
    case Statement(rc) =>
      if InCreate(s.pc) {
        CreateKeeps(s);
      } else if InSend(s.pc) {
        SendKeeps(s, rc);
      } else if InWait(s.pc) {
        WaitKeeps(s);
      } else if InWaitAny(s.pc) {
        WaitAnyKeeps(s);
      } else if s.pc.Release? {
        PutKeeps(s.pool, None, s.pc.h, s.pool.reqs[s.pc.h].(msgId := MID_FREE));
      }
  }

  ghost function Run(s: State, inputs: seq<Input>): State
    requires Inv(s)
    decreases |inputs|
  {
    if inputs == [] then s
    else
      StepKeeps(s, inputs[0]);
      Run(Step(s, inputs[0]), inputs[1..])
  }

  lemma {:induction false} RunKeeps(s: State, inputs: seq<Input>)
    requires Inv(s)
    ensures Inv(Run(s, inputs))
    decreases |inputs|
  {
    if inputs != [] {
      StepKeeps(s, inputs[0]);
      RunKeeps(Step(s, inputs[0]), inputs[1..]);
    }
  }

  lemma InitialOk()
    ensures Inv(INITIAL)
  {
  }

  /** In every reachable state the pending ids are above MID_PEND, not above the last one given out, and pairwise distinct. */
  lemma PendingIdsUnique(inputs: seq<Input>)
    ensures var p := Run(INITIAL, inputs).pool;
            forall g, h :: 0 <= g < h < |p.reqs| && p.reqs[g].Pending() && p.reqs[h].Pending() ==>
              MID_PEND < p.reqs[g].msgId <= p.lastMsgId && p.reqs[g].msgId != p.reqs[h].msgId
  {
    RunKeeps(INITIAL, inputs);
    var s := Run(INITIAL, inputs);
    forall g, h | 0 <= g < h < |s.pool.reqs| && s.pool.reqs[g].Pending() && s.pool.reqs[h].Pending()
      ensures s.pool.reqs[g].msgId != s.pool.reqs[h].msgId
    {
      PendingIdsDiffer(s.pool, Busy(s.pc), g, h);
    }
  }

  /**
   No lost wake-up, in every run: whoever waits in ncf_030 while its response has come, or in
   ncf_037 while a response with its tag has come, finds the ECB posted.
   */
  lemma NoLostWakeUp(inputs: seq<Input>)
    ensures var s := Run(INITIAL, inputs);
            && (s.pc.Blocked? && s.pc.h < |s.pool.reqs| && s.pool.reqs[s.pc.h].msgId == MID_RCVD ==> s.ecb)
            && (s.pc.BlockedAny? && (exists k :: 0 <= k < |s.pool.reqs| && Matches(s.pool.reqs[k], s.filter)) ==> s.ecb)
  {
    RunKeeps(INITIAL, inputs);
  }

  /** Same request, but for its filter tag. */
  predicate SameButTag(r: Request, r': Request) {
    r' == r.(filterTag := r'.filterTag)
  }

  /** The transmitted request `id` is where it was, unanswered. */
  ghost predicate Untouched(p: Pool, p': Pool, id: nat)
    requires id in p.owner && p.owner[id] < |p.reqs|
  {
    |p.reqs| <= |p'.reqs| && id in p'.inFlight && SameButTag(p.reqs[p.owner[id]], p'.reqs[p.owner[id]])
  }

  lemma EnterLeaves(s: State, call: Call, id: nat)
    requires Inv(s) && id in s.pool.inFlight && s.pc.Idle?
    ensures Untouched(s.pool, EnterCall(s, call).pool, id)
  {
  }

  lemma CreateLeaves(s: State, id: nat)
    requires Inv(s) && InCreate(s.pc) && id in s.pool.inFlight
    ensures Untouched(s.pool, CreateStep(s).pool, id)
  {
    hide RepliesOk;
    assert s.pool.reqs[s.pool.owner[id]].msgId == id;
  }

  lemma SendLeaves(s: State, rc: nat, id: nat)
    requires Inv(s) && InSend(s.pc) && id in s.pool.inFlight
    ensures Untouched(s.pool, SendStep(s, rc).pool, id)
  {
    hide RepliesOk;
    assert s.pool.reqs[s.pool.owner[id]].msgId == id;
  }

  lemma StatementLeaves(s: State, rc: nat, id: nat)
    requires Inv(s) && id in s.pool.inFlight
    ensures Untouched(s.pool, StatementStep(s, rc).pool, id)
  {
    var h := s.pool.owner[id];
    assert s.pool.reqs[h].msgId == id && Busy(s.pc) != Some(h);
    if InCreate(s.pc) {
      CreateLeaves(s, id);
    } else if InSend(s.pc) {
      SendLeaves(s, rc, id);
    } else if InWait(s.pc) {
      WaitLeaves(s, id);
    } else if InWaitAny(s.pc) {
      assert WaitAnyStep(s).pool == s.pool;
    }
  }

  lemma WaitLeaves(s: State, id: nat)
    requires Inv(s) && InWait(s.pc) && id in s.pool.inFlight
    ensures Untouched(s.pool, WaitStep(s).pool, id)
  {
    assert s.pool.reqs[s.pool.owner[id]].msgId == id;
  }

  /**
   A transmitted request is neither freed nor reused nor changed by anything but its own response;
   its own response makes it received and leaves every other request alone.
   */
  lemma OnlyItsResponse(s: State, i: Input, id: nat)
    requires Inv(s) && id in s.pool.inFlight
    ensures var p, p', h := s.pool, Step(s, i).pool, s.pool.owner[id];
            && h < |p.reqs| && p.reqs[h].msgId == id
            && (if i.Response? && i.id == id
                then |p'.reqs| == |p.reqs| && p'.reqs[h] == Answered(p.reqs[h], i.reply)
                     && forall k :: 0 <= k < |p.reqs| && k != h ==> p'.reqs[k] == p.reqs[k]
                else Untouched(p, p', id))
  {
    match i
    case Enter(call) => if s.pc.Idle? { EnterLeaves(s, call, id); }
    case Statement(rc) => StatementLeaves(s, rc, id);
    case Response(other, reply) =>
      if other in s.pool.inFlight {
        DeliverKeeps(s.pool, Busy(s.pc), other, reply);
      }
    case Timer =>
  }

  /** A completed wait returns the return code of the reply to the last transmission of that request, and its data are in place. */
  lemma WaitGetsItsReply(s: State, rc: nat)
    requires Inv(s) && s.pc.Take?
    ensures var r := s.pool.reqs[s.pc.h];
            && r.sentAs in s.pool.replies && Step(s, Statement(rc)).result == Rc(RcOf(s.pool.replies[r.sentAs]))
            && Holds(Step(s, Statement(rc)).pool.reqs[s.pc.h], s.pool.replies[r.sentAs])
  {
  }

  /** Statements until a waiter in ncf_030 whose response has come is through. */
  function StepsLeft(pc: Pc): nat {
    match pc
    case IsReturned(_) => 6
    case IsSent(_) => 5
    case Blocked(_) => 4
    case Clear(_) => 3
    case Test(_) => 2
    case Take(_) => 1
    case _ => 0
  }

  /** Once the response has come, the waiter gets through: each statement brings it nearer, and no interrupt throws it back. */
  lemma WaiterGetsThrough(s: State, i: Input)
    requires Inv(s) && InWait(s.pc) && s.pool.reqs[s.pc.h].msgId == MID_RCVD
    ensures var s' := Step(s, i);
            if i.Statement? then StepsLeft(s'.pc) < StepsLeft(s.pc)
            else s'.pc == s.pc && s'.pool.reqs[s.pc.h].msgId == MID_RCVD
  {
    if i.Response? && i.id in s.pool.inFlight {
      DeliverKeeps(s.pool, Busy(s.pc), i.id, i.reply);
    }
  }

  /** The nearest response in front of the scan, counted from its position. */
  ghost predicate MatchBelow(s: State, pos: nat) {
    exists k :: 0 <= k < pos <= |s.pool.reqs| && Matches(s.pool.reqs[k], s.filter)
  }

  /** Statements until a waiter in ncf_037 for whom a response has come is through. */
  ghost function AnyStepsLeft(s: State): nat {
    var n := |s.pool.reqs|;
    match s.pc
    case Scan(pos) => if MatchBelow(s, pos) then pos + 2 else n + 7 + pos
    case BlockedAny => n + 5
    case ClearAny => n + 4
    case Again => n + 3
    case Restore(_) => 1
    case _ => 0
  }

  /** The same for the scanning wait; no response and no timer throws it back. */
  lemma AnyWaiterGetsThrough(s: State, i: Input)
    requires Inv(s) && (s.pc.Again? || s.pc.Scan? || s.pc.BlockedAny? || s.pc.ClearAny? || s.pc.Restore?)
    requires MatchBelow(s, |s.pool.reqs|)
    ensures var s' := Step(s, i);
            if i.Statement? then AnyStepsLeft(s') < AnyStepsLeft(s)
            else s'.pc == s.pc && MatchBelow(s', |s'.pool.reqs|) && AnyStepsLeft(s') <= AnyStepsLeft(s)
  {
    hide IdsOk, FlightOk, RepliesOk, StatesOk;
    if i.Statement? {
      AnyStatementHelps(s, i.rc);
    } else if i.Response? && i.id in s.pool.inFlight {
      AnyResponseHelps(s, i.id, i.reply);
    }
  }

  lemma AnyStatementHelps(s: State, rc: nat)
    requires Inv(s) && (s.pc.Again? || s.pc.Scan? || s.pc.BlockedAny? || s.pc.ClearAny? || s.pc.Restore?)
    requires MatchBelow(s, |s.pool.reqs|)
    ensures AnyStepsLeft(StatementStep(s, rc)) < AnyStepsLeft(s)
  {
    hide IdsOk, FlightOk, RepliesOk, StatesOk;
  }

  lemma AnyResponseHelps(s: State, id: nat, reply: Reply)
    requires Inv(s) && id in s.pool.inFlight
    ensures var s' := Interrupt(s, id, reply);
            && s'.pc == s.pc && AnyStepsLeft(s') <= AnyStepsLeft(s)
            && (MatchBelow(s, |s.pool.reqs|) ==> MatchBelow(s', |s'.pool.reqs|))
  {
    hide MatchBelow, IdsOk, FlightOk, RepliesOk, StatesOk;
    DeliverKeeps(s.pool, Busy(s.pc), id, reply);
    MatchesStay(s, id, reply, |s.pool.reqs|);
    if s.pc.Scan? {
      MatchesStay(s, id, reply, s.pc.pos);
    }
  }

  /** A response changes no request that was answered before. */
  lemma MatchesStay(s: State, id: nat, reply: Reply, pos: nat)
    requires Inv(s) && id in s.pool.inFlight
    ensures MatchBelow(s, pos) ==> MatchBelow(Interrupt(s, id, reply), pos)
  {
    DeliverKeeps(s.pool, Busy(s.pc), id, reply);
    var h := s.pool.owner[id];
    assert s.pool.reqs[h].msgId == id > MID_PEND;
    if MatchBelow(s, pos) {
      var k :| 0 <= k < pos <= |s.pool.reqs| && Matches(s.pool.reqs[k], s.filter);
      assert k != h && Interrupt(s, id, reply).pool.reqs[k] == s.pool.reqs[k];
    }
  }

  /** Statements until a waiter in ncf_037 whose time is over is through. */
  function TimedStepsLeft(pc: Pc): nat {
    match pc
    case Scan(pos) => pos + 5
    case BlockedAny => 4
    case ClearAny => 3
    case Again => 2
    case Restore(_) => 1
    case _ => 0
  }

  /** Once the timer has run out, the scanning wait gets through with or without a response. */
  lemma TimedOutGetsThrough(s: State, i: Input)
    requires Inv(s) && s.timer && (s.pc.Again? || s.pc.Scan? || s.pc.BlockedAny? || s.pc.ClearAny? || s.pc.Restore?)
    ensures var s' := Step(s, i); s'.timer && if i.Statement? then TimedStepsLeft(s'.pc) < TimedStepsLeft(s.pc) else s'.pc == s.pc
  {
    hide IdsOk, FlightOk, RepliesOk, StatesOk;
  }

  function Statements(n: nat): seq<Input> {
    seq(n, _ => Statement(0))
  }

  lemma OneStatement(s: State, n: nat)
    requires Inv(s) && n > 0
    ensures Inv(StatementStep(s, 0)) && Run(s, Statements(n)) == Run(StatementStep(s, 0), Statements(n - 1))
  {
    StepKeeps(s, Statement(0));
    assert Statements(n)[0] == Statement(0) && Statements(n)[1..] == Statements(n - 1);
  }

  /** Statements ncf_010 takes from a position of its search. */
  function CreateLength(reqs: seq<Request>, pos: nat): nat {
    match FindId(reqs, MID_FREE)
    case Some(h) => if h < pos then pos - h + 2 else 0
    case None => pos + 3
  }

  lemma FillCompletes(s: State, h: nat, word1: nat, word2: nat)
    requires Inv(s) && s.pc == Fill(h, word1, word2)
    ensures var s', reqs := Run(s, Statements(2)), s.pool.reqs;
            && s'.pc.Idle? && s'.result == Handle(h)
            && s'.pool.reqs == reqs[h := reqs[h].(word1 := word1, word2 := word2, msgId := MID_NEW)]
  {
    OneStatement(s, 2);
    var s1 := StatementStep(s, 0);
    OneStatement(s1, 1);
    assert s1.pc == MakeNew(h);
    assert Statements(0) == [];
  }

  /** The search of ncf_010 comes to its end. */
  lemma FoundStep(s: State, pos: nat, word1: nat, word2: nat)
    requires Inv(s) && s.pc == Find(pos, word1, word2) && (pos > 0 ==> s.pool.reqs[pos - 1].msgId == MID_FREE)
    ensures var s', reqs := StatementStep(s, 0), s.pool.reqs;
            if pos == 0 then s'.pc == Fill(|reqs|, word1, word2) && s'.pool.reqs == reqs + [BLANK]
            else s'.pc == Fill(pos - 1, word1, word2) && s'.pool.reqs == reqs[pos - 1 := reqs[pos - 1].(dataLen := 0)]
  {
  }

  lemma FindCompletes(s: State, pos: nat, word1: nat, word2: nat)
    requires Inv(s) && s.pc == Find(pos, word1, word2) && (pos > 0 ==> s.pool.reqs[pos - 1].msgId == MID_FREE)
    ensures var s', reqs := Run(s, Statements(3)), s.pool.reqs;
            s'.pc.Idle? && if pos == 0
            then s'.pool.reqs == reqs + [BLANK.(msgId := MID_NEW, word1 := word1, word2 := word2)] && s'.result == Handle(|reqs|)
            else s'.pool.reqs == reqs[pos - 1 := reqs[pos - 1].(msgId := MID_NEW, dataLen := 0, word1 := word1, word2 := word2)]
                 && s'.result == Handle(pos - 1)
  {
    hide IdsOk, FlightOk, RepliesOk, StatesOk, StatementStep, Run;
    OneStatement(s, 3);
    FoundStep(s, pos, word1, word2);
    var reqs := s.pool.reqs;
    FillCompletes(StatementStep(s, 0), if pos == 0 then |reqs| else pos - 1, word1, word2);
    if pos == 0 {
      var made := BLANK.(msgId := MID_NEW, word1 := word1, word2 := word2);
      assert (reqs + [BLANK])[|reqs| := made] == reqs + [made];
    } else {
      var cleared := reqs[pos - 1].(dataLen := 0);
      var made := cleared.(msgId := MID_NEW, word1 := word1, word2 := word2);
      assert reqs[pos - 1 := cleared][pos - 1 := made] == reqs[pos - 1 := made];
    }
  }

  /** Left alone, the statements of ncf_010 do what it does as a whole. */
  lemma {:induction false} CreateCompletes(s: State, pos: nat, word1: nat, word2: nat)
    requires Inv(s) && s.pc == Find(pos, word1, word2)
    requires FindId(s.pool.reqs, MID_FREE) == FindId(s.pool.reqs[..pos], MID_FREE)
    ensures var s', made := Run(s, Statements(CreateLength(s.pool.reqs, pos))), Created(s.pool.reqs, word1, word2);
            s'.pc.Idle? && s'.pool.reqs == made.0 && s'.result == Handle(made.1)
    decreases pos
  {
    hide IdsOk, FlightOk, RepliesOk, StatesOk;
    var reqs := s.pool.reqs;
    if pos > 0 && reqs[pos - 1].msgId != MID_FREE {
      var s1 := s.(pc := Find(pos - 1, word1, word2));
      FindIdSkips(reqs, pos);
      OneStatement(s, CreateLength(reqs, pos));
      assert StatementStep(s, 0) == s1;
      assert CreateLength(reqs, pos) - 1 == CreateLength(reqs, pos - 1);
      CreateCompletes(s1, pos - 1, word1, word2);
    } else {
      assert FindId(reqs, MID_FREE) == if pos == 0 then None else Some(pos - 1);
      FindCompletes(s, pos, word1, word2);
    }
  }

  lemma FindIdSkips(reqs: seq<Request>, pos: nat)
    requires 0 < pos <= |reqs| && reqs[pos - 1].msgId != MID_FREE
    ensures FindId(reqs[..pos], MID_FREE) == FindId(reqs[..pos - 1], MID_FREE)
    ensures FindId(reqs[..pos - 1], MID_FREE).Some? ==> FindId(reqs[..pos - 1], MID_FREE).value < pos - 1
  {
    assert reqs[..pos][..pos - 1] == reqs[..pos - 1];
  }

  /** Left alone, the statements of ncf_021 do what it does as a whole. */
  lemma SendCompletes(s: State, h: nat, rc: nat)
    requires Inv(s) && s.pc == Number(h, false)
    ensures var s', p := Run(s, [Statement(rc), Statement(rc)] + if rc == 0 then [] else [Statement(rc)]), s.pool;
            && s'.pc.Idle? && s'.result == Rc(if rc == 0 then 0 else VMCF - rc) && s'.pool.lastMsgId == p.lastMsgId + 1
            && s'.pool.reqs == p.reqs[h := Sent(p.reqs[h], p.lastMsgId + 1, rc)]
            && s'.pool.inFlight == p.inFlight + if rc == 0 then {p.lastMsgId + 1} else {}
  {
    hide IdsOk, FlightOk, RepliesOk, StatesOk;
    var s1 := StatementStep(s, rc);
    StepKeeps(s, Statement(rc));
    var s2 := StatementStep(s1, rc);
    StepKeeps(s1, Statement(rc));
    OneOf(s1, Statement(rc), if rc == 0 then [] else [Statement(rc)]);
    OneOf(s, Statement(rc), [Statement(rc)] + if rc == 0 then [] else [Statement(rc)]);
    assert [Statement(rc), Statement(rc)] + (if rc == 0 then [] else [Statement(rc)])
        == [Statement(rc)] + ([Statement(rc)] + if rc == 0 then [] else [Statement(rc)]);
    if rc != 0 {
      OneOf(s2, Statement(rc), []);
      assert [Statement(rc)] + [] == [Statement(rc)];
    }
  }

  lemma OneOf(s: State, i: Input, rest: seq<Input>)
    requires Inv(s)
    ensures Inv(Step(s, i)) && Run(s, [i] + rest) == Run(Step(s, i), rest)
  {
    StepKeeps(s, i);
    assert ([i] + rest)[1..] == rest;
  }

  /** Statements the scan takes from a position until it has found its request or come to the end. */
  function ScanLength(found: Option<nat>, pos: nat): nat {
    if found.Some? && found.value < pos then pos - found.value else pos + 1
  }

  lemma LastOfScan(s: State, pos: nat)
    requires Inv(s) && s.pc == Scan(pos) && (pos > 0 ==> Matches(s.pool.reqs[pos - 1], s.filter))
    ensures FindMatch(s.pool.reqs[..pos], s.filter) == if pos == 0 then None else Some(pos - 1)
    ensures Run(s, Statements(1)) == s.(pc := if pos == 0 then BlockedAny else Restore(Some(pos - 1)))
  {
    hide IdsOk, FlightOk, RepliesOk, StatesOk;
    OneStatement(s, 1);
    assert Statements(0) == [];
  }

  /** Left alone, the scan of ncf_037 ends with the newest matching response, or waits because there is none. */
  lemma {:induction false} ScanCompletes(s: State, pos: nat)
    requires Inv(s) && s.pc == Scan(pos) && FindMatch(s.pool.reqs, s.filter) == FindMatch(s.pool.reqs[..pos], s.filter)
    ensures var found := FindMatch(s.pool.reqs, s.filter);
            Run(s, Statements(ScanLength(found, pos))) == s.(pc := if found.Some? then Restore(found) else BlockedAny)
    decreases pos
  {
    hide IdsOk, FlightOk, RepliesOk, StatesOk;
    var reqs, found := s.pool.reqs, FindMatch(s.pool.reqs, s.filter);
    if pos == 0 || Matches(reqs[pos - 1], s.filter) {
      LastOfScan(s, pos);
    } else {
      var s1 := s.(pc := Scan(pos - 1));
      assert reqs[..pos][..pos - 1] == reqs[..pos - 1];
      assert StatementStep(s, 0) == s1;
      OneStatement(s, ScanLength(found, pos));
      ScanCompletes(s1, pos - 1);
      assert ScanLength(found, pos) - 1 == ScanLength(found, pos - 1);
    }
  }

  /** A waiter does not spin: it clears the ECB, and only a response that its filter lets through posts it again. */
  lemma PostedByResponse(s: State, i: Input)
    requires Inv(s)
    ensures i.Statement? && (s.pc.Clear? || s.pc.ClearAny?) ==> !Step(s, i).ecb
    ensures !s.ecb && Step(s, i).ecb ==>
      && i.Response? && i.id in s.pool.inFlight && i.id in s.pool.owner
      && Matches(Step(s, i).pool.reqs[s.pool.owner[i.id]], s.filter)
  {
    if i.Response? && i.id in s.pool.inFlight {
      DeliverKeeps(s.pool, Busy(s.pc), i.id, i.reply);
    }
  }
}
