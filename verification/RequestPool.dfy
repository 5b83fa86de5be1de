/**
 The client's request objects: what the API operations and the response interrupt do to them, and
 the invariant that both keep. A handle is the number of a request in allocation order; the list is
 searched from the newest to the oldest.
 */
module RequestPool {
  import opened Bytes

  const MID_FREE: nat := 2 // in the free list
  const MID_NEW: nat := 4  // owned by the client, not sent
  const MID_RCVD: nat := 6 // answered, waiting for the client
  const MID_RTRN: nat := 8 // owned by the client after the answer
  const MID_PEND: nat := 10 // above: the id it was sent with, not answered

  const MAX_PACKET_LEN: nat := 2048
  const SENDREQ: int := -1002000
  const WAITRESP: int := -1003000
  const FREEREQ: int := -1005000
  const SETREQDATA: int := -1001000
  const VMCF: int := -1000000
  const RECVREQ: int := -1006000

  datatype Reply = Rejected(reason: nat) | Positive(unused: nat, word1: nat, word2: nat) | Unclear

  /** `sentAs` is history: the id of the last transmission. */
  datatype Request = Request(msgId: nat, filterTag: nat, recvRc: int, dataLen: int, word1: nat, word2: nat, sentAs: nat) {
    predicate Pending() {
      msgId > MID_PEND
    }
  }

  const BLANK := Request(MID_FREE, 0, 0, 0, 0, 0, 0)

  function RcOf(reply: Reply): int {
    match reply
    case Rejected(reason) => RECVREQ - (if reason == 1 || reason == 2 then reason else 3)
    case Positive(_, _, _) => 0
    case Unclear => RECVREQ - 4
  }

  /** A return code tells what came: the response, or for what reason there is none. */
  lemma RcTells(a: Reply, b: Reply)
    ensures RcOf(a) == 0 <==> a.Positive?
    ensures RcOf(a) == RcOf(b) && a.Rejected? ==> b.Rejected? && (a.reason in {1, 2} || b.reason in {1, 2} ==> a.reason == b.reason)
    ensures !a.Positive? ==> RECVREQ - 4 <= RcOf(a) < RECVREQ && (a.Unclear? <==> RcOf(a) == RECVREQ - 4)
  {
  }

  /** A response the waiter of ncf_037 looks for. */
  predicate Matches(r: Request, filter: nat) {
    r.msgId == MID_RCVD && (filter == 0 || r.filterTag == filter)
  }

  /** What the interrupt handler does to the request it found. */
  function Answered(r: Request, reply: Reply): Request {
    match reply
    case Positive(unused, word1, word2) =>
      r.(msgId := MID_RCVD, recvRc := RcOf(reply), dataLen := MAX_PACKET_LEN - unused, word1 := word1, word2 := word2)
    case _ => r.(msgId := MID_RCVD, recvRc := RcOf(reply))
  }

  /** The request holds this reply. */
  predicate Holds(r: Request, reply: Reply) {
    && r.recvRc == RcOf(reply)
    && (reply.Positive? ==> r.dataLen == MAX_PACKET_LEN - reply.unused && r.word1 == reply.word1 && r.word2 == reply.word2)
  }

  /** The first request of the list with this id. */
  function FindId(reqs: seq<Request>, id: nat): (h: Option<nat>)
    ensures h.Some? ==> h.value < |reqs| && reqs[h.value].msgId == id && forall k :: h.value < k < |reqs| ==> reqs[k].msgId != id
    ensures h.None? ==> forall k :: 0 <= k < |reqs| ==> reqs[k].msgId != id
  {
    if reqs == [] then None
    else if reqs[|reqs| - 1].msgId == id then Some(|reqs| - 1)
    else FindId(reqs[..|reqs| - 1], id)
  }

  /** What ncf_010 does: the newest free request is used again, or a new one appended. */
  function Created(reqs: seq<Request>, word1: nat, word2: nat): (r: (seq<Request>, nat))
    ensures r.1 < |r.0| && |reqs| <= |r.0| <= |reqs| + 1
  {
    match FindId(reqs, MID_FREE)
    case Some(h) => (reqs[h := reqs[h].(msgId := MID_NEW, dataLen := 0, word1 := word1, word2 := word2)], h)
    case None => (reqs + [BLANK.(msgId := MID_NEW, word1 := word1, word2 := word2)], |reqs|)
  }

  /** The newest received request with a tag the filter lets through. */
  function FindMatch(reqs: seq<Request>, filter: nat): (h: Option<nat>)
    ensures h.Some? ==> h.value < |reqs| && Matches(reqs[h.value], filter) && forall k :: h.value < k < |reqs| ==> !Matches(reqs[k], filter)
    ensures h.None? ==> forall k :: 0 <= k < |reqs| ==> !Matches(reqs[k], filter)
  {
    if reqs == [] then None
    else if Matches(reqs[|reqs| - 1], filter) then Some(|reqs| - 1)
    else FindMatch(reqs[..|reqs| - 1], filter)
  }

  /** What ncf_021 makes of a new request, given an id and what VMCF says. */
  function Sent(r: Request, id: nat, rc: nat): Request {
    r.(msgId := if rc == 0 then id else MID_NEW, sentAs := id)
  }

  /**
   All requests. History: the request each id was used for, the ids transmitted and not yet
   answered, and the replies that came.
   */
  datatype Pool = Pool(reqs: seq<Request>, lastMsgId: nat, owner: map<nat, nat>, inFlight: set<nat>, replies: map<nat, Reply>)

  /** Every id is above MID_PEND and was used for one request; a pending request still has its id. */
  ghost predicate IdsOk(p: Pool) {
    && p.lastMsgId >= MID_PEND
    && (forall id :: id in p.owner ==> MID_PEND < id <= p.lastMsgId && p.owner[id] < |p.reqs|)
    && (forall h :: 0 <= h < |p.reqs| && p.reqs[h].Pending() ==>
          p.reqs[h].msgId in p.owner && p.owner[p.reqs[h].msgId] == h && p.reqs[h].sentAs == p.reqs[h].msgId)
  }

  /** Transmitted and unanswered are the pending requests, except the one the program is just transmitting. */
  ghost predicate FlightOk(p: Pool, busy: Option<nat>) {
    && (forall id :: id in p.inFlight ==> id in p.owner && p.owner[id] < |p.reqs| && p.reqs[p.owner[id]].msgId == id)
    && (forall h :: 0 <= h < |p.reqs| && p.reqs[h].Pending() ==> (p.reqs[h].msgId in p.inFlight <==> busy != Some(h)))
    && (busy.Some? ==> busy.value < |p.reqs| && p.reqs[busy.value].Pending())
  }

  /** An answered request holds the reply to its last transmission. */
  ghost predicate RepliesOk(p: Pool) {
    forall h :: 0 <= h < |p.reqs| && p.reqs[h].msgId in {MID_RCVD, MID_RTRN} ==>
      Answers(p, h, p.reqs[h])
  }

  /** What `r` holds is the reply to the last transmission of request `h`. */
  ghost predicate Answers(p: Pool, h: nat, r: Request) {
    r.sentAs in p.owner && p.owner[r.sentAs] == h && r.sentAs in p.replies && Holds(r, p.replies[r.sentAs])
  }

  ghost predicate PoolOk(p: Pool, busy: Option<nat>) {
    IdsOk(p) && FlightOk(p, busy) && RepliesOk(p)
  }

  /** The request is known by its id to the program and the interrupt handler. */
  function Put(p: Pool, h: nat, r: Request): Pool
    requires h < |p.reqs|
  {
    p.(reqs := p.reqs[h := r])
  }

  function Numbered(p: Pool, h: nat): Pool
    requires h < |p.reqs|
  {
    var id := p.lastMsgId + 1;
    Put(p, h, p.reqs[h].(msgId := id, sentAs := id)).(lastMsgId := id, owner := p.owner[id := h])
  }

  function Deliver(p: Pool, id: nat, reply: Reply): Pool {
    match FindId(p.reqs, id)
    case None => p
    case Some(h) =>
      Put(p, h, Answered(p.reqs[h], reply)).(inFlight := p.inFlight - {id}, replies := p.replies[p.reqs[h].sentAs := reply])
  }

  /** Two requests never wait under the same id. */
  lemma PendingIdsDiffer(p: Pool, busy: Option<nat>, g: nat, h: nat)
    requires PoolOk(p, busy) && g < h < |p.reqs| && p.reqs[g].Pending() && p.reqs[h].Pending()
    ensures p.reqs[g].msgId != p.reqs[h].msgId
  {
  }

  lemma PutKeeps(p: Pool, busy: Option<nat>, h: nat, r: Request)
    requires PoolOk(p, busy) && h < |p.reqs| && (p.reqs[h].Pending() ==> busy == Some(h))
    requires r.msgId in {MID_FREE, MID_NEW} || (r.msgId in {MID_RCVD, MID_RTRN} && Answers(p, h, r))
    ensures PoolOk(Put(p, h, r), if busy == Some(h) then None else busy)
  {
  }

  /** The program takes an answered request back. */
  lemma TakeKeeps(p: Pool, h: nat)
    requires PoolOk(p, None) && h < |p.reqs| && p.reqs[h].msgId == MID_RCVD
    ensures PoolOk(Put(p, h, p.reqs[h].(msgId := MID_RTRN)), None)
  {
    PutKeeps(p, None, h, p.reqs[h].(msgId := MID_RTRN));
  }

  lemma TagKeeps(p: Pool, busy: Option<nat>, h: nat, tag: nat)
    requires PoolOk(p, busy) && h < |p.reqs|
    ensures PoolOk(Put(p, h, p.reqs[h].(filterTag := tag)), busy)
  {
  }

  lemma GrowKeeps(p: Pool)
    requires PoolOk(p, None)
    ensures PoolOk(p.(reqs := p.reqs + [BLANK]), None)
  {
  }

  lemma NumberKeeps(p: Pool, h: nat)
    requires PoolOk(p, None) && h < |p.reqs| && !p.reqs[h].Pending()
    ensures PoolOk(Numbered(p, h), Some(h))
    ensures var id := Numbered(p, h).reqs[h].msgId;
            && id > MID_PEND && id !in p.owner && id !in p.inFlight
            && forall k :: 0 <= k < |p.reqs| ==> p.reqs[k].msgId != id
  {
  }

  lemma AcceptKeeps(p: Pool, h: nat)
    requires PoolOk(p, Some(h))
    ensures PoolOk(p.(inFlight := p.inFlight + {p.reqs[h].msgId}), None)
  {
  }

  /** The search by id finds the request the id was used for. */
  lemma IdFound(p: Pool, busy: Option<nat>, id: nat)
    requires PoolOk(p, busy) && id in p.inFlight
    ensures FindId(p.reqs, id) == Some(p.owner[id]) && busy != Some(p.owner[id])
    ensures var r := p.reqs[p.owner[id]]; r.msgId == r.sentAs == id && r.Pending()
  {
    hide FindId, RepliesOk;
    assert p.reqs[p.owner[id]].msgId == id;
  }

  /** A response for a transmitted id changes the request it was sent for and no other. */
  lemma DeliverKeeps(p: Pool, busy: Option<nat>, id: nat, reply: Reply)
    requires PoolOk(p, busy) && id in p.inFlight
    ensures PoolOk(Deliver(p, id, reply), busy)
    ensures FindId(p.reqs, id) == Some(p.owner[id]) && busy != Some(p.owner[id])
    ensures Deliver(p, id, reply).reqs == p.reqs[p.owner[id] := Answered(p.reqs[p.owner[id]], reply)]
  {
    hide FindId, RepliesOk;
    IdFound(p, busy, id);
    DeliverKeepsReplies(p, busy, id, reply);
  }

  lemma DeliverKeepsReplies(p: Pool, busy: Option<nat>, id: nat, reply: Reply)
    requires PoolOk(p, busy) && id in p.inFlight
    ensures RepliesOk(Deliver(p, id, reply))
  {
    hide FindId, FlightOk;
    IdFound(p, busy, id);
    var p' := Deliver(p, id, reply);
    forall k | 0 <= k < |p'.reqs| && p'.reqs[k].msgId in {MID_RCVD, MID_RTRN}
      ensures Answers(p', k, p'.reqs[k])
    {
    }
  }
}
