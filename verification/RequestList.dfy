/**
 The client's list of request blocks in memory: the operations between two interrupts, as they
 change the blocks, against the requests as values.
 */
module RequestList {
  import opened Bytes
  import opened RequestPool

  class RequestBlock {
    var next: RequestBlock?
    var msgId: nat
    var filterTag: nat
    var recvRc: int
    var dataLen: int
    var word1: nat
    var word2: nat
    ghost var sentAs: nat

    constructor (next: RequestBlock?)
      ensures this.next == next && Value() == BLANK
    {
      this.next, msgId, filterTag, recvRc, dataLen, word1, word2, sentAs := next, MID_FREE, 0, 0, 0, 0, 0, 0;
    }

    ghost function Value(): Request
      reads this
    {
      Request(msgId, filterTag, recvRc, dataLen, word1, word2, sentAs)
    }

    method Answer(reply: Reply)
      modifies this
      ensures Value() == Answered(old(Value()), reply) && next == old(next)
    {
      match reply {
        case Rejected(reason) =>
          recvRc := if reason == 1 || reason == 2 then RECVREQ - reason else RECVREQ - 3;
        case Positive(unused, word1, word2) =>
          recvRc := 0;
          dataLen := MAX_PACKET_LEN - unused;
          this.word1, this.word2 := word1, word2;
        case Unclear =>
          recvRc := RECVREQ - 4;
      }
      msgId := MID_RCVD;
    }
  }

  class RequestList {
    var requests: RequestBlock?
    var lastMsgId: nat
    var responseFilter: nat
    var rcvEcb: bool
    ghost var blocks: seq<RequestBlock> // in allocation order, the oldest first

    ghost predicate Valid()
      reads this`requests, this`blocks, blocks`next
    {
      && requests == (if blocks == [] then null else blocks[|blocks| - 1])
      && (forall k {:trigger blocks[k].next} :: 0 <= k < |blocks| ==> blocks[k].next == if k == 0 then null else blocks[k - 1])
      && (forall j, k :: 0 <= j < k < |blocks| ==> blocks[j] != blocks[k])
    }

    ghost function Reqs(): (r: seq<Request>)
      reads this`blocks, blocks
      ensures |r| == |blocks|
    {
      var bs := blocks;
      seq(|bs|, k requires 0 <= k < |bs| reads bs => bs[k].Value())
    }

    /** The block with a number, or null. */
    ghost function At(h: Option<nat>): RequestBlock?
      reads this`blocks
    {
      if h.Some? && h.value < |blocks| then blocks[h.value] else null
    }

    constructor ()
      ensures Valid() && Reqs() == [] && lastMsgId == MID_PEND && responseFilter == 0 && !rcvEcb
    {
      requests, lastMsgId, responseFilter, rcvEcb, blocks := null, MID_PEND, 0, false, [];
    }

    method AllocRequest() returns (curr: RequestBlock)
      requires Valid()
      modifies this`requests, this`blocks
      ensures Valid() && fresh(curr) && blocks == old(blocks) + [curr] && Reqs() == old(Reqs()) + [BLANK]
    {
      curr := new RequestBlock(requests);
      requests := curr;
      blocks := blocks + [curr];
    }

    /** Searches the list from its start for a message id. */
    method Search(id: nat) returns (curr: RequestBlock?, ghost h: nat)
      requires Valid()
      ensures curr == At(FindId(Reqs(), id))
      ensures FindId(Reqs(), id).Some? ==> FindId(Reqs(), id) == Some(h)
    {
      curr, h := requests, |blocks|;
      assert Reqs()[..h] == Reqs();
      while curr != null && curr.msgId != id
        invariant h <= |blocks| && curr == (if h == 0 then null else blocks[h - 1])
        invariant FindId(Reqs(), id) == FindId(Reqs()[..h], id)
        decreases h
      {
        assert Reqs()[..h][..h - 1] == Reqs()[..h - 1];
        curr, h := curr.next, h - 1;
      }
      if curr != null { h := h - 1; }
    }

    method GetRequest() returns (curr: RequestBlock, ghost h: nat)
      requires Valid()
      modifies this`requests, this`blocks, blocks`dataLen
      ensures Valid() && h < |blocks| && curr == blocks[h] && blocks == old(blocks) + if h < |old(blocks)| then [] else [curr]
      ensures match FindId(old(Reqs()), MID_FREE)
              case Some(k) => h == k && Reqs() == old(Reqs())[k := old(Reqs())[k].(dataLen := 0)]
              case None => h == |old(blocks)| && fresh(curr) && Reqs() == old(Reqs()) + [BLANK]
    {
      var found: RequestBlock?;
      found, h := Search(MID_FREE);
      if found == null {
        curr := AllocRequest();
        h := |blocks| - 1;
      } else {
        curr := found;
        curr.dataLen := 0;
      }
    }

    method CreateRequest(word1: nat, word2: nat) returns (curr: RequestBlock)
      requires Valid()
      modifies this`requests, this`blocks, blocks
      ensures Valid() && Reqs() == Created(old(Reqs()), word1, word2).0 && curr == blocks[Created(old(Reqs()), word1, word2).1]
    {
      hide FindId;
      ghost var h;
      curr, h := GetRequest();
      ghost var got := Reqs();
      curr.word1, curr.word2 := word1, word2;
      curr.msgId := MID_NEW;
      assert Reqs() == got[h := got[h].(msgId := MID_NEW, word1 := word1, word2 := word2)];
    }

    /** ncf_021 up to its wait; `rc` is what VMCF says. The last out-parameter tells whether the request is under way. */
    method SendRequest(req: RequestBlock, rc: nat, ghost h: nat) returns (code: int, sent: bool)
      requires Valid() && h < |blocks| && req == blocks[h]
      modifies this`lastMsgId, req`msgId, req`sentAs
      ensures Valid()
      ensures sent <==> old(req.msgId) == MID_NEW && rc == 0
      ensures if old(req.msgId) != MID_NEW then code == SENDREQ - 2 && Reqs() == old(Reqs()) && lastMsgId == old(lastMsgId)
              else lastMsgId == old(lastMsgId) + 1 && code == (if rc == 0 then 0 else VMCF - rc)
                   && Reqs() == old(Reqs())[h := Sent(old(Reqs())[h], lastMsgId, rc)]
    {
      if req.msgId != MID_NEW { return SENDREQ - 2, false; }
      lastMsgId := lastMsgId + 1;
      req.msgId, req.sentAs := lastMsgId, lastMsgId;
      code, sent := 0, true;
      if rc != 0 {
        req.msgId := MID_NEW;
        code, sent := VMCF - rc, false;
      }
    }

    method FreeRequest(req: RequestBlock, ghost h: nat) returns (code: int)
      requires Valid() && h < |blocks| && req == blocks[h]
      modifies req`msgId
      ensures Valid()
      ensures if old(req.msgId) >= MID_PEND then code == FREEREQ - 2 && Reqs() == old(Reqs())
              else code == 0 && Reqs() == old(Reqs())[h := old(Reqs())[h].(msgId := MID_FREE)]
    {
      if req.msgId >= MID_PEND { return FREEREQ - 2; }
      req.msgId := MID_FREE;
      return 0;
    }

    /** The interrupt handler, given a response to a transmission. */
    method HandleExt(mId: nat, reply: Reply)
      requires Valid()
      modifies this`rcvEcb, blocks
      ensures Valid()
      ensures match FindId(old(Reqs()), mId)
              case None => Reqs() == old(Reqs()) && rcvEcb == old(rcvEcb)
              case Some(h) => Reqs() == old(Reqs())[h := Answered(old(Reqs())[h], reply)]
                              && rcvEcb == (old(rcvEcb) || Matches(Reqs()[h], responseFilter))
    {
      ghost var before := Reqs();
      var req, h := Search(mId);
      if req == null { return; }
      req.Answer(reply);
      if responseFilter == 0 || req.filterTag == responseFilter {
        rcvEcb := true;
      }
      assert Reqs() == before[h := Answered(before[h], reply)];
    }

    /** The scan of ncf_037 for a response. */
    method ScanResponses() returns (found: RequestBlock?)
      requires Valid()
      ensures found == At(FindMatch(Reqs(), responseFilter))
    {
      var req := requests;
      found := null;
      ghost var h: nat := |blocks|;
      assert Reqs()[..h] == Reqs();
      while req != null
        invariant h <= |blocks| && req == (if h == 0 then null else blocks[h - 1])
        invariant FindMatch(Reqs(), responseFilter) == FindMatch(Reqs()[..h], responseFilter)
        decreases h
      {
        assert Reqs()[..h][..h - 1] == Reqs()[..h - 1];
        h := h - 1;
        if req.msgId == MID_RCVD && (responseFilter == 0 || req.filterTag == responseFilter) {
          return req;
        }
        req := req.next;
      }
    }
  }
}
