/**
 The inside proxy with its request buffers: the rings of free and of waiting slots, and the interrupt
 handlers that move slots between them. Every method does what the proxy does on values.
 */
module InsideBuffers {
  import opened Bytes
  import opened ProxyEngine
  import opened InsideProxy

  const NULL := -1

  function RingNext(idx: nat): nat {
    if idx >= MAX_REQUEST_COUNT - 1 then 0 else idx + 1
  }

  /** The place `k` steps behind the start of a ring. */
  function Ring(k: nat): nat {
    if k >= MAX_REQUEST_COUNT then k - MAX_REQUEST_COUNT else k
  }

  /** The ring holds these slots from place `from` on. */
  ghost predicate Holds(ring: array<int>, from: nat, slots: seq<nat>)
    reads ring
  {
    && ring.Length == MAX_REQUEST_COUNT && from < MAX_REQUEST_COUNT && |slots| <= MAX_REQUEST_COUNT
    && forall i :: 0 <= i < |slots| ==> slots[i] < MAX_REQUEST_COUNT && ring[Ring(from + i)] == slots[i]
  }

  class Buffers {
    var pstate: PState
    const requests: array<nat> // the number of the request in each slot; stands for its user and message id
    const reqFree: array<int>
    var reqCurrFree: nat
    var reqLastFree: nat
    const reqQueue: array<int>
    var reqLastIn: nat
    var reqLastOut: nat
    var accepted: nat
    var replies: seq<Reply>
    var out: seq<Write>

    ghost var free: seq<nat>
    ghost var waiting: seq<nat>

    ghost predicate Valid()
      reads this`reqCurrFree, this`reqLastFree, this`reqLastIn, this`reqLastOut, this`free, this`waiting, reqFree, reqQueue
    {
      && requests.Length == MAX_REQUEST_COUNT && reqFree != reqQueue
      && 1 <= |free| && |free| + |waiting| <= MAX_REQUEST_COUNT
      && Holds(reqFree, reqCurrFree, free) && reqLastFree == Ring(reqCurrFree + |free| - 1)
      && reqLastOut < MAX_REQUEST_COUNT && Holds(reqQueue, RingNext(reqLastOut), waiting) && reqLastIn == Ring(reqLastOut + |waiting|)
    }

    ghost function Model(): (s: Inside)
      requires Valid()
      reads this, requests, reqFree, reqQueue
      ensures WellFormed(s)
    {
      Inside(pstate, free, waiting, requests[..], accepted, replies, out)
    }

    constructor ()
      ensures Valid() && fresh(requests) && fresh(reqFree) && fresh(reqQueue)
      ensures Model() == Started()
    {
      pstate, accepted, replies, out := Initial, 0, [], [];
      requests := new nat[MAX_REQUEST_COUNT](_ => 0);
      reqFree := new int[MAX_REQUEST_COUNT](i => i);
      reqQueue := new int[MAX_REQUEST_COUNT](_ => NULL);
      reqLastIn, reqLastOut, reqCurrFree, reqLastFree := 0, 0, 1, 0;
      free, waiting := AllSlots(), [];
      new;
      assert requests[..] == seq(MAX_REQUEST_COUNT, _ => 0);
    }

    /** The next free slot, or null when only one is left. */
    method GetSlot() returns (slot: int)
      requires Valid()
      modifies this`reqCurrFree, this`free, reqFree
      ensures Valid()
      ensures if |old(free)| <= 1 then slot == NULL && free == old(free)
              else slot == old(free)[0] && free == old(free)[1..]
      ensures slot != NULL ==> 0 <= slot < MAX_REQUEST_COUNT && |free| + |waiting| < MAX_REQUEST_COUNT
    {
      if reqCurrFree == reqLastFree { return NULL; }
      slot := reqFree[reqCurrFree];
      assert slot == free[0];
      reqFree[reqCurrFree] := NULL;
      reqCurrFree := RingNext(reqCurrFree);
      ghost var rest := free[1..];
      free := rest;
    }

    /** A slot is free again. */
    method FreeSlot(slot: nat)
      requires Valid() && slot < MAX_REQUEST_COUNT && |free| + |waiting| < MAX_REQUEST_COUNT
      modifies this`reqLastFree, this`free, reqFree
      ensures Valid() && free == old(free) + [slot]
    {
      var thisFree := RingNext(reqLastFree);
      reqFree[thisFree] := slot;
      reqLastFree := thisFree;
      free := free + [slot];
    }

    method Enqueue(slot: nat)
      requires Valid() && slot < MAX_REQUEST_COUNT && |free| + |waiting| < MAX_REQUEST_COUNT
      modifies this`reqLastIn, this`waiting, reqQueue
      ensures Valid() && waiting == old(waiting) + [slot]
    {
      var idx := RingNext(reqLastIn);
      reqQueue[idx] := slot;
      reqLastIn := idx;
      waiting := waiting + [slot];
    }

    /** Is a request waiting? */
    predicate HavingRequest()
      requires Valid()
      reads this`reqCurrFree, this`reqLastFree, this`reqLastIn, this`reqLastOut, this`free, this`waiting, reqFree, reqQueue
      ensures HavingRequest() <==> waiting != []
    {
      reqLastOut != reqLastIn
    }

    method NextRequestToSend() returns (slot: int)
      requires Valid()
      modifies this`reqLastOut, this`waiting, reqQueue
      ensures Valid()
      ensures if old(waiting) == [] then slot == NULL && waiting == []
              else slot == old(waiting)[0] && waiting == old(waiting)[1..]
    {
      if reqLastOut == reqLastIn { return NULL; }
      var idx := RingNext(reqLastOut);
      slot := reqQueue[idx];
      assert slot == waiting[0];
      reqQueue[idx] := NULL;
      reqLastOut := idx;
      waiting := waiting[1..];
    }

    /** Goes to a state and starts the write of a handshake. */
    method Enter(p: PState, h: Handshake)
      requires Valid()
      modifies this`pstate, this`out
      ensures Valid() && Model() == InsideProxy.Enter(old(Model()), p, h)
    {
      pstate := p;
      out := out + [Control(h)];
    }

    /** The external interrupt: a client has sent a request. */
    method HandleExt()
      requires Valid()
      modifies this, reqFree, reqQueue, requests
      ensures Valid() && Model() == Accept(old(Model()))
    {
      hide Holds;
      var slot := GetSlot();
      if slot == NULL { return; } // the client gets a reject
      requests[slot] := accepted;
      accepted := accepted + 1;
      Enqueue(slot);
      if pstate == Idle { Enter(ITransmitPrep, HostWillSend); }
    }

    /** Sends the next waiting request out. */
    method EnterTransmitting()
      requires Valid() && waiting != []
      modifies this, reqQueue
      ensures Valid() && Model() == Transmit(old(Model()))
    {
      var slot := NextRequestToSend();
      pstate := ITransmitting;
      out := out + [Packet(Job(slot, requests[slot]))];
    }

    /** The device interrupt at the end of a write. */
    method DeviceEnd()
      requires Valid()
      modifies this`pstate, this`out
      ensures Valid() && Model() == Written(old(Model()))
    {
      if pstate == ITransmitPrep {
        pstate := TransmitPrep;
      } else if pstate == IReceiving {
        pstate := Receiving;
      } else if pstate == ITransmitting {
        pstate := Transmitting;
      } else if pstate == IIdle && HavingRequest() {
        Enter(ITransmitPrep, HostWillSend);
      } else if pstate == IIdle {
        pstate := Idle;
      } else if pstate == IReset {
        pstate := Reset;
      } else if pstate == IWelcome {
        Enter(IIdle, HostAck);
      }
    }

    /** An ACK was read. */
    method AckRead(behind: bool)
      requires Valid() && CanRead(Model(), Ack)
      modifies this, reqQueue
      ensures Valid() && Model() == Received(old(Model()), Ack, behind, 0)
    {
      if pstate == TransmitPrep {
        EnterTransmitting();
      } else if pstate == Transmitting || pstate == Reset {
        if HavingRequest() {
          Enter(ITransmitPrep, HostWillSend);
        } else if behind {
          Enter(IReceiving, HostSendPacket);
        } else {
          pstate := Idle;
        }
      }
    }

    /** A response was read: reply to the client in its slot, and free the slot. */
    method DataRead(no: nat, more: bool, slot: nat)
      requires Valid() && (slot < MAX_REQUEST_COUNT ==> |free| + |waiting| < MAX_REQUEST_COUNT)
      modifies this, reqFree
      ensures Valid() && Model() == Received(old(Model()), Data(no, more), false, slot)
    {
      if pstate != Receiving && pstate != IReceiving {
        Enter(IReset, HostReset);
        return;
      }
      if slot >= MAX_REQUEST_COUNT {
        Enter(IReset, HostReset);
        return;
      }
      hide Holds;
      replies := replies + [Reply(requests[slot], no)];
      FreeSlot(slot);
      if more { Enter(IReceiving, HostSendPacket); } else { Enter(IIdle, HostAck); }
    }

    /** The device interrupt at the end of a read. */
    method EndReceivePacket(t: Entry, behind: bool, slot: nat)
      requires Valid() && CanRead(Model(), t)
      requires t.Data? && slot < MAX_REQUEST_COUNT ==> |free| + |waiting| < MAX_REQUEST_COUNT
      modifies this, reqFree, reqQueue
      ensures Valid() && Model() == Received(old(Model()), t, behind, slot)
    {
      match t {
        case WantSend(_) =>
          if pstate == Idle {
            Enter(IReceiving, HostSendPacket);
          } else if pstate == TransmitPrep {
            Enter(ITransmitPrep, HostWillSend);
          } else {
            Enter(IReset, HostReset);
          }
        case Welcome =>
          if pstate == Initial { Enter(IWelcome, HostWelcome); } else { Enter(IReset, HostReset); }
        case Ack => AckRead(behind);
        case AckWantSend(_) =>
          if pstate == Transmitting || pstate == Reset { Enter(IReceiving, HostSendPacket); } else { Enter(IReset, HostReset); }
        case Data(no, more) => DataRead(no, more, slot);
        case FromHost =>
      }
    }
  }
}
