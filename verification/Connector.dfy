/**
 The connector of the outside proxy with its hand-managed request objects: the waiting queue and the
 free list are chains through `next`, and `workingRequests` lists the objects between reception and
 acknowledgement. Every method does what the engine does on values.
 */
module Connector {
  import opened Bytes
  import opened ProxyEngine

  /** A request from the host with its response; `no` stands for the response data. */
  class Request {
    var next: Request?
    var more: bool // its aid code also asks for sending the next response
    var no: nat

    constructor ()
      ensures next == null
    {
      next, more, no := null, false, 0;
    }

    method Reset()
      modifies this`next, this`more
      ensures next == null
    {
      more, next := false, null;
    }
  }

  ghost function Elems(s: seq<Request>): set<Request> {
    set r | r in s
  }

  /** `s` are the objects on the way from `first` to `end`. */
  ghost predicate Segment(first: Request?, s: seq<Request>, end: Request?)
    reads s`next
  {
    && first == (if s == [] then end else s[0])
    && forall i {:trigger s[i].next} :: 0 <= i < |s| ==> s[i].next == if i + 1 < |s| then s[i + 1] else end
  }

  /** `s` is the null-terminated chain of objects starting at `first`. */
  ghost predicate Chain(first: Request?, s: seq<Request>)
    reads s`next
  {
    Segment(first, s, null)
  }

  ghost function Last(s: seq<Request>): Request? {
    if s == [] then null else s[|s| - 1]
  }

  /** The list without the first occurrence of `r`. */
  function Without(s: seq<Request>, r: Request): seq<Request> {
    if s == [] then [] else if s[0] == r then s[1..] else [s[0]] + Without(s[1..], r)
  }

  lemma {:induction false} WithoutElems(s: seq<Request>, r: Request)
    requires Distinct(s)
    ensures Distinct(Without(s, r)) && Elems(Without(s, r)) == Elems(s) - {r}
  {
    if s == [] {
    } else if s[0] == r {
      assert s == [s[0]] + s[1..];
    } else {
      assert s == [s[0]] + s[1..];
      WithoutElems(s[1..], r);
      assert s[0] !in Elems(Without(s[1..], r));
      assert forall x :: x in s[1..] <==> x in Elems(s[1..]);
      assert forall x :: x in Without(s[1..], r) <==> x in Elems(Without(s[1..], r));
    }
  }

  lemma SegmentGrows(first: Request?, s: seq<Request>, r: Request)
    requires Segment(first, s, r)
    ensures Segment(first, s + [r], r.next)
  {
    var t := s + [r];
    forall i | 0 <= i < |t|
      ensures t[i].next == if i + 1 < |t| then t[i + 1] else r.next
    {
      if i < |s| {
        assert s[i].next == if i + 1 < |s| then s[i + 1] else r;
      }
    }
  }

  lemma SegmentLast(first: Request?, s: seq<Request>)
    requires s != [] && Chain(first, s)
    ensures Segment(first, s[..|s| - 1], s[|s| - 1])
  {
    var t := s[..|s| - 1];
    forall i | 0 <= i < |t|
      ensures t[i].next == if i + 1 < |t| then t[i + 1] else s[|s| - 1]
    {
      assert s[i].next == s[i + 1];
    }
  }

  lemma ChainHead(first: Request?, s: seq<Request>)
    requires s != [] && Chain(first, s)
    ensures Chain(s[0].next, s[1..])
  {
    assert s[0].next == if |s| > 1 then s[1] else null;
    forall i | 0 <= i < |s| - 1
      ensures s[1..][i].next == if i + 1 < |s| - 1 then s[1..][i + 1] else null
    {
      assert s[i + 1].next == if i + 2 < |s| then s[i + 2] else null;
    }
  }

  lemma ChainGrows(r: Request, s: seq<Request>)
    requires Chain(r.next, s)
    ensures Chain(r, [r] + s)
  {
    var t := [r] + s;
    forall i | 0 <= i < |t|
      ensures t[i].next == if i + 1 < |t| then t[i + 1] else null
    {
      if i > 0 {
        assert s[i - 1].next == if i < |s| then s[i] else null;
      }
    }
  }

  /** Every object is in exactly one of the lists or being processed, and once in its list. */
  ghost predicate Partition(waiting: seq<Request>, free: seq<Request>, processing: set<Request>, all: set<Request>) {
    && Distinct(waiting) && Distinct(free)
    && Elems(waiting) !! Elems(free) && Elems(waiting) !! processing && Elems(free) !! processing
    && all == Elems(waiting) + Elems(free) + processing
  }

  /** The requests received but not yet sent back. */
  ghost predicate InWork(working: seq<Request>, waiting: seq<Request>, processing: set<Request>) {
    Distinct(working) && Elems(working) == Elems(waiting) + processing
  }

  lemma HeadElems(s: seq<Request>)
    requires s != [] && Distinct(s)
    ensures Distinct(s[1..]) && s[0] !in s[1..] && Elems(s[1..]) == Elems(s) - {s[0]} && s[0] in Elems(s)
  {
    assert s == [s[0]] + s[1..];
  }

  lemma FinishParts(waiting: seq<Request>, free: seq<Request>, processing: set<Request>, all: set<Request>, working: seq<Request>)
    requires Partition(waiting, free, processing, all) && InWork(working, waiting, processing) && waiting != []
    ensures Partition(waiting[1..], [waiting[0]] + free, processing, all)
    ensures InWork(Without(working, waiting[0]), waiting[1..], processing)
    ensures waiting[0] !in waiting[1..] && waiting[0] !in free && waiting[0] !in processing
  {
    HeadElems(waiting);
    WithoutElems(working, waiting[0]);
    assert waiting[0] !in Elems(free);
    assert Elems([waiting[0]] + free) == Elems(free) + {waiting[0]};
  }

  lemma EnqueueParts(waiting: seq<Request>, free: seq<Request>, processing: set<Request>, all: set<Request>,
                     working: seq<Request>, r: Request)
    requires Partition(waiting, free, processing, all) && InWork(working, waiting, processing) && r in processing
    ensures Partition(waiting + [r], free, processing - {r}, all) && InWork(working, waiting + [r], processing - {r})
    ensures r !in waiting && r !in free
    ensures waiting != [] ==> Last(waiting) !in waiting[..|waiting| - 1] && Last(waiting) !in free && Last(waiting) !in processing
  {
    assert r !in Elems(waiting) && r !in Elems(free);
    assert Elems(waiting + [r]) == Elems(waiting) + {r};
    if waiting != [] {
      assert Last(waiting) in Elems(waiting);
    }
  }

  lemma AllocateParts(waiting: seq<Request>, free: seq<Request>, processing: set<Request>, all: set<Request>,
                      working: seq<Request>, r: Request)
    requires Partition(waiting, free, processing, all) && InWork(working, waiting, processing)
    requires if free == [] then r !in all else r == free[0]
    ensures r !in waiting && r !in processing && InWork(working + [r], waiting, processing + {r})
    ensures if free == [] then Partition(waiting, free, processing + {r}, all + {r})
            else Partition(waiting, free[1..], processing + {r}, all) && r !in free[1..]
  {
    if free != [] {
      HeadElems(free);
    }
    assert r !in Elems(waiting) && r !in Elems(working);
    assert Elems(working + [r]) == Elems(working) + {r};
  }

  /** The responses in a list have these numbers. */
  ghost predicate Numbered(s: seq<Request>, numbers: seq<nat>)
    reads s`no
  {
    |s| == |numbers| && forall i {:trigger s[i].no} :: 0 <= i < |s| ==> s[i].no == numbers[i]
  }

  lemma NumberedGrows(s: seq<Request>, numbers: seq<nat>, r: Request)
    requires Numbered(s, numbers)
    ensures Numbered(s + [r], numbers + [r.no])
  {
  }

  lemma NumberedShrinks(s: seq<Request>, numbers: seq<nat>)
    requires Numbered(s, numbers) && s != []
    ensures Numbered(s[1..], numbers[1..])
  {
    forall i | 0 <= i < |s| - 1
      ensures s[1..][i].no == numbers[1..][i]
    {
      assert s[i + 1].no == numbers[i + 1];
    }
  }

  class Connector {
    var isConnected: bool
    var sending: bool
    var mayRequestSend: bool
    var pendingRequestSend: bool
    var lastWasWantSend: bool
    var firstWaitingRequest: Request?
    var lastWaitingRequest: Request?
    var freeRequest: Request?
    var workingRequests: seq<Request>
    var responses: nat // how many were enqueued: numbers stand for the response data
    var log: seq<Entry> // what came from and what was written to the host

    ghost var waiting: seq<Request>
    ghost var free: seq<Request>
    ghost var processing: set<Request>
    ghost var all: set<Request> // every object ever allocated
    ghost var engine: Engine

    /**
     Every request object is in exactly one of free list, being processed and waiting queue. Both
     lists are acyclic and null-terminated, the last-pointer is the end of the queue, and the list
     of requests in work holds those being processed and waiting.
     */
    ghost predicate Lists()
      reads this`firstWaitingRequest, this`lastWaitingRequest, this`freeRequest, this`workingRequests
      reads this`waiting, this`free, this`processing, this`all, waiting`next, free`next, processing`next
    {
      && Chain(firstWaitingRequest, waiting) && lastWaitingRequest == Last(waiting)
      && Chain(freeRequest, free)
      && (forall r :: r in processing ==> r.next == null)
      && Partition(waiting, free, processing, all) && InWork(workingRequests, waiting, processing)
    }

    /** The fields are those of the engine. */
    ghost predicate Matches()
      reads this, waiting`no
    {
      && isConnected == engine.connected && sending == engine.sending && mayRequestSend == engine.mayRequestSend
      && pendingRequestSend == engine.pendingRequestSend && lastWasWantSend == engine.lastWasWantSend
      && log == engine.log && responses == |engine.enqueued| && Numbered(waiting, engine.queue)
    }

    ghost predicate Valid()
      reads this, waiting, free, processing
    {
      Lists() && Matches()
    }

    /** The two pointers to the queue tell whether it is empty; its objects and those processed are among all. */
    lemma QueueEnds()
      requires Valid()
      ensures |waiting| == |engine.queue| && Elems(waiting) <= all && processing <= all
      ensures if waiting == [] then firstWaitingRequest == null && lastWaitingRequest == null
              else firstWaitingRequest == waiting[0] && lastWaitingRequest != null
    {
    }

    constructor ()
      ensures Valid() && engine == INITIAL && all == {}
    {
      isConnected, sending, mayRequestSend, pendingRequestSend, lastWasWantSend := false, true, false, false, false;
      firstWaitingRequest, lastWaitingRequest, freeRequest, workingRequests, responses, log := null, null, null, [], 0, [];
      waiting, free, processing, all, engine := [], [], {}, {}, INITIAL;
    }

    /** The end of dialing to the proxy VM. */
    method DialToVm()
      requires Matches()
      modifies this`sending, this`log, this`engine
      ensures Matches() && engine == Dialed(old(engine))
    {
      sending := false;
      log := log + [Welcome];
      engine := Dialed(engine);
    }

    /** Moves the head of the queue to the free list. */
    method DropHead()
      requires Lists() && firstWaitingRequest != null
      modifies this`firstWaitingRequest, this`lastWaitingRequest, this`freeRequest, this`workingRequests
      modifies this`waiting, this`free, firstWaitingRequest`next
      ensures Lists() && old(waiting) != [] && waiting == old(waiting)[1..] && free == [old(waiting)[0]] + old(free)
    {
      hide Distinct;
      var curr := firstWaitingRequest;
      ChainHead(firstWaitingRequest, waiting);
      FinishParts(waiting, free, processing, all, workingRequests);
      firstWaitingRequest := curr.next;
      if firstWaitingRequest == null {
        lastWaitingRequest := null;
      }
      workingRequests := Without(workingRequests, curr);
      curr.next := freeRequest;
      freeRequest := curr;
      ChainGrows(curr, free);
      waiting, free := waiting[1..], [curr] + free;
      assert Chain(firstWaitingRequest, waiting) && Chain(freeRequest, free);
      assert Partition(waiting, free, processing, all) && InWork(workingRequests, waiting, processing);
    }

    /** Moves the head of the queue, whose responses have these numbers. */
    method DropNumbered(ghost numbers: seq<nat>)
      requires Lists() && Numbered(waiting, numbers) && firstWaitingRequest != null
      modifies this`firstWaitingRequest, this`lastWaitingRequest, this`freeRequest, this`workingRequests
      modifies this`waiting, this`free, firstWaitingRequest`next
      ensures Lists() && old(waiting) != [] && waiting == old(waiting)[1..] && free == [old(waiting)[0]] + old(free)
      ensures numbers != [] && Numbered(waiting, numbers[1..])
    {
      NumberedShrinks(waiting, numbers);
      hide Chain, Partition, InWork;
      DropHead();
    }

    method FinishFirstQueued()
      requires Valid()
      modifies this, all
      ensures Valid() && engine == FinishFirst(old(engine))
      ensures processing == old(processing) && all == old(all)
      ensures if old(sending) && old(waiting) != []
              then waiting == old(waiting)[1..] && free == [old(waiting)[0]] + old(free)
              else waiting == old(waiting) && free == old(free)
    {
      hide Lists, Numbered;
      QueueEnds();
      if !sending { return; }
      if firstWaitingRequest == null { return; }
      DropNumbered(engine.queue);
      engine := FinishFirst(engine);
    }

    method SendFirstQueued()
      requires Valid()
      modifies this, all
      ensures Valid() && engine == SendFirst(old(engine))
      ensures waiting == old(waiting) && free == old(free) && processing == old(processing) && all == old(all)
      ensures !old(sending) && waiting != [] ==> log == old(log) + [Data(waiting[0].no, |waiting| > 1)]
    {
      if sending { return; }
      var curr := firstWaitingRequest;
      if curr == null { return; }
      curr.more := curr.next != null;
      sending := true;
      log := log + [Data(curr.no, curr.more)];
      engine := SendFirst(engine);
    }

    /** The host acknowledges the last data packet, and so is idle. */
    method HandleAck()
      requires Valid()
      modifies this, all
      ensures Valid() && engine == ProxyEngine.HandleHandshake(old(engine), HostAck)
      ensures processing == old(processing) && all == old(all)
    {
      hide Lists, Numbered;
      FinishFirstQueued();
      sending, mayRequestSend, pendingRequestSend := false, true, false;
      engine := ProxyEngine.HandleHandshake(old(engine), HostAck);
    }

    /** The host asks for the next packet, which also acknowledges the last one. */
    method HandleSendPacket()
      requires Valid()
      modifies this, all
      ensures Valid() && engine == ProxyEngine.HandleHandshake(old(engine), HostSendPacket)
      ensures processing == old(processing) && all == old(all)
    {
      hide Lists, Numbered;
      FinishFirstQueued();
      sending, engine := false, engine.(sending := false);
      SendFirstQueued();
    }

    /** The host will send a packet. */
    method HandleWillSend()
      requires Matches()
      modifies this`sending, this`pendingRequestSend, this`lastWasWantSend, this`mayRequestSend, this`log, this`engine
      ensures Matches() && engine == ProxyEngine.HandleHandshake(old(engine), HostWillSend)
    {
      sending, mayRequestSend, pendingRequestSend := false, false, false;
      log := log + [Entry.Ack];
      lastWasWantSend := false;
      engine := ProxyEngine.HandleHandshake(engine, HostWillSend);
    }

    /** The host starts up. */
    method HandleWelcome()
      requires Matches()
      modifies this`sending, this`pendingRequestSend, this`lastWasWantSend, this`mayRequestSend, this`log, this`engine
      ensures Matches() && engine == ProxyEngine.HandleHandshake(old(engine), HostWelcome)
    {
      sending, mayRequestSend, pendingRequestSend := false, false, false;
      engine := ProxyEngine.HandleHandshake(engine, HostWelcome);
    }

    /** The host saw a handshake error and wants all states reset. */
    method HandleReset()
      requires Matches() && (firstWaitingRequest == null <==> waiting == [])
      modifies this`sending, this`pendingRequestSend, this`lastWasWantSend, this`mayRequestSend, this`log, this`engine
      ensures Matches() && engine == ProxyEngine.HandleHandshake(old(engine), HostReset)
    {
      sending, mayRequestSend := false, true;
      pendingRequestSend := firstWaitingRequest != null;
      log := log + [if firstWaitingRequest != null then AckWantSend(sending) else Entry.Ack];
      lastWasWantSend := false;
      engine := ProxyEngine.HandleHandshake(engine, HostReset);
    }

    /** Any other code is a protocol error. */
    method Resynchronize()
      requires Matches()
      modifies this`sending, this`pendingRequestSend, this`lastWasWantSend, this`mayRequestSend, this`log, this`engine
      ensures Matches() && engine == ProxyEngine.HandleHandshake(old(engine), HostOther)
    {
      log := log + [Welcome];
      lastWasWantSend, sending := false, false;
      engine := ProxyEngine.HandleHandshake(engine, HostOther);
    }

    method HandleHandshake(h: Handshake)
      requires Valid()
      modifies this, all
      ensures Valid() && engine == ProxyEngine.HandleHandshake(old(engine), h)
      ensures processing == old(processing) && all == old(all)
    {
      match h {
        case HostWillSend => HandleWillSend();
        case HostAck => HandleAck();
        case HostSendPacket => HandleSendPacket();
        case HostWelcome => HandleWelcome();
        case HostReset => HandleReset();
        case HostState => // the state is only logged
        case HostOther => Resynchronize();
      }
    }

    /** Takes an object for a new request from the free list. */
    method TakeFree() returns (request: Request)
      requires Lists() && freeRequest != null
      modifies this`freeRequest, this`free, this`processing, this`workingRequests, freeRequest`next, freeRequest`more
      ensures Lists() && old(free) != [] && request == old(free)[0] && free == old(free)[1..]
      ensures request !in old(processing) && request !in waiting && processing == old(processing) + {request}
    {
      request := freeRequest;
      AllocateParts(waiting, free, processing, all, workingRequests, request);
      ChainHead(freeRequest, free);
      freeRequest := request.next;
      request.Reset();
      free, processing, workingRequests := free[1..], processing + {request}, workingRequests + [request];
      assert Chain(firstWaitingRequest, waiting) && Chain(freeRequest, free);
    }

    /** Makes an object for a new request. */
    method MakeNew() returns (request: Request)
      requires Lists() && freeRequest == null
      modifies this`processing, this`workingRequests, this`all
      ensures Lists() && fresh(request) && all == old(all) + {request} && free == []
      ensures processing == old(processing) + {request}
    {
      request := new Request();
      AllocateParts(waiting, free, processing, all, workingRequests, request);
      all, processing, workingRequests := all + {request}, processing + {request}, workingRequests + [request];
      assert Chain(firstWaitingRequest, waiting) && Chain(freeRequest, free);
    }

    /** An object for a new request: the first of the free list, or a new one. */
    method Allocate() returns (request: Request)
      requires Valid()
      modifies this`freeRequest, this`free, this`processing, this`workingRequests, this`all, all
      ensures Valid() && engine == old(engine) && waiting == old(waiting)
      ensures request !in old(processing) && request !in waiting && processing == old(processing) + {request}
      ensures if old(free) == [] then fresh(request) && all == old(all) + {request} && free == []
              else request == old(free)[0] && all == old(all) && free == old(free)[1..]
    {
      if freeRequest == null {
        request := MakeNew();
      } else {
        assert freeRequest in Elems(free);
        request := TakeFree();
      }
    }

    /** The acknowledgement of a data packet. */
    method Acknowledge()
      requires Matches() && (firstWaitingRequest == null <==> waiting == [])
      modifies this`sending, this`pendingRequestSend, this`lastWasWantSend, this`mayRequestSend, this`log, this`engine
      ensures Matches() && engine == HandlePacket(old(engine))
    {
      sending := false;
      if firstWaitingRequest != null {
        log := log + [AckWantSend(sending)];
        pendingRequestSend, lastWasWantSend, mayRequestSend := true, true, false;
      } else {
        pendingRequestSend := false;
        log := log + [Entry.Ack];
        lastWasWantSend, mayRequestSend := false, true;
      }
      engine := HandlePacket(engine);
    }

    /** A data packet becomes a request and is acknowledged. */
    method ReceivePacket() returns (request: Request)
      requires Valid()
      modifies this, all
      ensures Valid() && engine == HandlePacket(old(engine)) && waiting == old(waiting)
      ensures request !in old(processing) && request !in waiting && processing == old(processing) + {request}
      ensures (request in old(all) || fresh(request)) && all == old(all) + {request}
    {
      hide Lists, Numbered;
      request := Allocate();
      QueueEnds();
      Acknowledge();
    }

    /** Looks at the screen position of a record: is it to be interpreted? */
    method Recognize(pos: Position) returns (interpreted: bool)
      requires Matches()
      modifies this`log, this`engine, this`isConnected
      ensures Matches() && interpreted == Interpreted(old(engine), pos)
      ensures var e := old(engine); engine == e.(log := e.log + [FromHost], connected := e.connected || interpreted)
    {
      log := log + [FromHost];
      if isConnected && pos == ForeignPos {
        interpreted := false;
      } else if !isConnected && pos == ProxyPos {
        isConnected, interpreted := true, true;
      } else {
        interpreted := isConnected;
      }
      engine := engine.(log := log, connected := isConnected);
    }

    /** Takes in a record from the host; a data packet becomes a request, taken from the free list if possible. */
    method InnerReceiveRecord(pos: Position, write: bool, wcc: byte) returns (request: Request?)
      requires Valid()
      modifies this, all
      ensures Valid() && engine == Receive(old(engine), pos, write, HandshakeOf(wcc))
      ensures request != null <==> Interpreted(old(engine), pos) && !write
      ensures if request == null then processing == old(processing) && all == old(all)
              else request !in old(processing) && request !in old(waiting)
                   && processing == old(processing) + {request} && waiting == old(waiting)
                   && (request in old(all) || fresh(request)) && all == old(all) + {request}
    {
      var interpreted := Recognize(pos);
      assert Lists();
      if !interpreted { return null; }
      if write {
        HandleHandshake(HandshakeOf(wcc));
        return null;
      }
      request := ReceivePacket();
    }

    /** Links a request behind the last one. */
    method LinkLast(r: Request)
      requires Lists() && r in processing && lastWaitingRequest != null
      modifies lastWaitingRequest`next
      ensures Chain(firstWaitingRequest, waiting + [r]) && Chain(freeRequest, free)
      ensures forall p :: p in processing ==> p.next == null
    {
      hide InWork;
      ghost var before, last := waiting[..|waiting| - 1], lastWaitingRequest;
      SegmentLast(firstWaitingRequest, waiting);
      EnqueueParts(waiting, free, processing, all, workingRequests, r);
      assert before + [last] == waiting;
      lastWaitingRequest.next := r;
      assert Segment(firstWaitingRequest, before, last) && Chain(freeRequest, free);
      SegmentGrows(firstWaitingRequest, before, last);
      SegmentGrows(firstWaitingRequest, waiting, r);
    }

    /** Puts a processed request at the end of the waiting queue. */
    method Append(r: Request)
      requires Lists() && r in processing && lastWaitingRequest != null
      modifies this`lastWaitingRequest, this`waiting, this`processing, lastWaitingRequest`next
      ensures Lists() && waiting == old(waiting) + [r] && processing == old(processing) - {r}
    {
      hide Chain, Partition, InWork;
      EnqueueParts(waiting, free, processing, all, workingRequests, r);
      LinkLast(r);
      lastWaitingRequest := r;
      waiting, processing := waiting + [r], processing - {r};
    }

    /** Makes a processed request the only one waiting. */
    method Start(r: Request)
      requires Lists() && r in processing && lastWaitingRequest == null
      modifies this`lastWaitingRequest, this`firstWaitingRequest, this`waiting, this`processing
      ensures Lists() && waiting == old(waiting) + [r] && processing == old(processing) - {r}
    {
      EnqueueParts(waiting, free, processing, all, workingRequests, r);
      firstWaitingRequest, lastWaitingRequest := r, r;
      waiting, processing := waiting + [r], processing - {r};
      assert Chain(firstWaitingRequest, waiting);
      assert Partition(waiting, free, processing, all) && InWork(workingRequests, waiting, processing);
    }

    /** Puts a processed request into the waiting queue. */
    method Link(r: Request)
      requires Lists() && r in processing
      modifies this`lastWaitingRequest, this`firstWaitingRequest, this`waiting, this`processing, all`next
      ensures Lists() && waiting == old(waiting) + [r] && processing == old(processing) - {r}
    {
      if lastWaitingRequest != null {
        assert lastWaitingRequest in Elems(waiting);
        Append(r);
      } else {
        Start(r);
      }
    }

    /** Numbers a response. */
    method SetNumber(r: Request, ghost numbers: seq<nat>)
      requires Numbered(waiting, numbers) && r !in waiting
      modifies r`no, this`responses
      ensures r.no == old(responses) && responses == old(responses) + 1 && Numbered(waiting + [r], numbers + [r.no])
    {
      r.no, responses := responses, responses + 1;
      assert Numbered(waiting, numbers);
      NumberedGrows(waiting, numbers, r);
    }

    /** Numbers a response and links it in. */
    method LinkNumbered(r: Request, ghost numbers: seq<nat>)
      requires Lists() && r in processing && Numbered(waiting, numbers)
      modifies this`lastWaitingRequest, this`firstWaitingRequest, this`waiting, this`processing, this`responses, r`no, all`next
      ensures Lists() && waiting == old(waiting) + [r] && processing == old(processing) - {r}
      ensures r.no == old(responses) && responses == old(responses) + 1 && Numbered(waiting, numbers + [r.no])
    {
      assert r !in waiting by {
        assert r !in Elems(waiting);
      }
      SetNumber(r, numbers);
      Link(r);
    }

    /** Numbers a response and puts it into the queue. */
    method Enqueue(r: Request)
      requires Valid() && r in processing
      modifies this`lastWaitingRequest, this`firstWaitingRequest, this`waiting, this`processing, this`responses, this`engine, all
      ensures Valid() && engine == ProxyEngine.Enqueue(old(engine))
      ensures waiting == old(waiting) + [r] && processing == old(processing) - {r}
      ensures r.no == |old(engine).enqueued|
    {
      hide Lists, Numbered;
      QueueEnds();
      LinkNumbered(r, engine.queue);
      engine := ProxyEngine.Enqueue(engine);
    }

    /** Asks the host for permission to send. */
    method AskToSend()
      requires Matches()
      modifies this`log, this`pendingRequestSend, this`lastWasWantSend, this`engine
      ensures var e := old(engine);
        engine == e.(pendingRequestSend := true, lastWasWantSend := true, log := e.log + [WantSend(e.sending)])
      ensures Matches()
    {
      log := log + [WantSend(sending)];
      pendingRequestSend, lastWasWantSend := true, true;
      engine := engine.(pendingRequestSend := true, lastWasWantSend := true, log := log);
    }

    /** Enqueues a response; the new head of the queue asks for permission to send. */
    method SendResponse(r: Request)
      requires Valid() && r in processing
      modifies this, all
      ensures Valid() && engine == ProxyEngine.SendResponse(old(engine))
      ensures waiting == old(waiting) + [r] && processing == old(processing) - {r} && all == old(all)
      ensures r.no == |old(engine).enqueued| && free == old(free)
    {
      hide Lists, Numbered;
      QueueEnds();
      var queued := lastWaitingRequest != null;
      Enqueue(r);
      if !queued && mayRequestSend && !pendingRequestSend {
        AskToSend();
      }
    }
  }
}
