/**
 The two socket tables: the slots of the proxy and the descriptors of the client have the same
 numbers. The client's calls, the proxy's receipt of requests and the pool threads that complete
 accepts and closes are steps that interleave freely.
 */
module SocketTables {
  import opened Bytes

  const FD_SETSIZE: nat := 64 // also the slots of the proxy

  /** A slot holds nothing, a placeholder, or a socket; every socket has a number of its own. */
  datatype Slot = Empty | Reserved | Occupied(sock: nat)

  /** A descriptor of the client; `sock` is history, the socket it was opened for. */
  datatype Entry = Entry(active: bool, client: bool, server: bool, pendAccept: bool, recvHandle: Option<nat>, sock: nat)

  const CLOSED := Entry(false, false, false, false, None, 0)

  /** A request on its way: sent, worked on by a pool thread, or answered with a slot and its socket. */
  datatype Job =
    | AllocSent | AllocDone(n: Option<nat>, sock: nat)
    | AcceptSent(fd: nat) | Accepting(m: nat) | AcceptDone(n: Option<nat>, sock: nat)
    | CloseSent(fd: nat, sock: nat) | Closing(fd: nat, sock: nat) | CloseDone
  {
    predicate Alloc() { AllocSent? || AllocDone? }
    predicate Accept() { AcceptSent? || Accepting? || AcceptDone? }
    predicate Close() { CloseSent? || Closing? || CloseDone? }

    /** The slot this request is the only one to free or hand over. */
    function SlotNo(): Option<nat> {
      match this
      case AllocDone(n, _) => n
      case Accepting(m) => Some(m)
      case AcceptDone(n, _) => n
      case CloseSent(fd, _) => Some(fd)
      case Closing(fd, _) => Some(fd)
      case _ => None
    }

    /** What that slot holds. */
    function Content(): Slot {
      match this
      case Accepting(_) => Reserved
      case AllocDone(_, sock) => Occupied(sock)
      case AcceptDone(_, sock) => Occupied(sock)
      case CloseSent(_, sock) => Occupied(sock)
      case Closing(_, sock) => Occupied(sock)
      case _ => Empty // holds none
    }
  }

  /** Who may free or hand over a slot. */
  datatype Owner = Nobody | Descriptor | Request(h: nat)

  /** The program computes, or waits in a call for the response to a request. */
  datatype Pc = Ready | InSocket(h: nat) | InAccept(h: nat) | InClose(h: nat)

  /** `handles` and `socks` count the requests and sockets made so far; `owners` is history. */
  datatype State = State(slots: seq<Slot>, fds: seq<Entry>, owners: seq<Owner>, jobs: map<nat, Job>, handles: nat, socks: nat, pc: Pc)

  datatype Input =
    | Socket
    | Listen(fd: nat)
    | Connect(fd: nat)
    | Accept(fd: nat, nonblock: bool, nbselect: bool)
    | Close(fd: nat)
    | Return(dgram: bool)        // the waiting call gets its response
    | Take(h: nat, ok: bool)     // the proxy receives a request
    | Complete(h: nat, ok: bool) // a pool thread completes it

  const INITIAL := State(seq(FD_SETSIZE, _ => Empty), seq(FD_SETSIZE, _ => CLOSED), seq(FD_SETSIZE, _ => Nobody), map[], 0, 0, Ready)

  /** The lowest empty slot. */
  function FirstFree(slots: seq<Slot>): (r: Option<nat>)
    ensures r.Some? ==> r.value < |slots| && slots[r.value] == Empty && forall k :: 0 <= k < r.value ==> slots[k] != Empty
    ensures r.None? ==> forall k :: 0 <= k < |slots| ==> slots[k] != Empty
  {
    if slots == [] then None
    else if slots[0] == Empty then Some(0)
    else
      var r := FirstFree(slots[1..]);
      if r.Some? then
        assert forall k :: 0 < k <= r.value ==> slots[k] == slots[1..][k - 1];
        Some(r.value + 1)
      else
        assert forall k :: 0 < k < |slots| ==> slots[k] == slots[1..][k - 1];
        None
  }

  function Send(s: State, job: Job): State {
    s.(jobs := s.jobs[s.handles := job], handles := s.handles + 1)
  }

  // ---- the client ----

  predicate Opened(s: State, fd: nat) {
    fd < |s.fds| && s.fds[fd].active
  }

  function AcceptCall(s: State, fd: nat, nonblock: bool, nbselect: bool): State {
    if !Opened(s, fd) then s                                               // ENOTSOCK
    else
      var e := s.fds[fd];
      if e.client || !e.server then s                                      // EOPNOTSUPP, EINVAL
      else if e.recvHandle.Some? && !e.pendAccept then s                   // EINPROGRESS
      else if e.recvHandle.None? then
        var s' := Send(s, AcceptSent(fd));
        if nonblock || nbselect then
          s'.(fds := s.fds[fd := e.(recvHandle := Some(s.handles), pendAccept := true)]) // EWOULDBLOCK
        else s'.(fds := s.fds[fd := e.(pendAccept := false)], pc := InAccept(s.handles))
      else
        var h := e.recvHandle.value;
        if nonblock && !(h in s.jobs && s.jobs[h].AcceptDone?) then s      // EALREADY
        else s.(fds := s.fds[fd := e.(recvHandle := None, pendAccept := false)], pc := InAccept(h))
  }

  /** Closing clears the flags at once, but leaves a pending accept alone. */
  function CloseCall(s: State, fd: nat): State {
    if !Opened(s, fd) then s
    else
      var e := s.fds[fd];
      Send(s, CloseSent(fd, e.sock)).(
        fds := s.fds[fd := e.(active := false, client := false, server := false, pendAccept := false)],
        owners := if fd < |s.owners| then s.owners[fd := Request(s.handles)] else s.owners,
        pc := InClose(s.handles))
  }

  /** The entry of a new socket is cleared; an accepted one only gets new flags. */
  function Activate(s: State, n: nat, e: Entry, h: nat): State {
    if n < |s.fds| && n < |s.owners| then
      s.(fds := s.fds[n := e], owners := s.owners[n := Descriptor], jobs := s.jobs - {h}, pc := Ready)
    else s
  }

  function ReturnCall(s: State, dgram: bool): State {
    if s.pc.Ready? || s.pc.h !in s.jobs then s
    else
      var h := s.pc.h;
      match s.jobs[h]
      case AllocDone(Some(n), sock) => Activate(s, n, Entry(true, dgram, false, false, None, sock), h)
      case AcceptDone(Some(n), sock) =>
        if n < |s.fds| then
          Activate(s, n, s.fds[n].(active := true, client := true, server := false, pendAccept := false, sock := sock), h)
        else s
      case AllocDone(None, _) => s.(jobs := s.jobs - {h}, pc := Ready)
      case AcceptDone(None, _) => s.(jobs := s.jobs - {h}, pc := Ready)
      case CloseDone => s.(jobs := s.jobs - {h}, pc := Ready)
      case _ => s
  }

  // ---- the proxy ----

  function Hold(s: State, n: nat, slot: Slot, h: nat, job: Job, owner: Owner): State {
    if n < |s.slots| && n < |s.owners| then
      s.(slots := s.slots[n := slot], owners := s.owners[n := owner], jobs := s.jobs[h := job])
    else s
  }

  function TakeRequest(s: State, h: nat, ok: bool): State {
    if h !in s.jobs then s
    else
      match s.jobs[h]
      case AllocSent =>
        var n := FirstFree(s.slots);
        if n.None? || !ok then s.(jobs := s.jobs[h := AllocDone(None, 0)])
        else Hold(s, n.value, Occupied(s.socks), h, AllocDone(n, s.socks), Request(h)).(socks := s.socks + 1)
      case AcceptSent(fd) =>
        var n := FirstFree(s.slots);
        if fd >= |s.slots| || s.slots[fd] == Empty || n.None? then s.(jobs := s.jobs[h := AcceptDone(None, 0)])
        else Hold(s, n.value, Reserved, h, Accepting(n.value), Request(h))
      case CloseSent(fd, sock) =>
        if fd >= |s.slots| || s.slots[fd] == Empty then s.(jobs := s.jobs[h := CloseDone])
        else s.(jobs := s.jobs[h := Closing(fd, sock)])
      case _ => s
  }

  function CompleteRequest(s: State, h: nat, ok: bool): State {
    if h !in s.jobs then s
    else
      match s.jobs[h]
      case Accepting(n) =>
        if ok then Hold(s, n, Occupied(s.socks), h, AcceptDone(Some(n), s.socks), Request(h)).(socks := s.socks + 1)
        else Hold(s, n, Empty, h, AcceptDone(None, 0), Nobody)
      case Closing(fd, _) => Hold(s, fd, Empty, h, CloseDone, Nobody)
      case _ => s
  }

  function Step(s: State, i: Input): State {
    match i
    case Socket => if s.pc.Ready? then Send(s, AllocSent).(pc := InSocket(s.handles)) else s
    case Listen(fd) => if s.pc.Ready? && Opened(s, fd) && !s.fds[fd].client then s.(fds := s.fds[fd := s.fds[fd].(server := true)]) else s
    case Connect(fd) => if s.pc.Ready? && Opened(s, fd) && !s.fds[fd].server then s.(fds := s.fds[fd := s.fds[fd].(client := true)]) else s
    case Accept(fd, nonblock, nbselect) => if s.pc.Ready? then AcceptCall(s, fd, nonblock, nbselect) else s
    case Close(fd) => if s.pc.Ready? then CloseCall(s, fd) else s
    case Return(dgram) => ReturnCall(s, dgram)
    case Take(h, ok) => TakeRequest(s, h, ok)
    case Complete(h, ok) => CompleteRequest(s, h, ok)
  }

  function Run(s: State, inputs: seq<Input>): State
    decreases |inputs|
  {
    if inputs == [] then s else Run(Step(s, inputs[0]), inputs[1..])
  }

  // ---- the invariant ----

  /** Slot `n` is empty and unused, held by its open descriptor, or held by the one request that names it. */
  predicate SlotOk(n: nat, slot: Slot, e: Entry, owner: Owner, jobs: map<nat, Job>) {
    match owner
    case Nobody => slot == Empty && !e.active
    case Descriptor => e.active && slot == Occupied(e.sock)
    case Request(h) => !e.active && h in jobs && jobs[h].SlotNo() == Some(n) && slot == jobs[h].Content()
  }

  ghost predicate SlotsOk(s: State) {
    && |s.slots| == |s.fds| == |s.owners| == FD_SETSIZE
    && (forall n :: 0 <= n < FD_SETSIZE ==> SlotOk(n, s.slots[n], s.fds[n], s.owners[n], s.jobs))
    && (forall h :: h in s.jobs && s.jobs[h].SlotNo().Some? ==>
          s.jobs[h].SlotNo().value < FD_SETSIZE && s.owners[s.jobs[h].SlotNo().value] == Request(h))
  }

  /** A pending accept is kept by one listening descriptor, or waited for. */
  ghost predicate HandlesOk(s: State) {
    && (forall h :: h in s.jobs ==> h < s.handles)
    && (forall fd :: 0 <= fd < |s.fds| && s.fds[fd].pendAccept ==>
          s.fds[fd].active && s.fds[fd].recvHandle.Some? && s.fds[fd].recvHandle.value in s.jobs
          && s.jobs[s.fds[fd].recvHandle.value].Accept() && (s.pc.InAccept? ==> s.fds[fd].recvHandle.value != s.pc.h))
    && (forall f, g :: 0 <= f < g < |s.fds| && s.fds[f].pendAccept && s.fds[g].pendAccept ==>
          s.fds[f].recvHandle != s.fds[g].recvHandle)
    && match s.pc
       case Ready => true
       case InSocket(h) => h in s.jobs && s.jobs[h].Alloc()
       case InAccept(h) => h in s.jobs && s.jobs[h].Accept()
       case InClose(h) => h in s.jobs && s.jobs[h].Close()
  }

  ghost predicate Inv(s: State) {
    SlotsOk(s) && HandlesOk(s)
  }

  lemma InitialOk()
    ensures Inv(INITIAL)
  {
  }

  lemma AcceptCallKeeps(s: State, fd: nat, nonblock: bool, nbselect: bool)
    requires Inv(s) && s.pc.Ready?
    ensures Inv(AcceptCall(s, fd, nonblock, nbselect))
  {
    AcceptCallKeepsSlots(s, fd, nonblock, nbselect);
    AcceptCallKeepsHandles(s, fd, nonblock, nbselect);
  }

  lemma AcceptCallKeepsSlots(s: State, fd: nat, nonblock: bool, nbselect: bool)
    requires SlotsOk(s) && HandlesOk(s)
    ensures SlotsOk(AcceptCall(s, fd, nonblock, nbselect))
  {
    var s' := AcceptCall(s, fd, nonblock, nbselect);
    forall k | 0 <= k < FD_SETSIZE
      ensures SlotOk(k, s'.slots[k], s'.fds[k], s'.owners[k], s'.jobs)
    {
      assert SlotOk(k, s.slots[k], s.fds[k], s.owners[k], s.jobs);
    }
  }

  lemma AcceptCallKeepsHandles(s: State, fd: nat, nonblock: bool, nbselect: bool)
    requires HandlesOk(s) && s.pc.Ready?
    ensures HandlesOk(AcceptCall(s, fd, nonblock, nbselect))
  {
  }

  lemma CloseCallKeeps(s: State, fd: nat)
    requires Inv(s) && s.pc.Ready?
    ensures Inv(CloseCall(s, fd))
  {
  }

  /** A request takes, changes or gives up the slot it holds. */
  lemma HoldKeeps(s: State, n: nat, slot: Slot, h: nat, job: Job, owner: Owner, socks: nat)
    requires Inv(s) && n < FD_SETSIZE && h in s.jobs && SameKind(s.jobs[h], job)
    requires s.owners[n] == (if s.jobs[h].SlotNo().Some? then Request(h) else Nobody)
    requires s.jobs[h].SlotNo().Some? ==> s.jobs[h].SlotNo().value == n
    requires owner == if job.SlotNo().Some? then Request(h) else Nobody
    requires slot == if job.SlotNo().Some? then job.Content() else Empty
    requires job.SlotNo().Some? ==> job.SlotNo().value == n
    ensures Inv(Hold(s, n, slot, h, job, owner).(socks := socks))
  {
    HoldKeepsHandles(s, n, slot, h, job, owner, socks);
    hide HandlesOk;
    var s' := Hold(s, n, slot, h, job, owner).(socks := socks);
    forall k | 0 <= k < FD_SETSIZE
      ensures SlotOk(k, s'.slots[k], s'.fds[k], s'.owners[k], s'.jobs)
    {
      assert SlotOk(k, s.slots[k], s.fds[k], s.owners[k], s.jobs);
    }
    assert SlotsOk(s');
  }

  lemma HoldKeepsHandles(s: State, n: nat, slot: Slot, h: nat, job: Job, owner: Owner, socks: nat)
    requires HandlesOk(s) && h in s.jobs && SameKind(s.jobs[h], job)
    ensures HandlesOk(Hold(s, n, slot, h, job, owner).(socks := socks))
  {
  }

  predicate SameKind(j: Job, j': Job) {
    (j.Alloc() <==> j'.Alloc()) && (j.Accept() <==> j'.Accept()) && (j.Close() <==> j'.Close())
  }

  /** A request changes that holds no slot. */
  lemma JobKeeps(s: State, h: nat, job: Job)
    requires Inv(s) && h in s.jobs && SameKind(s.jobs[h], job)
    requires s.jobs[h].SlotNo() == job.SlotNo() && (job.SlotNo().Some? ==> s.jobs[h].Content() == job.Content())
    ensures Inv(s.(jobs := s.jobs[h := job]))
  {
    var s' := s.(jobs := s.jobs[h := job]);
    forall k | 0 <= k < FD_SETSIZE
      ensures SlotOk(k, s'.slots[k], s'.fds[k], s'.owners[k], s'.jobs)
    {
      assert SlotOk(k, s.slots[k], s.fds[k], s.owners[k], s.jobs);
    }
    assert SlotsOk(s');
  }

  /** The program takes over the slot of an answered request. */
  lemma ActivateKeeps(s: State, n: nat, e: Entry, h: nat)
    requires Inv(s) && !s.pc.Ready? && h == s.pc.h && n < FD_SETSIZE && h in s.jobs && s.jobs[h].SlotNo() == Some(n)
    requires e.active && !e.pendAccept && s.jobs[h].Content() == Occupied(e.sock)
    ensures Inv(Activate(s, n, e, h))
  {
    var s' := Activate(s, n, e, h);
    forall k | 0 <= k < FD_SETSIZE
      ensures SlotOk(k, s'.slots[k], s'.fds[k], s'.owners[k], s'.jobs)
    {
      assert SlotOk(k, s.slots[k], s.fds[k], s.owners[k], s.jobs);
    }
    assert SlotsOk(s');
  }

  lemma DropKeeps(s: State)
    requires Inv(s) && !s.pc.Ready? && s.pc.h in s.jobs && s.jobs[s.pc.h].SlotNo().None?
    ensures Inv(s.(jobs := s.jobs - {s.pc.h}, pc := Ready))
  {
    var s' := s.(jobs := s.jobs - {s.pc.h}, pc := Ready);
    forall k | 0 <= k < FD_SETSIZE
      ensures SlotOk(k, s'.slots[k], s'.fds[k], s'.owners[k], s'.jobs)
    {
      assert SlotOk(k, s.slots[k], s.fds[k], s.owners[k], s.jobs);
    }
    assert SlotsOk(s');
  }

  lemma ReturnKeeps(s: State, dgram: bool)
    requires Inv(s)
    ensures Inv(ReturnCall(s, dgram))
  {
    if !s.pc.Ready? {
      var h := s.pc.h;
      match s.jobs[h]
      case AllocDone(Some(n), sock) => ActivateKeeps(s, n, Entry(true, dgram, false, false, None, sock), h);
      case AcceptDone(Some(n), sock) =>
        ActivateKeeps(s, n, s.fds[n].(active := true, client := true, server := false, pendAccept := false, sock := sock), h);
      case AllocDone(None, _) => DropKeeps(s);
      case AcceptDone(None, _) => DropKeeps(s);
      case CloseDone => DropKeeps(s);
      case _ =>
    }
  }

  lemma TakeKeeps(s: State, h: nat, ok: bool)
    requires Inv(s)
    ensures Inv(TakeRequest(s, h, ok))
  {
    if h in s.jobs {
      var n := FirstFree(s.slots);
      if n.Some? {
        assert SlotOk(n.value, s.slots[n.value], s.fds[n.value], s.owners[n.value], s.jobs);
      }
      match s.jobs[h]
      case AllocSent =>
        if n.None? || !ok {
          JobKeeps(s, h, AllocDone(None, 0));
        } else {
          HoldKeeps(s, n.value, Occupied(s.socks), h, AllocDone(n, s.socks), Request(h), s.socks + 1);
        }
      case AcceptSent(fd) =>
        if fd >= |s.slots| || s.slots[fd] == Empty || n.None? {
          JobKeeps(s, h, AcceptDone(None, 0));
        } else {
          HoldKeeps(s, n.value, Reserved, h, Accepting(n.value), Request(h), s.socks);
        }
      case CloseSent(fd, sock) =>
        assert s.slots[fd] == Occupied(sock);
        JobKeeps(s, h, Closing(fd, sock));
      case _ =>
    }
  }

  lemma CompleteKeeps(s: State, h: nat, ok: bool)
    requires Inv(s)
    ensures Inv(CompleteRequest(s, h, ok))
  {
    if h in s.jobs {
      match s.jobs[h]
      case Accepting(n) =>
        if ok {
          HoldKeeps(s, n, Occupied(s.socks), h, AcceptDone(Some(n), s.socks), Request(h), s.socks + 1);
        } else {
          HoldKeeps(s, n, Empty, h, AcceptDone(None, 0), Nobody, s.socks);
        }
      case Closing(fd, _) => HoldKeeps(s, fd, Empty, h, CloseDone, Nobody, s.socks);
      case _ =>
    }
  }

  lemma StepKeeps(s: State, i: Input)
    requires Inv(s)
    ensures Inv(Step(s, i))
  {
    match i
    case Accept(fd, nonblock, nbselect) => if s.pc.Ready? { AcceptCallKeeps(s, fd, nonblock, nbselect); }
    case Close(fd) => if s.pc.Ready? { CloseCallKeeps(s, fd); }
    case Return(dgram) => ReturnKeeps(s, dgram);
    case Take(h, ok) => TakeKeeps(s, h, ok);
    case Complete(h, ok) => CompleteKeeps(s, h, ok);
    case _ => OtherCallsKeep(s, i);
  }

  lemma OtherCallsKeep(s: State, i: Input)
    requires Inv(s) && (i.Socket? || i.Listen? || i.Connect?)
    ensures Inv(Step(s, i))
  {
    var s' := Step(s, i);
    forall k | 0 <= k < FD_SETSIZE
      ensures SlotOk(k, s'.slots[k], s'.fds[k], s'.owners[k], s'.jobs)
    {
      assert SlotOk(k, s.slots[k], s.fds[k], s.owners[k], s.jobs);
    }
    assert SlotsOk(s');
  }

  /** No two slots hold the same socket. */
  ghost predicate SocksOk(s: State) {
    && (forall n :: 0 <= n < |s.slots| && s.slots[n].Occupied? ==> s.slots[n].sock < s.socks)
    && (forall m, n :: 0 <= m < n < |s.slots| && s.slots[m].Occupied? ==> s.slots[m] != s.slots[n])
  }

  lemma SlotKeepsSocks(s: State, n: nat, slot: Slot, socks: nat)
    requires SocksOk(s) && n < |s.slots| && s.socks <= socks
    requires slot.Occupied? ==> s.socks <= slot.sock < socks
    ensures SocksOk(s.(slots := s.slots[n := slot], socks := socks))
  {
  }

  lemma TakeKeepsSocks(s: State, h: nat, ok: bool)
    requires SocksOk(s)
    ensures SocksOk(TakeRequest(s, h, ok))
  {
    var n := FirstFree(s.slots);
    if n.Some? {
      SlotKeepsSocks(s, n.value, Occupied(s.socks), s.socks + 1);
      SlotKeepsSocks(s, n.value, Reserved, s.socks);
    }
  }

  lemma CompleteKeepsSocks(s: State, h: nat, ok: bool)
    requires SocksOk(s)
    ensures SocksOk(CompleteRequest(s, h, ok))
  {
    if h in s.jobs && s.jobs[h].SlotNo().Some? && s.jobs[h].SlotNo().value < |s.slots| {
      var n := s.jobs[h].SlotNo().value;
      SlotKeepsSocks(s, n, Occupied(s.socks), s.socks + 1);
      SlotKeepsSocks(s, n, Empty, s.socks);
    }
  }

  lemma SocksKeep(s: State, i: Input)
    requires SocksOk(s)
    ensures SocksOk(Step(s, i))
  {
    match i
    case Take(h, ok) => TakeKeepsSocks(s, h, ok);
    case Complete(h, ok) => CompleteKeepsSocks(s, h, ok);
    case _ => assert Step(s, i).slots == s.slots && Step(s, i).socks == s.socks;
  }

  lemma InitialSocksOk()
    ensures SocksOk(INITIAL)
  {
  }

  /**
   Over all interleavings: every open descriptor names an occupied slot holding the very socket it
   was opened for, and no two descriptors share one.
   */
  lemma {:induction false} DescriptorsHold(s: State, inputs: seq<Input>)
    requires Inv(s) && SocksOk(s)
    ensures var s' := Run(s, inputs);
            && Inv(s') && SocksOk(s')
            && (forall n: nat :: Opened(s', n) ==> n < |s'.slots| && s'.slots[n] == Occupied(s'.fds[n].sock))
            && (forall m: nat, n: nat :: Opened(s', m) && Opened(s', n) && m != n ==> s'.fds[m].sock != s'.fds[n].sock)
    decreases |inputs|
  {
    if inputs == [] {
      forall n: nat | Opened(s, n)
        ensures s.slots[n] == Occupied(s.fds[n].sock)
      {
        assert SlotOk(n, s.slots[n], s.fds[n], s.owners[n], s.jobs);
      }
      forall m: nat, n: nat | Opened(s, m) && Opened(s, n) && m != n
        ensures s.fds[m].sock != s.fds[n].sock
      {
        assert s.slots[m] == Occupied(s.fds[m].sock) && s.slots[n] == Occupied(s.fds[n].sock);
      }
    } else {
      StepKeeps(s, inputs[0]);
      SocksKeep(s, inputs[0]);
      DescriptorsHold(Step(s, inputs[0]), inputs[1..]);
    }
  }

  /** Every slot has at most one owner: two requests never name the same slot, and none names that of an open descriptor. */
  lemma OneOwner(s: State, g: nat, h: nat)
    requires Inv(s) && g in s.jobs && h in s.jobs && s.jobs[g].SlotNo().Some?
    ensures s.jobs[g].SlotNo() == s.jobs[h].SlotNo() ==> g == h
    ensures !Opened(s, s.jobs[g].SlotNo().value)
  {
    var n := s.jobs[g].SlotNo().value;
    assert SlotOk(n, s.slots[n], s.fds[n], s.owners[n], s.jobs);
  }

  /** Nothing but its own close touches an open descriptor and its slot. */
  lemma OpenStaysOpen(s: State, i: Input, n: nat)
    requires Inv(s) && Opened(s, n) && i != Close(n)
    ensures Opened(Step(s, i), n) && Step(s, i).fds[n].sock == s.fds[n].sock && Step(s, i).slots[n] == s.slots[n]
  {
    hide HandlesOk;
    assert SlotOk(n, s.slots[n], s.fds[n], s.owners[n], s.jobs);
    if i.Return? && !s.pc.Ready? {
      ReturnSlot(s, n);
    } else if i.Complete? && i.h in s.jobs && s.jobs[i.h].SlotNo().Some? {
      OneOwner(s, i.h, i.h);
    }
  }

  lemma ReturnSlot(s: State, n: nat)
    requires Inv(s) && !s.pc.Ready? && Opened(s, n)
    ensures s.jobs[s.pc.h].SlotNo() != Some(n)
  {
    if s.jobs[s.pc.h].SlotNo().Some? {
      OneOwner(s, s.pc.h, s.pc.h);
    }
  }

  /** A number is only handed out when its descriptor is closed and its slot holds a socket made for that request. */
  lemma NotHandedOutTwice(s: State, i: Input, n: nat)
    requires Inv(s) && !Opened(s, n) && Opened(Step(s, i), n)
    ensures i.Return? && !s.pc.Ready? && s.pc.h in s.jobs && n < |s.slots|
    ensures s.jobs[s.pc.h].SlotNo() == Some(n) && s.slots[n] == Occupied(Step(s, i).fds[n].sock)
    ensures forall h :: h in s.jobs && s.jobs[h].SlotNo() == Some(n) ==> h == s.pc.h
  {
    assert SlotOk(n, s.slots[n], s.fds[n], s.owners[n], s.jobs);
  }
}
