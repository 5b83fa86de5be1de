/**
 What the socket calls get when their requests have gone through proxy and pool thread: sockets are
 opened and closed, not only kept apart.
 */
module SocketCalls {
  import opened Bytes
  import opened SocketTables

  lemma RunOfFour(s: State, a: Input, b: Input, c: Input, d: Input)
    ensures Run(s, [a, b, c]) == Step(Step(Step(s, a), b), c)
    ensures Run(s, [a, b, c, d]) == Step(Step(Step(Step(s, a), b), c), d)
  {
    hide Step;
    assert [a, b, c][1..] == [b, c] && [b, c][1..] == [c] && [c][1..] == [];
    assert [a, b, c, d][1..] == [b, c, d] && [b, c, d][1..] == [c, d] && [c, d][1..] == [d] && [d][1..] == [];
    var s1 := Step(s, a);
    assert Run(s1, [b, c]) == Run(Step(s1, b), [c]) == Step(Step(s1, b), c);
    assert Run(s1, [b, c, d]) == Run(Step(s1, b), [c, d]) == Run(Step(Step(s1, b), c), [d]) == Step(Step(Step(s1, b), c), d);
  }

  predicate Full(slots: seq<Slot>) {
    forall k :: 0 <= k < |slots| ==> slots[k] != Empty
  }

  predicate LowestEmpty(slots: seq<Slot>, n: nat) {
    n < |slots| && slots[n] == Empty && forall k :: 0 <= k < n ==> slots[k] != Empty
  }

  /** Nothing but the count of requests has changed. */
  predicate AsBefore(s: State, s': State) {
    s'.slots == s.slots && s'.fds == s.fds && s'.jobs == s.jobs && s'.pc == Ready
  }

  /** A new socket is in slot `n`, and its descriptor is `e`. */
  predicate NewSocket(s: State, s': State, n: nat, e: Entry) {
    && n < |s.slots| && n < |s.fds| && s'.slots == s.slots[n := Occupied(s.socks)] && s'.fds == s.fds[n := e]
    && s'.jobs == s.jobs && s'.pc == Ready
  }

  lemma NextHandle(s: State)
    requires Inv(s)
    ensures s.handles !in s.jobs
  {
  }

  /** A request is answered and gone. */
  lemma JobGone(jobs: map<nat, Job>, h: nat, a: Job, b: Job)
    requires h !in jobs
    ensures jobs[h := b] - {h} == jobs && jobs[h := a][h := b] == jobs[h := b]
  {
    assert (jobs[h := b] - {h}).Keys == jobs.Keys;
  }

  /**
   `socket`: if the proxy supports the kind of socket and has an empty slot, the lowest one gets a
   new socket and its descriptor is open; otherwise nothing changes.
   */
  lemma SocketCall(s: State, ok: bool, dgram: bool)
    requires Inv(s) && s.pc.Ready?
    ensures var s' := Run(s, [Socket, Take(s.handles, ok), Return(dgram)]);
            if ok && !Full(s.slots)
            then exists n: nat :: LowestEmpty(s.slots, n) && NewSocket(s, s', n, Entry(true, dgram, false, false, None, s.socks))
            else AsBefore(s, s')
  {
    var h, n := s.handles, FirstFree(s.slots);
    RunOfFour(s, Socket, Take(h, ok), Return(dgram), Return(dgram));
    var s2 := Step(Step(s, Socket), Take(h, ok));
    var job := if ok && n.Some? then AllocDone(n, s.socks) else AllocDone(None, 0);
    JobGone(s.jobs, h, AllocSent, job);
    assert s2.jobs == s.jobs[h := job] && s2.pc == InSocket(h);
    SocketReturns(s, s2, h, job, dgram);
    if ok && n.Some? {
      assert LowestEmpty(s.slots, n.value) && NewSocket(s, Step(s2, Return(dgram)), n.value, Entry(true, dgram, false, false, None, s.socks));
    }
  }

  lemma SocketReturns(s: State, s2: State, h: nat, job: Job, dgram: bool)
    requires h !in s.jobs && s2.jobs == s.jobs[h := job] && s2.pc == InSocket(h) && s2.fds == s.fds && |s2.owners| == |s.fds|
    requires job.AllocDone? && (job.n.Some? ==> job.n.value < |s.fds|)
    ensures var s' := Step(s2, Return(dgram));
            && s'.slots == s2.slots && s'.jobs == s.jobs && s'.pc == Ready
            && s'.fds == if job.n.Some? then s.fds[job.n.value := Entry(true, dgram, false, false, None, job.sock)] else s.fds
  {
    JobGone(s.jobs, h, job, job);
  }

  // ---- accept ----

  /** A listening descriptor without a pending accept. */
  predicate Listens(s: State, fd: nat) {
    Opened(s, fd) && s.fds[fd].server && !s.fds[fd].client && s.fds[fd].recvHandle.None?
  }

  /** The descriptor of an accepted connection: its handle stays what it was. */
  function Accepted(s: State, n: nat): Entry
    requires n < |s.fds|
  {
    s.fds[n].(active := true, client := true, server := false, pendAccept := false, sock := s.socks)
  }

  /** An open descriptor has its slot. */
  lemma OpenHasSlot(s: State, fd: nat)
    requires Inv(s) && Opened(s, fd)
    ensures fd < FD_SETSIZE == |s.slots| == |s.fds| == |s.owners| && s.slots[fd] == Occupied(s.fds[fd].sock)
    ensures s.fds[fd].recvHandle.None? ==> !s.fds[fd].pendAccept
  {
    assert SlotOk(fd, s.slots[fd], s.fds[fd], s.owners[fd], s.jobs);
  }

  /** What an accept leads to: a new socket in the lowest empty slot, if there is one and a connection comes. */
  ghost predicate AcceptResult(s: State, s': State, ok: bool) {
    if ok && !Full(s.slots)
    then exists n: nat :: n < |s.fds| && LowestEmpty(s.slots, n) && NewSocket(s, s', n, Accepted(s, n))
    else AsBefore(s, s')
  }

  /** The answer to an accept request for an open descriptor. */
  function AcceptJob(slots: seq<Slot>, socks: nat, ok: bool): Job {
    var n := FirstFree(slots);
    if ok && n.Some? then AcceptDone(n, socks) else AcceptDone(None, 0)
  }

  /** The receipt and the completion of an accept request. */
  lemma AcceptServed(s: State, h: nat, fd: nat, taken: bool, ok: bool)
    requires Inv(s) && Opened(s, fd) && h in s.jobs && s.jobs[h] == AcceptSent(fd)
    ensures var s', n, job := Step(Step(s, Take(h, taken)), Complete(h, ok)), FirstFree(s.slots), AcceptJob(s.slots, s.socks, ok);
            && s'.jobs == s.jobs[h := job] && s'.fds == s.fds && s'.pc == s.pc && s'.handles == s.handles
            && s'.slots == (if job.n.Some? then s.slots[n.value := Occupied(s.socks)] else s.slots)
            && |s'.owners| == |s.owners|
  {
    OpenHasSlot(s, fd);
    var n := FirstFree(s.slots);
    if n.Some? {
      assert s.slots[n.value := Reserved][n.value := Empty] == s.slots;
      assert s.slots[n.value := Reserved][n.value := Occupied(s.socks)] == s.slots[n.value := Occupied(s.socks)];
    }
  }

  /** `accept` that waits: a connection that comes gets the lowest empty slot and an open descriptor. */
  lemma AcceptCallWaits(s: State, fd: nat, taken: bool, ok: bool, dgram: bool)
    requires Inv(s) && s.pc.Ready? && Listens(s, fd)
    ensures AcceptResult(s, Run(s, [Input.Accept(fd, false, false), Take(s.handles, taken), Complete(s.handles, ok), Return(dgram)]), ok)
  {
    hide TakeRequest, CompleteRequest, ReturnCall, Inv;
    var h, s1 := s.handles, Step(s, Input.Accept(fd, false, false));
    NextHandle(s);
    RunOfFour(s, Input.Accept(fd, false, false), Take(h, taken), Complete(h, ok), Return(dgram));
    StepKeeps(s, Input.Accept(fd, false, false));
    OpenHasSlot(s, fd);
    assert s1.fds == s.fds && s1.jobs == s.jobs[h := AcceptSent(fd)];
    AcceptServed(s1, h, fd, taken, ok);
    AcceptReturns(s, Step(Step(s1, Take(h, taken)), Complete(h, ok)), h, ok, dgram);
  }

  lemma AcceptReturns(s: State, s2: State, h: nat, ok: bool, dgram: bool)
    requires |s.slots| == |s.fds| == |s2.owners| && h !in s.jobs && s2.pc == InAccept(h)
    requires s2.fds == s.fds && s2.jobs == s.jobs[h := AcceptJob(s.slots, s.socks, ok)]
    requires var n := AcceptJob(s.slots, s.socks, ok).n; s2.slots == if n.Some? then s.slots[n.value := Occupied(s.socks)] else s.slots
    ensures AcceptResult(s, Step(s2, Return(dgram)), ok)
  {
    JobGone(s.jobs, h, AcceptSent(0), AcceptJob(s.slots, s.socks, ok));
    var n, s' := FirstFree(s.slots), Step(s2, Return(dgram));
    assert s2.jobs - {h} == s.jobs;
    if ok && n.Some? {
      assert LowestEmpty(s.slots, n.value) && NewSocket(s, s', n.value, Accepted(s, n.value));
    }
  }

  /** A descriptor that waits for an accept already sent. */
  predicate Expects(s: State, fd: nat) {
    && Opened(s, fd) && s.fds[fd].server && !s.fds[fd].client && s.fds[fd].pendAccept
    && s.fds[fd].recvHandle.Some? && s.fds[fd].recvHandle.value in s.jobs
  }

  /** `accept` that must not wait: the first call only sends the request, and further ones change nothing until it is answered. */
  lemma AcceptCallSends(s: State, fd: nat, nonblock: bool, nbselect: bool)
    requires Inv(s) && s.pc.Ready? && Listens(s, fd) && (nonblock || nbselect)
    ensures var s' := Step(s, Input.Accept(fd, nonblock, nbselect));
            && Inv(s') && Expects(s', fd) && s'.jobs == s.jobs[s.handles := AcceptSent(fd)] && s'.fds[fd].recvHandle == Some(s.handles)
            && s'.slots == s.slots && s'.pc.Ready? && s'.fds == s.fds[fd := s'.fds[fd]]
  {
    StepKeeps(s, Input.Accept(fd, nonblock, nbselect));
  }

  lemma AcceptCallExpects(s: State, fd: nat, nbselect: bool)
    requires s.pc.Ready? && Expects(s, fd) && !s.jobs[s.fds[fd].recvHandle.value].AcceptDone?
    ensures Step(s, Input.Accept(fd, true, nbselect)) == s
  {
  }

  /** Once it is answered, the next call gets the connection, and the descriptor is free for another one. */
  lemma AcceptCallGets(s: State, fd: nat, nonblock: bool, nbselect: bool, dgram: bool)
    requires Inv(s) && s.pc.Ready? && Expects(s, fd) && s.jobs[s.fds[fd].recvHandle.value].AcceptDone?
    ensures var s', h := Run(s, [Input.Accept(fd, nonblock, nbselect), Return(dgram), Return(dgram)]), s.fds[fd].recvHandle.value;
            var heard, n := s.fds[fd := s.fds[fd].(recvHandle := None, pendAccept := false)], s.jobs[h].n;
            && s'.pc.Ready? && s'.slots == s.slots && s'.jobs == s.jobs - {h} && Listens(s', fd)
            && if n.None? then s'.fds == heard
               else
                 && n.value < |heard| && n.value != fd && s.slots[n.value] == Occupied(s.jobs[h].sock)
                 && s'.fds == heard[n.value := heard[n.value].(active := true, client := true, server := false, pendAccept := false, sock := s.jobs[h].sock)]
  {
    var h := s.fds[fd].recvHandle.value;
    RunOfFour(s, Input.Accept(fd, nonblock, nbselect), Return(dgram), Return(dgram), Return(dgram));
    OpenHasSlot(s, fd);
    if s.jobs[h].n.Some? {
      OneOwner(s, h, h);
      var n := s.jobs[h].n.value;
      assert SlotOk(n, s.slots[n], s.fds[n], s.owners[n], s.jobs);
    }
  }

  /** An accept for a descriptor that is closed, connected, not listening, or waited for already changes nothing. */
  lemma AcceptCallRefused(s: State, fd: nat, nonblock: bool, nbselect: bool)
    requires !Opened(s, fd) || s.fds[fd].client || !s.fds[fd].server || (s.fds[fd].recvHandle.Some? && !s.fds[fd].pendAccept)
    ensures Step(s, Input.Accept(fd, nonblock, nbselect)) == s
  {
  }

  // ---- close, listen and connect ----

  /** `close`: the slot is empty again and the descriptor closed, which keeps only its handle; nothing else changes. */
  lemma CloseCallFrees(s: State, fd: nat, taken: bool, done: bool, dgram: bool)
    requires Inv(s) && s.pc.Ready?
    ensures var s' := Run(s, [Close(fd), Take(s.handles, taken), Complete(s.handles, done), Return(dgram)]);
            if Opened(s, fd)
            then
              && s'.slots == s.slots[fd := Empty] && s'.jobs == s.jobs && s'.pc.Ready?
              && s'.fds == s.fds[fd := CLOSED.(recvHandle := s.fds[fd].recvHandle, sock := s.fds[fd].sock)]
            else s' == s
  {
    hide TakeRequest, CompleteRequest, Inv;
    var h := s.handles;
    NextHandle(s);
    RunOfFour(s, Close(fd), Take(h, taken), Complete(h, done), Return(dgram));
    if Opened(s, fd) {
      OpenHasSlot(s, fd);
      CloseServed(Step(s, Close(fd)), h, fd, taken, done);
      JobGone(s.jobs, h, CloseSent(fd, s.fds[fd].sock), CloseDone);
    } else {
      NothingServed(s, h, taken, done);
    }
  }

  lemma NothingServed(s: State, h: nat, taken: bool, done: bool)
    requires h !in s.jobs
    ensures Step(Step(s, Take(h, taken)), Complete(h, done)) == s
  {
  }

  /** The receipt and the completion of a close request. */
  lemma CloseServed(s: State, h: nat, fd: nat, taken: bool, done: bool)
    requires h in s.jobs && s.jobs[h].CloseSent? && s.jobs[h].fd == fd && fd < |s.slots| == |s.owners| && s.slots[fd] != Empty
    ensures var s' := Step(Step(s, Take(h, taken)), Complete(h, done));
            s' == s.(slots := s.slots[fd := Empty], owners := s.owners[fd := Nobody], jobs := s.jobs[h := CloseDone])
  {
  }

  /** `listen` makes an open descriptor that is not connected one that accepts, and changes nothing else. */
  lemma ListenCall(s: State, fd: nat)
    requires s.pc.Ready?
    ensures var s' := Step(s, Listen(fd));
            if Opened(s, fd) && !s.fds[fd].client
            then
              && Opened(s', fd) && s'.fds[fd].server && !s'.fds[fd].client && s'.fds[fd].recvHandle == s.fds[fd].recvHandle
              && s' == s.(fds := s.fds[fd := s.fds[fd].(server := true)])
            else s' == s
  {
  }

  /** `connect` shuts out listening and accepting, as listening shuts out connecting. */
  lemma ConnectCall(s: State, fd: nat, nonblock: bool, nbselect: bool)
    requires s.pc.Ready? && Opened(s, fd)
    ensures var s' := Step(s, Connect(fd));
            if s.fds[fd].server then s' == s
            else Opened(s', fd) && s'.slots == s.slots && Step(s', Listen(fd)) == s' && Step(s', Input.Accept(fd, nonblock, nbselect)) == s'
    ensures var s' := Step(s, Listen(fd)); !s.fds[fd].client ==> Step(s', Connect(fd)) == s'
  {
  }

  // ---- between other steps ----

  /** A request on its way is changed only by its own receipt, completion and return, so others may come in between. */
  lemma JobStays(s: State, i: Input, h: nat)
    requires Inv(s) && h in s.jobs
    requires !(i.Take? && i.h == h) && !(i.Complete? && i.h == h) && !(i.Return? && !s.pc.Ready? && s.pc.h == h)
    ensures h in Step(s, i).jobs && Step(s, i).jobs[h] == s.jobs[h]
    ensures s.pc != Ready && s.pc.h == h ==> Step(s, i).pc == s.pc
  {
    assert h < s.handles;
    hide Inv, Job.SlotNo, Job.Content;
    match i
    case Return(dgram) => hide AcceptCall, CloseCall, TakeRequest, CompleteRequest;
    case Take(_, _) => hide AcceptCall, CloseCall, ReturnCall, CompleteRequest, FirstFree;
    case Complete(_, _) => hide AcceptCall, CloseCall, ReturnCall, TakeRequest;
    case _ => hide ReturnCall, TakeRequest, CompleteRequest;
  }
}
