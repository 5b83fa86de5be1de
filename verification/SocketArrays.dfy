/**
 The socket arrays of both sides, updated in place: each operation does to its array what the
 corresponding step does to the tables.
 */
module SocketArrays {
  import opened Bytes
  import opened SocketTables

  /** The proxy's array; every access is under its lock. */
  class ProxySockets {
    const sockets: array<Slot>

    ghost predicate Valid() {
      sockets.Length == FD_SETSIZE
    }

    constructor ()
      ensures Valid() && fresh(sockets) && sockets[..] == INITIAL.slots
    {
      sockets := new Slot[FD_SETSIZE](_ => Empty);
    }

    /** Reserves the lowest empty slot. */
    method GetFreeSocket() returns (r: int)
      requires Valid()
      modifies sockets
      ensures match FirstFree(old(sockets[..]))
              case Some(n) => r == n && sockets[..] == old(sockets[..])[n := Reserved]
              case None => r == -1 && sockets[..] == old(sockets[..])
    {
      for i := 0 to sockets.Length
        invariant forall k :: 0 <= k < i ==> sockets[k] != Empty
        invariant sockets[..] == old(sockets[..])
      {
        if sockets[i] == Empty {
          FirstFreeIs(sockets[..], i);
          sockets[i] := Reserved;
          return i;
        }
      }
      r := -1;
    }

    method GetSocket(fd: int) returns (slot: Slot)
      requires Valid()
      ensures slot == if 0 <= fd < FD_SETSIZE then sockets[fd] else Empty
    {
      if fd < 0 || fd >= sockets.Length { return Empty; }
      return sockets[fd];
    }

    method SetSocket(fd: int, slot: Slot)
      requires Valid()
      modifies sockets
      ensures sockets[..] == if 0 <= fd < FD_SETSIZE then old(sockets[..])[fd := slot] else old(sockets[..])
    {
      if fd < 0 || fd >= sockets.Length { return; }
      sockets[fd] := slot;
    }

    /** The allocation of a socket when its request `h` comes; `ok` tells whether the kind of socket is supported. */
    method AllocSocket(ok: bool, sock: nat, ghost s: State, ghost h: nat) returns (answer: Option<nat>)
      requires Valid() && s.slots == sockets[..] && |s.owners| == |s.slots| && s.socks == sock
      requires h in s.jobs && s.jobs[h] == AllocSent
      modifies sockets
      ensures sockets[..] == TakeRequest(s, h, ok).slots
      ensures h in TakeRequest(s, h, ok).jobs && TakeRequest(s, h, ok).jobs[h] == AllocDone(answer, if answer.Some? then sock else 0)
    {
      var sockNo := GetFreeSocket();
      if sockNo < 0 { return None; }
      if !ok {
        SetSocket(sockNo, Empty);
        return None;
      }
      SetSocket(sockNo, Occupied(sock));
      return Some(sockNo);
    }

    /** An accept request comes: its descriptor must name a slot in use, and a slot is reserved for the connection. */
    method ReceiveAccept(fd: nat, ghost s: State, ghost h: nat) returns (m: Option<SocketManager>)
      requires Valid() && s.slots == sockets[..] && |s.owners| == |s.slots|
      requires h in s.jobs && s.jobs[h] == AcceptSent(fd)
      modifies sockets
      ensures sockets[..] == TakeRequest(s, h, true).slots && h in TakeRequest(s, h, true).jobs
      ensures TakeRequest(s, h, true).jobs[h] == match m case None => AcceptDone(None, 0) case Some(manager) => Accepting(manager.sockNo)
      ensures m.Some? ==> m.value.allowSet && m.value.sockNo < FD_SETSIZE
    {
      var proxy := GetSocket(fd);
      if proxy == Empty { return None; }
      var newSockNo := GetFreeSocket();
      if newSockNo < 0 { return None; }
      return Some(SocketManager(newSockNo, true));
    }

    /** The end of a pool thread's accept or close, whose slot is that of the manager. */
    method Finish(m: SocketManager, ok: bool, sock: nat, ghost s: State, ghost h: nat)
      requires Valid() && s.slots == sockets[..] && |s.owners| == |s.slots| && s.socks == sock && m.sockNo < FD_SETSIZE
      requires h in s.jobs && (if m.allowSet then s.jobs[h] == Accepting(m.sockNo)
                               else s.jobs[h].Closing? && s.jobs[h].fd == m.sockNo && !ok)
      modifies sockets
      ensures sockets[..] == CompleteRequest(s, h, ok).slots
    {
      if ok {
        if m.allowSet { SetSocket(m.sockNo, Occupied(sock)); }
      } else {
        SetSocket(m.sockNo, Empty);
      }
    }
  }

  /** The number of a slot, and whether a socket may be put into it. */
  datatype SocketManager = SocketManager(sockNo: nat, allowSet: bool)

  lemma {:induction false} FirstFreeIs(slots: seq<Slot>, n: nat)
    requires n < |slots| && slots[n] == Empty && forall k :: 0 <= k < n ==> slots[k] != Empty
    ensures FirstFree(slots) == Some(n)
  {
  }

  datatype Outcome = NotOpen | Unsupported | Invalid | InProgress | WouldBlock | Already | WaitFor(h: nat)

  /** A descriptor that listens. */
  predicate Accepts(s: State, fd: nat) {
    Opened(s, fd) && s.fds[fd].server && !s.fds[fd].client
  }

  /** The client's array. */
  class ClientSockets {
    const sockets: array<Entry>

    ghost predicate Valid() {
      sockets.Length == FD_SETSIZE
    }

    constructor ()
      ensures Valid() && fresh(sockets) && sockets[..] == INITIAL.fds
    {
      sockets := new Entry[FD_SETSIZE](_ => CLOSED);
    }

    /** closesocket up to its request, which gets the handle `h`. */
    method CloseSocket(fd: nat, h: nat, ghost s: State) returns (r: Outcome)
      requires Valid() && s.fds == sockets[..] && s.handles == h
      modifies sockets
      ensures sockets[..] == CloseCall(s, fd).fds
      ensures if Opened(s, fd) then r == WaitFor(h) && CloseCall(s, fd).pc == InClose(h) else r == NotOpen
    {
      if fd >= sockets.Length || !sockets[fd].active { return NotOpen; }
      sockets[fd] := sockets[fd].(active := false, client := false, server := false, pendAccept := false);
      return WaitFor(h);
    }

    /** accept up to its wait; a new request gets the handle `newHandle`. */
    method AcceptSocket(fd: nat, nonblock: bool, nbselect: bool, newHandle: nat, answered: bool, ghost s: State) returns (r: Outcome)
      requires Valid() && s.fds == sockets[..] && s.handles == newHandle && s.pc == Ready
      requires Opened(s, fd) && s.fds[fd].recvHandle.Some? ==>
        (answered <==> s.fds[fd].recvHandle.value in s.jobs && s.jobs[s.fds[fd].recvHandle.value].AcceptDone?)
      modifies sockets
      ensures sockets[..] == AcceptCall(s, fd, nonblock, nbselect).fds
      ensures AcceptCall(s, fd, nonblock, nbselect).pc == if r.WaitFor? then InAccept(r.h) else Ready
      ensures r.NotOpen? <==> !Opened(s, fd)
      ensures r.Unsupported? <==> Opened(s, fd) && s.fds[fd].client
      ensures r.Invalid? <==> Opened(s, fd) && !s.fds[fd].client && !s.fds[fd].server
      ensures r.InProgress? <==> Accepts(s, fd) && s.fds[fd].recvHandle.Some? && !s.fds[fd].pendAccept
      ensures r.WouldBlock? <==> Accepts(s, fd) && s.fds[fd].recvHandle.None? && (nonblock || nbselect)
      ensures r.Already? <==> Accepts(s, fd) && s.fds[fd].recvHandle.Some? && s.fds[fd].pendAccept && nonblock && !answered
      ensures r.WaitFor? ==> r.h == if s.fds[fd].recvHandle.Some? then s.fds[fd].recvHandle.value else newHandle
    {
      if fd >= sockets.Length || !sockets[fd].active { return NotOpen; }
      if sockets[fd].client { return Unsupported; }
      if !sockets[fd].server { return Invalid; }
      if sockets[fd].recvHandle.Some? && !sockets[fd].pendAccept { return InProgress; }
      var handle := sockets[fd].recvHandle;
      if handle.None? {
        handle := Some(newHandle);
        if nbselect || nonblock {
          sockets[fd] := sockets[fd].(recvHandle := handle, pendAccept := true);
          return WouldBlock;
        }
      } else if nonblock && !answered {
        return Already;
      }
      sockets[fd] := sockets[fd].(recvHandle := None, pendAccept := false);
      return WaitFor(handle.value);
    }

    /** The end of socket: the entry starts anew. */
    method SocketReturned(n: nat, dgram: bool, sock: nat, ghost s: State)
      requires Valid() && s.fds == sockets[..] && |s.owners| == FD_SETSIZE && n < FD_SETSIZE
      requires s.pc.InSocket? && s.pc.h in s.jobs && s.jobs[s.pc.h] == AllocDone(Some(n), sock)
      modifies sockets
      ensures sockets[..] == ReturnCall(s, dgram).fds
    {
      sockets[n] := Entry(true, dgram, false, false, None, sock);
    }

    /** The end of accept: the entry gets new flags and keeps its old handle. */
    method AcceptReturned(n: nat, sock: nat, ghost s: State)
      requires Valid() && s.fds == sockets[..] && |s.owners| == FD_SETSIZE && n < FD_SETSIZE
      requires s.pc.InAccept? && s.pc.h in s.jobs && s.jobs[s.pc.h] == AcceptDone(Some(n), sock)
      modifies sockets
      ensures sockets[..] == ReturnCall(s, false).fds
    {
      sockets[n] := sockets[n].(active := true, client := true, server := false, pendAccept := false, sock := sock);
    }
  }
}
