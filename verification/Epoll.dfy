/** One coalesced change of the interest in a file descriptor, and how epoll is told of it. */
module Epoll {

  /** EV_READ/EV_WRITE, or EPOLLIN/EPOLLOUT: a set of two flags. */
  datatype Interest = Interest(read: bool, write: bool)

  const NOTHING := Interest(false, false)

  /** read_change or write_change: 0, EV_CHANGE_ADD or EV_CHANGE_DEL. */
  datatype Act = Keep | Add | Del

  /** struct event_change. */
  datatype Change = Change(fd: int, was: Interest, read: Act, write: Act)

  datatype Op = CtlAdd | CtlMod | CtlDel

  datatype Errno = Success | EEXIST | ENOENT | EBADF

  /** The kernel's side of an epoll instance: the registered descriptors and their event masks. */
  class Kernel {
    var reg: map<int, Interest>
    /** The descriptors that have been closed and not been opened again. */
    var closed: set<int>
    /** How many calls have been refused. */
    var refused: nat
    /** How many registrations went when their descriptors were closed. */
    var dropped: nat
    /** The descriptors of those that no call has named since. */
    var lost: set<int>

    constructor ()
      ensures reg == map[] && refused == 0 && dropped == 0 && closed == lost == {}
    {
      reg, refused, dropped, closed, lost := map[], 0, 0, {}, {};
    }

    /** close. */
    method Close(fd: int)
      modifies this
      ensures reg == old(reg) - {fd} && closed == old(closed) + {fd} && refused == old(refused)
      ensures dropped == old(dropped) + if fd in old(reg) then 1 else 0
      ensures lost == if fd in old(reg) then old(lost) + {fd} else old(lost)
    {
      closed := closed + {fd};
      if fd in reg {
        reg, dropped, lost := reg - {fd}, dropped + 1, lost + {fd};
      }
    }

    /** What to answer to a call. */
    function Answer(op: Op, fd: int): Errno
      reads this
    {
      if fd in closed then EBADF
      else if op.CtlAdd? then if fd in reg then EEXIST else Success
      else if fd in reg then Success else ENOENT
    }

    /** epoll_ctl. */
    method EpollCtl(op: Op, fd: int, events: Interest) returns (errno: Errno)
      modifies this`reg, this`refused, this`lost
      ensures errno == EBADF <==> fd in closed
      ensures errno == EEXIST <==> fd !in closed && op.CtlAdd? && fd in old(reg)
      ensures errno == ENOENT <==> fd !in closed && !op.CtlAdd? && fd !in old(reg)
      ensures reg == if errno != Success then old(reg) else if op.CtlDel? then old(reg) - {fd} else old(reg)[fd := events]
      ensures refused == old(refused) + if errno == Success then 0 else 1
      ensures lost == old(lost) - {fd}
    {
      errno := Answer(op, fd);
      lost := lost - {fd};
      if errno != Success {
        refused := refused + 1;
      } else if op.CtlDel? {
        reg := reg - {fd};
      } else {
        reg := reg[fd := events];
      }
    }
  }

  function After(was: bool, act: Act): bool {
    act.Add? || (act.Keep? && was)
  }

  /** The interest that is left once a change has been made to what it found. */
  function Applied(ch: Change): Interest {
    Interest(After(ch.was.read, ch.read), After(ch.was.write, ch.write))
  }

  /** Nothing is to be changed. */
  predicate Idle(ch: Change) {
    ch.read.Keep? && ch.write.Keep?
  }

  /** What the registrations should be after a change: `want` on fd, and no registration for no interest. */
  function Told(reg: map<int, Interest>, fd: int, want: Interest): map<int, Interest> {
    if want == NOTHING then reg - {fd} else reg[fd := want]
  }

  /** The first part of epoll_apply_one_change: which call to make. No flag at all means no call. */
  method ChooseOp(ch: Change) returns (op: Op, events: Interest)
    ensures events == NOTHING <==> Idle(ch)
    ensures events != NOTHING ==> op == if Applied(ch) == NOTHING then CtlDel else
                                        if ch.was == NOTHING && (ch.read.Add? || ch.write.Add?) then CtlAdd else CtlMod
    ensures events != NOTHING && !op.CtlDel? ==> events == Applied(ch)
  {
    op, events := CtlAdd, NOTHING;
    if ch.read.Add? || ch.write.Add? {
      if ch.read.Add? {
        events := events.(read := true);
      } else if ch.read.Del? {
      } else if ch.was.read {
        events := events.(read := true);
      }
      if ch.write.Add? {
        events := events.(write := true);
      } else if ch.write.Del? {
      } else if ch.was.write {
        events := events.(write := true);
      }
      if ch.was != NOTHING {
        op := CtlMod;
      }
    } else if ch.read.Del? || ch.write.Del? {
      op := CtlDel;
      if ch.read.Del? {
        if ch.write.Del? {
          events := Interest(true, true);
        } else if ch.was.write {
          events, op := Interest(false, true), CtlMod;
        } else {
          events := Interest(true, false);
        }
      } else if ch.write.Del? {
        if ch.was.read {
          events, op := Interest(true, false), CtlMod;
        } else {
          events := Interest(false, true);
        }
      }
    }
  }

  /** A delete is recorded only for interest that was there before. */
  predicate Sound(ch: Change) {
    (ch.read.Del? ==> ch.was.read) && (ch.write.Del? ==> ch.was.write)
  }

  /** No flag is left to what the kernel holds: all old interest is either added again or deleted. */
  predicate Overwrites(ch: Change) {
    ch.was != NOTHING && (ch.was.read ==> !ch.read.Keep?) && (ch.was.write ==> !ch.write.Keep?)
  }

  /**
   * epoll_apply_one_change. Whatever the kernel held before, it then holds what the change asks
   * for; and if it held what the change took for granted, no call was refused on the way. Only a
   * closed descriptor for which something is wanted makes it fail.
   */
  method ApplyOneChange(kernel: Kernel, ch: Change) returns (r: int)
    requires ch.fd in kernel.closed ==> ch.fd !in kernel.reg
    modifies kernel`reg, kernel`refused, kernel`lost
    ensures r == if ch.fd in kernel.closed && !Idle(ch) && Applied(ch) != NOTHING then -1 else 0
    ensures kernel.reg == if Idle(ch) || r == -1 then old(kernel.reg) else Told(old(kernel.reg), ch.fd, Applied(ch))
    ensures Idle(ch) || (ch.fd !in kernel.closed && Sound(ch) && (ch.fd in old(kernel.reg) <==> ch.was != NOTHING)) ==>
      kernel.refused == old(kernel.refused)
    ensures kernel.refused <= old(kernel.refused) + 1
    ensures kernel.lost == if Idle(ch) then old(kernel.lost) else old(kernel.lost) - {ch.fd}
  {
    var op, events := ChooseOp(ch);
    if events == NOTHING {
      return 0;
    }
    var errno := kernel.EpollCtl(op, ch.fd, events);
    if errno != Success {
      if op == CtlMod && errno == ENOENT {
        errno := kernel.EpollCtl(CtlAdd, ch.fd, events);
        if errno != Success {
          return -1;
        }
      } else if op == CtlAdd && errno == EEXIST {
        errno := kernel.EpollCtl(CtlMod, ch.fd, events);
        if errno != Success {
          return -1;
        }
      } else if op == CtlDel && (errno == ENOENT || errno == EBADF) {
      } else {
        return -1;
      }
    }
    return 0;
  }
}
