/** The map from descriptors to events, and the changelist that batches what the backend is told. */
module Evmap {
  import opened Bytes
  import opened Directions
  import opened Lists
  import opened Epoll

  /** An event on a descriptor, and what it waits for. */
  datatype Event = Event(id: nat, fd: int, wants: Interest)

  /** struct evmap_io with the changelist's fdinfo behind it. */
  datatype EvmapIo = EvmapIo(events: seq<Event>, nread: nat, nwrite: nat, idxplus1: nat)

  const MAX_EVENTS: nat := 0xffff

  predicate Has(i: Interest, dir: Dir) {
    match dir case Read => i.read case Write => i.write
  }

  function Count(events: seq<Event>, dir: Dir): nat {
    if events == [] then 0
    else Count(events[..|events| - 1], dir) + if Has(events[|events| - 1].wants, dir) then 1 else 0
  }

  /** What the events together wait for. */
  function Union(events: seq<Event>): Interest {
    Interest(exists e :: e in events && e.wants.read, exists e :: e in events && e.wants.write)
  }

  lemma {:induction false} CountConcat(a: seq<Event>, b: seq<Event>, dir: Dir)
    ensures Count(a + b, dir) == Count(a, dir) + Count(b, dir)
  {
    if b == [] {
      assert a + b == a;
    } else {
      assert (a + b)[..|a + b| - 1] == a + b[..|b| - 1];
      CountConcat(a, b[..|b| - 1], dir);
    }
  }

  lemma {:induction false} CountPositive(events: seq<Event>, dir: Dir)
    ensures Count(events, dir) > 0 <==> exists e :: e in events && Has(e.wants, dir)
  {
    if events != [] {
      var n := |events| - 1;
      CountPositive(events[..n], dir);
      assert forall e :: e in events <==> e in events[..n] || e == events[n];
    }
  }

  /** The counters say whether anyone wants to read or write. */
  lemma UnionIsCounted(events: seq<Event>)
    ensures Union(events) == Interest(Count(events, Read) > 0, Count(events, Write) > 0)
  {
    CountPositive(events, Read);
    CountPositive(events, Write);
    assert forall e: Event :: Has(e.wants, Read) == e.wants.read && Has(e.wants, Write) == e.wants.write;
  }

  /** One event more would not be too many for the 16-bit counters. */
  predicate Fits(events: seq<Event>, ev: Event) {
    Count(events + [ev], Read) <= MAX_EVENTS && Count(events + [ev], Write) <= MAX_EVENTS
  }

  /** An event is refused exactly when a counter that it would raise stands at 65535 already. */
  lemma RefusedIsFull(events: seq<Event>, ev: Event)
    requires Count(events, Read) <= 65535 && Count(events, Write) <= 65535
    ensures !Fits(events, ev) <==>
      (ev.wants.read && Count(events, Read) == 65535) || (ev.wants.write && Count(events, Write) == 65535)
  {
    assert (events + [ev])[..|events|] == events;
  }

  lemma CountWithout(events: seq<Event>, k: nat, dir: Dir)
    requires k < |events|
    ensures Count(events, dir) == Count(Without(events, k), dir) + if Has(events[k].wants, dir) then 1 else 0
  {
    assert events == events[..k] + ([events[k]] + events[k + 1..]);
    CountConcat(events[..k], [events[k]] + events[k + 1..], dir);
    CountConcat([events[k]], events[k + 1..], dir);
    CountConcat(events[..k], events[k + 1..], dir);
    assert [events[k]][..0] == [];
  }

  /** The slot of a descriptor, if it has one. */
  function SlotOf(entries: seq<Option<EvmapIo>>, fd: int): Option<EvmapIo> {
    if 0 <= fd < |entries| then entries[fd] else None
  }

  /** Where the slot says the change is, from 1 on; 0 when there is none. */
  function IdxOf(entries: seq<Option<EvmapIo>>, fd: int): nat {
    var io := SlotOf(entries, fd);
    if io.Some? then io.value.idxplus1 else 0
  }

  /** The change that waits for a slot's descriptor. */
  ghost function Pending(io: EvmapIo, changes: seq<Change>): Option<Change> {
    if 0 < io.idxplus1 <= |changes| then Some(changes[io.idxplus1 - 1]) else None
  }

  /** What the kernel watches for on a descriptor. */
  ghost function Watched(reg: map<int, Interest>, fd: int): Interest {
    if fd in reg then reg[fd] else NOTHING
  }

  /**
   * With the pending change made, if there is one, the kernel would watch for `want` on the
   * descriptor. When its registration is lost, the change must not take anything of it for granted.
   */
  ghost predicate Meets(fd: int, pending: Option<Change>, watched: Interest, lost: bool, want: Interest) {
    match pending
    case None => watched == want && !lost
    case Some(ch) =>
      && ch.fd == fd && Sound(ch) && Applied(ch) == want
      && if lost then watched == NOTHING && Overwrites(ch) else ch.was == watched
  }

  /** What the counters say is wanted. */
  function Counted(io: EvmapIo): Interest {
    Interest(io.nread > 0, io.nwrite > 0)
  }

  ghost predicate CountsOk(io: EvmapIo) {
    io.nread == Count(io.events, Read) <= MAX_EVENTS && io.nwrite == Count(io.events, Write) <= MAX_EVENTS
  }

  /** A descriptor's slot, pending change and registration fit; without a slot it is not registered. */
  ghost predicate FdOk(fd: int, entries: seq<Option<EvmapIo>>, changes: seq<Change>, n: nat,
                       reg: map<int, Interest>, lost: set<int>) {
    && (fd in reg ==> reg[fd] != NOTHING)
    && match SlotOf(entries, fd)
       case None => fd !in reg && fd !in lost
       case Some(io) =>
         io.idxplus1 <= n && CountsOk(io) && Meets(fd, Pending(io, changes), Watched(reg, fd), fd in lost, Counted(io))
  }

  /** The slot of a change's descriptor knows where the change is. */
  ghost predicate ChangeOk(i: nat, entries: seq<Option<EvmapIo>>, changes: seq<Change>)
    requires i < |changes|
  {
    var io := SlotOf(entries, changes[i].fd);
    io.Some? && io.value.idxplus1 == i + 1
  }

  ghost predicate AllOk(entries: seq<Option<EvmapIo>>, changes: seq<Change>, n: nat,
                        reg: map<int, Interest>, lost: set<int>) {
    && n <= |changes|
    && (forall fd :: FdOk(fd, entries, changes, n, reg, lost))
    && (forall i: nat :: i < n ==> ChangeOk(i, entries, changes))
  }

  /** idxplus1 is the exact inverse of the changelist, which therefore names no descriptor twice. */
  lemma InverseIndex(entries: seq<Option<EvmapIo>>, changes: seq<Change>, n: nat,
                     reg: map<int, Interest>, lost: set<int>, fd: int, i: nat)
    requires AllOk(entries, changes, n, reg, lost)
    ensures IdxOf(entries, fd) == i + 1 <==> i < n && changes[i].fd == fd
    ensures forall j, k :: 0 <= j < k < n ==> changes[j].fd != changes[k].fd
  {
    assert FdOk(fd, entries, changes, n, reg, lost);
    assert i < n ==> ChangeOk(i, entries, changes);
    forall j, k | 0 <= j < k < n
      ensures changes[j].fd != changes[k].fd
    {
      assert ChangeOk(j, entries, changes) && ChangeOk(k, entries, changes);
    }
  }

  /** A step that leaves alone all descriptors but one, and all changes but that one's. */
  ghost predicate OnlyFd(fd: int, es: seq<Option<EvmapIo>>, cs: seq<Change>, n: nat, reg: map<int, Interest>, lost: set<int>,
                         es': seq<Option<EvmapIo>>, cs': seq<Change>, n': nat, reg': map<int, Interest>, lost': set<int>) {
    && n <= |cs| && n' <= |cs'| && n <= n'
    && (if n' == n then IdxOf(es', fd) == IdxOf(es, fd) else n' == n + 1 == IdxOf(es', fd) && IdxOf(es, fd) == 0)
    && (forall g :: g != fd ==> SlotOf(es', g) == SlotOf(es, g))
    && (forall g :: g != fd ==> (g in reg' <==> g in reg) && Watched(reg', g) == Watched(reg, g))
    && (forall g :: g != fd ==> (g in lost' <==> g in lost))
    && (forall i :: 0 <= i < n && i + 1 != IdxOf(es, fd) ==> cs'[i] == cs[i])
  }

  /** Such a step keeps everything in order if it does so for its descriptor. */
  lemma OneFdSteps(fd: int, es: seq<Option<EvmapIo>>, cs: seq<Change>, n: nat, reg: map<int, Interest>, lost: set<int>,
                   es': seq<Option<EvmapIo>>, cs': seq<Change>, n': nat, reg': map<int, Interest>, lost': set<int>)
    requires AllOk(es, cs, n, reg, lost) && OnlyFd(fd, es, cs, n, reg, lost, es', cs', n', reg', lost')
    requires FdOk(fd, es', cs', n', reg', lost')
    ensures AllOk(es', cs', n', reg', lost')
  {
    assert FdOk(fd, es, cs, n, reg, lost);
    forall g
      ensures FdOk(g, es', cs', n', reg', lost')
    {
      assert FdOk(g, es, cs, n, reg, lost);
    }
    forall i: nat | i < n'
      ensures ChangeOk(i, es', cs')
    {
      assert i < n ==> ChangeOk(i, es, cs);
    }
  }

  /** A descriptor for which the kernel has been told everything. */
  ghost predicate FdSettled(fd: int, entries: seq<Option<EvmapIo>>, reg: map<int, Interest>, lost: set<int>) {
    && (fd in reg ==> reg[fd] != NOTHING)
    && match SlotOf(entries, fd)
       case None => fd !in reg && fd !in lost
       case Some(io) => CountsOk(io) && Watched(reg, fd) == Counted(io) && fd !in lost
  }

  /** A descriptor when the first i changes have been made. */
  ghost predicate HalfWay(fd: int, entries: seq<Option<EvmapIo>>, changes: seq<Change>, n: nat,
                          reg: map<int, Interest>, lost: set<int>, i: nat) {
    if IdxOf(entries, fd) > i then FdOk(fd, entries, changes, n, reg, lost) else FdSettled(fd, entries, reg, lost)
  }

  ghost predicate AllHalfWay(entries: seq<Option<EvmapIo>>, changes: seq<Change>, n: nat,
                             reg: map<int, Interest>, lost: set<int>, i: nat) {
    forall fd :: HalfWay(fd, entries, changes, n, reg, lost, i)
  }

  /** The change that a slot points to is about its own descriptor. */
  ghost predicate Owns(fd: int, entries: seq<Option<EvmapIo>>, changes: seq<Change>, n: nat) {
    IdxOf(entries, fd) > 0 ==> IdxOf(entries, fd) <= n <= |changes| && changes[IdxOf(entries, fd) - 1].fd == fd
  }

  /** A slot when the first i changes have been forgotten. */
  ghost predicate Cleared(fd: int, es: seq<Option<EvmapIo>>, entries: seq<Option<EvmapIo>>, i: nat) {
    var io := SlotOf(es, fd);
    SlotOf(entries, fd) == if 0 < IdxOf(es, fd) <= i then Some(io.value.(idxplus1 := 0)) else io
  }

  ghost predicate AllCleared(es: seq<Option<EvmapIo>>, entries: seq<Option<EvmapIo>>, i: nat) {
    forall fd :: Cleared(fd, es, entries, i)
  }

  /** One event more in the counters, and the interest that is new with it. */
  method CountIn(io: EvmapIo, ev: Event) returns (nread: nat, nwrite: nat, res: Interest)
    requires CountsOk(io)
    ensures nread == Count(io.events + [ev], Read) && nwrite == Count(io.events + [ev], Write)
    ensures Union(io.events) == Counted(io) && Union(io.events + [ev]) == Interest(nread > 0, nwrite > 0)
    ensures Interest(nread > 0, nwrite > 0) == Interest(io.nread > 0 || res.read, io.nwrite > 0 || res.write)
    ensures res == NOTHING <==> Union(io.events + [ev]) == Union(io.events)
  {
    nread, nwrite, res := io.nread, io.nwrite, NOTHING;
    if ev.wants.read {
      nread := nread + 1;
      res := res.(read := nread == 1);
    }
    if ev.wants.write {
      nwrite := nwrite + 1;
      res := res.(write := nwrite == 1);
    }
    assert (io.events + [ev])[..|io.events|] == io.events;
    UnionIsCounted(io.events);
    UnionIsCounted(io.events + [ev]);
  }

  /** One event less, and the interest that goes with it. */
  method CountOut(io: EvmapIo, k: nat) returns (nread: nat, nwrite: nat, res: Interest)
    requires CountsOk(io) && k < |io.events|
    ensures var left := Without(io.events, k);
      && nread == Count(left, Read) <= io.nread && nwrite == Count(left, Write) <= io.nwrite
      && Union(io.events) == Counted(io) && Union(left) == Interest(nread > 0, nwrite > 0)
      && Union(left) == Interest(io.nread > 0 && !res.read, io.nwrite > 0 && !res.write)
      && (res.read ==> io.nread > 0) && (res.write ==> io.nwrite > 0)
      && (res == NOTHING <==> Union(left) == Union(io.events))
  {
    var wants := io.events[k].wants;
    CountWithout(io.events, k, Read);
    CountWithout(io.events, k, Write);
    nread, nwrite, res := io.nread, io.nwrite, NOTHING;
    if wants.read {
      nread := nread - 1;
      res := res.(read := nread == 0);
    }
    if wants.write {
      nwrite := nwrite - 1;
      res := res.(write := nwrite == 0);
    }
    UnionIsCounted(io.events);
    UnionIsCounted(Without(io.events, k));
  }

  class EventBase {
    const useChangelist: bool
    const kernel: Kernel
    var entries: seq<Option<EvmapIo>>
    /** The array of changes, of which the first nChanges are in use. */
    var changes: seq<Change>
    var nChanges: nat

    constructor (useChangelist: bool)
      ensures Valid() && fresh(kernel) && this.useChangelist == useChangelist
      ensures kernel.reg == map[] && kernel.closed == {} && kernel.dropped == 0
      ensures forall fd :: On(fd) == []
    {
      this.useChangelist := useChangelist;
      kernel := new Kernel();
      entries, changes, nChanges := [], [], 0;
    }

    ghost predicate Valid()
      reads this, kernel
    {
      && AllOk(entries, changes, nChanges, kernel.reg, kernel.lost)
      && (!useChangelist ==> nChanges == 0)
      && Accounted() && ClosedFree()
    }

    /** Every call that was refused is due to a registration that went with its descriptor; with no changelist there is none. */
    ghost predicate Accounted()
      reads this, kernel
    {
      && kernel.refused + |kernel.lost| <= kernel.dropped
      && (!useChangelist ==> kernel.dropped == 0)
    }

    /** There is no event on a closed descriptor, and the kernel does not watch it. */
    ghost predicate ClosedFree()
      reads this, kernel
    {
      forall fd {:trigger fd in kernel.closed} :: fd in kernel.closed ==> fd !in kernel.reg && On(fd) == []
    }

    /** The events on a descriptor. */
    function On(fd: int): seq<Event>
      reads `entries
    {
      var io := SlotOf(entries, fd);
      if io.Some? then io.value.events else []
    }

    /** evmap_make_space. */
    method MakeSpace(slot: nat)
      requires Valid()
      modifies `entries
      ensures Valid() && slot < |entries|
      ensures forall fd :: On(fd) == old(On(fd))
    {
      if |entries| <= slot {
        var n := if |entries| > 0 then |entries| else 32;
        while n <= slot
          invariant n > 0 && |entries| <= n
          decreases slot - n
        {
          n := 2 * n;
        }
        ghost var was := entries;
        entries := entries + seq(n - |entries|, _ => None);
        assert FdOk(slot, was, changes, nChanges, kernel.reg, kernel.lost);
        OneFdSteps(slot, was, changes, nChanges, kernel.reg, kernel.lost, entries, changes, nChanges, kernel.reg, kernel.lost);
      }
    }

    /** GET_IO_SLOT_AND_CTOR. */
    method SlotAndCtor(fd: nat)
      requires Valid()
      modifies `entries
      ensures Valid() && fd < |entries| && entries[fd].Some?
      ensures forall g :: On(g) == old(On(g))
    {
      if fd >= |entries| {
        MakeSpace(fd);
      }
      if entries[fd].None? {
        ghost var was := entries;
        entries := entries[fd := Some(EvmapIo([], 0, 0, 0))];
        assert FdOk(fd, was, changes, nChanges, kernel.reg, kernel.lost);
        OneFdSteps(fd, was, changes, nChanges, kernel.reg, kernel.lost, entries, changes, nChanges, kernel.reg, kernel.lost);
      }
    }

    /** event_changelist_grow. */
    method Grow()
      modifies `changes
      ensures |changes| > |old(changes)| && changes[..|old(changes)|] == old(changes)
    {
      var newSize := if |changes| < 64 then 64 else 2 * |changes|;
      changes := changes + seq(newSize - |changes|, _ => Change(0, NOTHING, Keep, Keep));
    }

    /** event_changelist_get_or_construct. */
    method GetOrConstruct(fd: nat, was: Interest) returns (idx: nat)
      requires nChanges <= |changes| && IdxOf(entries, fd) <= nChanges && SlotOf(entries, fd).Some?
      modifies `entries, `changes, `nChanges
      ensures entries == old(entries)[fd := Some(old(entries)[fd].value.(idxplus1 := idx + 1))]
      ensures OnlyFd(fd, old(entries), old(changes), old(nChanges), map[], {}, entries, changes, nChanges, map[], {})
      ensures idx < nChanges
      ensures changes[idx] == if old(IdxOf(entries, fd)) == 0 then Change(fd, was, Keep, Keep) else old(changes[IdxOf(entries, fd) - 1])
    {
      var io := entries[fd].value;
      if io.idxplus1 == 0 {
        if nChanges == |changes| {
          ghost var prior := changes;
          Grow();
          assert forall i :: 0 <= i < |prior| ==> changes[i] == changes[..|prior|][i];
        }
        idx := nChanges;
        nChanges := nChanges + 1;
        entries := entries[fd := Some(io.(idxplus1 := idx + 1))];
        changes := changes[idx := Change(fd, was, Keep, Keep)];
      } else {
        idx := io.idxplus1 - 1;
      }
    }

    /** What a backend's add and del both leave as they are. */
    twostate predicate SameBut(fd: nat)
      reads this, kernel
    {
      && OnlyFd(fd, old(entries), old(changes), old(nChanges), old(kernel.reg), old(kernel.lost),
                entries, changes, nChanges, kernel.reg, kernel.lost)
      && SlotOf(old(entries), fd).Some? && SlotOf(entries, fd).Some?
      && entries[fd].value == old(entries)[fd].value.(idxplus1 := entries[fd].value.idxplus1)
      && entries[fd].value.idxplus1 <= nChanges
      && (fd in kernel.reg ==> kernel.reg[fd] != NOTHING)
      && kernel.refused == old(kernel.refused) && kernel.lost == old(kernel.lost)
    }

    /** With everything the backend has been told or will be told, it watches for `want` on fd. */
    ghost predicate WillWatch(fd: nat, want: Interest)
      reads this, kernel
    {
      && SlotOf(entries, fd).Some?
      && Meets(fd, Pending(entries[fd].value, changes), Watched(kernel.reg, fd), fd in kernel.lost, want)
    }

    /** event_changelist_add. */
    method ChangelistAdd(fd: nat, was: Interest, events: Interest) returns (r: int)
      requires Valid() && SlotOf(entries, fd).Some? && was == Counted(entries[fd].value)
      modifies `entries, `changes, `nChanges
      ensures r == 0 && SameBut(fd)
      ensures WillWatch(fd, Interest(was.read || events.read, was.write || events.write))
    {
      assert FdOk(fd, entries, changes, nChanges, kernel.reg, kernel.lost);
      var idx := GetOrConstruct(fd, was);
      if events.read {
        changes := changes[idx := changes[idx].(read := Add)];
      }
      if events.write {
        changes := changes[idx := changes[idx].(write := Add)];
      }
      r := 0;
    }

    /** event_changelist_del. */
    method ChangelistDel(fd: nat, was: Interest, events: Interest) returns (r: int)
      requires Valid() && SlotOf(entries, fd).Some? && was == Counted(entries[fd].value)
      requires (events.read ==> was.read) && (events.write ==> was.write)
      modifies `entries, `changes, `nChanges
      ensures r == 0 && SameBut(fd)
      ensures WillWatch(fd, Interest(was.read && !events.read, was.write && !events.write))
    {
      assert FdOk(fd, entries, changes, nChanges, kernel.reg, kernel.lost);
      var idx := GetOrConstruct(fd, was);
      if events.read {
        var act := if !changes[idx].was.read && changes[idx].read.Add? then Keep else Del;
        changes := changes[idx := changes[idx].(read := act)];
      }
      if events.write {
        var act := if !changes[idx].was.write && changes[idx].write.Add? then Keep else Del;
        changes := changes[idx := changes[idx].(write := act)];
      }
      r := 0;
    }

    /** epoll_nochangelist_add. */
    method NochangelistAdd(fd: nat, was: Interest, events: Interest) returns (r: int)
      requires Valid() && SlotOf(entries, fd).Some? && was == Counted(entries[fd].value)
      requires !useChangelist && events != NOTHING
      requires fd !in kernel.closed
      modifies kernel`reg, kernel`refused, kernel`lost
      ensures r == 0 && SameBut(fd)
      ensures WillWatch(fd, Interest(was.read || events.read, was.write || events.write))
    {
      assert FdOk(fd, entries, changes, nChanges, kernel.reg, kernel.lost);
      var ch := Change(fd, was, Keep, Keep);
      if events.write {
        ch := ch.(write := Add);
      }
      if events.read {
        ch := ch.(read := Add);
      }
      r := ApplyOneChange(kernel, ch);
    }

    /** epoll_nochangelist_del. */
    method NochangelistDel(fd: nat, was: Interest, events: Interest) returns (r: int)
      requires Valid() && SlotOf(entries, fd).Some? && was == Counted(entries[fd].value)
      requires (events.read ==> was.read) && (events.write ==> was.write)
      requires !useChangelist && events != NOTHING
      requires fd !in kernel.closed
      modifies kernel`reg, kernel`refused, kernel`lost
      ensures r == 0 && SameBut(fd)
      ensures WillWatch(fd, Interest(was.read && !events.read, was.write && !events.write))
    {
      assert FdOk(fd, entries, changes, nChanges, kernel.reg, kernel.lost);
      var ch := Change(fd, was, Keep, Keep);
      if events.write {
        ch := ch.(write := Del);
      }
      if events.read {
        ch := ch.(read := Del);
      }
      r := ApplyOneChange(kernel, ch);
    }

    /** The slot gets its new counters and list once the backend has been told. */
    method Store(fd: nat, io: EvmapIo, ghost es: seq<Option<EvmapIo>>, ghost cs: seq<Change>, ghost n: nat,
                 ghost reg: map<int, Interest>, ghost lost: set<int>)
      requires AllOk(es, cs, n, reg, lost)
      requires OnlyFd(fd, es, cs, n, reg, lost, entries, changes, nChanges, kernel.reg, kernel.lost)
      requires SlotOf(entries, fd).Some? && io.idxplus1 == entries[fd].value.idxplus1 <= nChanges && CountsOk(io)
      requires WillWatch(fd, Counted(io)) && (fd in kernel.reg ==> kernel.reg[fd] != NOTHING)
      requires (!useChangelist ==> nChanges == 0) && Accounted() && ClosedFree() && fd !in kernel.closed
      modifies `entries
      ensures Valid() && SlotOf(entries, fd) == Some(io)
      ensures forall g :: g != fd ==> SlotOf(entries, g) == SlotOf(es, g)
    {
      entries := entries[fd := Some(io)];
      OneFdSteps(fd, es, cs, n, reg, lost, entries, changes, nChanges, kernel.reg, kernel.lost);
    }

    /** evsel->add, called only when the counters say that something is new. */
    method TellAdd(fd: nat, was: Interest, res: Interest) returns (retval: int)
      requires Valid() && SlotOf(entries, fd).Some? && was == Counted(entries[fd].value)
      requires fd !in kernel.closed
      modifies `entries, `changes, `nChanges, kernel`reg, kernel`refused, kernel`lost
      ensures SameBut(fd) && WillWatch(fd, Interest(was.read || res.read, was.write || res.write))
      ensures retval == if res != NOTHING then 1 else 0
      ensures if useChangelist then kernel.reg == old(kernel.reg) else nChanges == 0
      ensures Accounted() && ClosedFree()
    {
      assert FdOk(fd, entries, changes, nChanges, kernel.reg, kernel.lost);
      retval := 0;
      if res != NOTHING {
        if useChangelist {
          retval := ChangelistAdd(fd, was, res);
        } else {
          retval := NochangelistAdd(fd, was, res);
        }
        if retval == -1 {
          return -1;
        }
        retval := 1;
      }
    }

    /** evsel->del, called only when the counters say that something is no longer wanted. */
    method TellDel(fd: nat, was: Interest, res: Interest) returns (retval: int)
      requires Valid() && SlotOf(entries, fd).Some? && was == Counted(entries[fd].value)
      requires (res.read ==> was.read) && (res.write ==> was.write)
      requires fd !in kernel.closed
      modifies `entries, `changes, `nChanges, kernel`reg, kernel`refused, kernel`lost
      ensures SameBut(fd) && WillWatch(fd, Interest(was.read && !res.read, was.write && !res.write))
      ensures retval == if res != NOTHING then 1 else 0
      ensures if useChangelist then kernel.reg == old(kernel.reg) else nChanges == 0
      ensures Accounted() && ClosedFree()
    {
      assert FdOk(fd, entries, changes, nChanges, kernel.reg, kernel.lost);
      retval := 0;
      if res != NOTHING {
        if useChangelist {
          retval := ChangelistDel(fd, was, res);
        } else {
          retval := NochangelistDel(fd, was, res);
        }
        if retval == -1 {
          return -1;
        }
        retval := 1;
      }
    }

    /** The end of evmap_io_add, with the new counters. */
    method AddCounted(fd: nat, ev: Event, nread: nat, nwrite: nat, res: Interest) returns (retval: int)
      requires Valid() && SlotOf(entries, fd).Some? && fd !in kernel.closed
      requires var io := entries[fd].value;
        && CountsOk(EvmapIo(io.events + [ev], nread, nwrite, 0))
        && Interest(nread > 0, nwrite > 0) == Interest(io.nread > 0 || res.read, io.nwrite > 0 || res.write)
      modifies `entries, `changes, `nChanges, kernel`reg, kernel`refused, kernel`lost
      ensures Valid() && retval == if res != NOTHING then 1 else 0
      ensures On(fd) == old(On(fd)) + [ev] && forall g :: g != fd ==> On(g) == old(On(g))
      ensures useChangelist ==> kernel.reg == old(kernel.reg)
    {
      var io := entries[fd].value;
      ghost var es, cs, n, reg, lost := entries, changes, nChanges, kernel.reg, kernel.lost;
      retval := TellAdd(fd, Counted(io), res);
      Store(fd, EvmapIo(io.events + [ev], nread, nwrite, entries[fd].value.idxplus1), es, cs, n, reg, lost);
    }

    /** evmap_io_add, once there is a slot. */
    method AddAt(fd: nat, ev: Event) returns (retval: int)
      requires Valid() && fd == ev.fd && SlotOf(entries, fd).Some? && fd !in kernel.closed
      modifies `entries, `changes, `nChanges, kernel`reg, kernel`refused, kernel`lost
      ensures Valid()
      ensures retval == -1 <==> !Fits(old(On(fd)), ev)
      ensures retval != -1 ==> retval == if Union(old(On(fd))) != Union(old(On(fd)) + [ev]) then 1 else 0
      ensures On(fd) == if retval != -1 then old(On(fd)) + [ev] else old(On(fd))
      ensures forall g :: g != fd ==> On(g) == old(On(g))
      ensures useChangelist ==> kernel.reg == old(kernel.reg)
    {
      var io := entries[fd].value;
      assert FdOk(fd, entries, changes, nChanges, kernel.reg, kernel.lost);
      var nread, nwrite, res := CountIn(io, ev);
      if nread > MAX_EVENTS || nwrite > MAX_EVENTS {
        return -1;
      }
      retval := AddCounted(fd, ev, nread, nwrite, res);
    }

    /** evmap_io_add of an event on an open descriptor. */
    method IoAdd(fd: int, ev: Event) returns (retval: int)
      requires Valid() && fd == ev.fd && fd !in kernel.closed
      modifies `entries, `changes, `nChanges, kernel`reg, kernel`refused, kernel`lost
      ensures Valid()
      ensures retval == -1 <==> fd >= 0 && !Fits(old(On(fd)), ev)
      ensures retval == 1 <==> fd >= 0 && retval != -1 && Union(old(On(fd))) != Union(old(On(fd)) + [ev])
      ensures -1 <= retval <= 1
      ensures On(fd) == if fd >= 0 && retval != -1 then old(On(fd)) + [ev] else old(On(fd))
      ensures forall g :: g != fd ==> On(g) == old(On(g))
      ensures useChangelist ==> kernel.reg == old(kernel.reg)
    {
      if fd < 0 {
        return 0;
      }
      SlotAndCtor(fd);
      retval := AddAt(fd, ev);
    }

    /** evmap_io_del of the event that stands at place k of its descriptor's list. */
    method IoDel(fd: int, ev: Event, k: nat) returns (retval: int)
      requires Valid() && fd == ev.fd
      requires 0 <= fd < |entries| ==> k < |On(fd)| && On(fd)[k] == ev
      modifies `entries, `changes, `nChanges, kernel`reg, kernel`refused, kernel`lost
      ensures Valid()
      ensures retval == -1 <==> fd >= |old(entries)|
      ensures retval == 1 <==> 0 <= fd < |old(entries)| && Union(old(On(fd))) != Union(Without(old(On(fd)), k))
      ensures -1 <= retval <= 1
      ensures On(fd) == if 0 <= fd < |old(entries)| then Without(old(On(fd)), k) else old(On(fd))
      ensures forall g :: g != fd ==> On(g) == old(On(g))
      ensures useChangelist ==> kernel.reg == old(kernel.reg)
    {
      if fd < 0 {
        return 0;
      }
      if fd >= |entries| {
        return -1;
      }
      var io := entries[fd].value;
      assert FdOk(fd, entries, changes, nChanges, kernel.reg, kernel.lost);
      ghost var es, cs, n, reg, lost := entries, changes, nChanges, kernel.reg, kernel.lost;
      var nread, nwrite, res := CountOut(io, k);
      retval := TellDel(fd, Counted(io), res);
      Store(fd, EvmapIo(Without(io.events, k), nread, nwrite, entries[fd].value.idxplus1), es, cs, n, reg, lost);
    }

    /** One round of the loop of epoll_apply_changes. */
    method ApplyNth(i: nat) returns (s: int)
      requires i < nChanges <= |changes| && ChangeOk(i, entries, changes)
      requires FdOk(changes[i].fd, entries, changes, nChanges, kernel.reg, kernel.lost)
      requires Accounted() && ClosedFree()
      modifies kernel`reg, kernel`refused, kernel`lost
      ensures s == 0 && Accounted() && ClosedFree()
      ensures FdSettled(changes[i].fd, entries, kernel.reg, kernel.lost)
      ensures forall g :: g != changes[i].fd ==>
        (g in kernel.reg <==> g in old(kernel.reg)) && Watched(kernel.reg, g) == Watched(old(kernel.reg), g)
      ensures forall g :: g != changes[i].fd ==> (g in kernel.lost <==> g in old(kernel.lost))
    {
      ghost var fd, lost := changes[i].fd, kernel.lost;
      assert fd in kernel.closed ==> On(fd) == [] && (fd in lost || Idle(changes[i]));
      s := ApplyOneChange(kernel, changes[i]);
      assert fd in lost ==> |lost - {fd}| == |lost| - 1;
      assert fd !in lost ==> lost - {fd} == lost;
    }

    /** epoll_apply_changes. */
    method ApplyChanges() returns (r: int)
      requires Valid()
      modifies kernel`reg, kernel`refused, kernel`lost
      ensures r == 0 && Accounted() && ClosedFree()
      ensures forall fd :: FdSettled(fd, entries, kernel.reg, kernel.lost)
    {
      r := 0;
      forall fd
        ensures HalfWay(fd, entries, changes, nChanges, kernel.reg, kernel.lost, 0)
      {
        assert FdOk(fd, entries, changes, nChanges, kernel.reg, kernel.lost);
      }
      for i := 0 to nChanges
        invariant r == 0 && Accounted() && ClosedFree()
        invariant AllHalfWay(entries, changes, nChanges, kernel.reg, kernel.lost, i)
      {
        ghost var reg, lost, j := kernel.reg, kernel.lost, i + 1;
        assert ChangeOk(i, entries, changes);
        assert HalfWay(changes[i].fd, entries, changes, nChanges, reg, lost, i);
        var s := ApplyNth(i);
        if s < 0 {
          r := -1;
        }
        forall fd
          ensures HalfWay(fd, entries, changes, nChanges, kernel.reg, kernel.lost, j)
        {
          assert HalfWay(fd, entries, changes, nChanges, reg, lost, i);
        }
      }
      forall fd
        ensures FdSettled(fd, entries, kernel.reg, kernel.lost)
      {
        assert HalfWay(fd, entries, changes, nChanges, kernel.reg, kernel.lost, nChanges);
      }
    }

    /** event_changelist_remove_all, once the changes have been made. */
    method RemoveAll()
      requires nChanges <= |changes| && forall i: nat :: i < nChanges ==> ChangeOk(i, entries, changes)
      requires forall fd :: FdSettled(fd, entries, kernel.reg, kernel.lost)
      requires forall fd :: Owns(fd, entries, changes, nChanges)
      requires Accounted() && ClosedFree()
      modifies `entries, `nChanges
      ensures Valid() && nChanges == 0
      ensures forall fd :: On(fd) == old(On(fd))
    {
      ghost var es, n := entries, nChanges;
      for i := 0 to nChanges
        invariant nChanges == n
        invariant AllCleared(es, entries, i)
      {
        assert ChangeOk(i, es, changes);
        var fd := changes[i].fd;
        assert Cleared(fd, es, entries, i);
        ghost var before, j := entries, i + 1;
        entries := entries[fd := Some(entries[fd].value.(idxplus1 := 0))];
        forall g
          ensures Cleared(g, es, entries, j)
        {
          assert Cleared(g, es, before, i) && Owns(g, es, changes, nChanges);
        }
      }
      forall fd
        ensures FdOk(fd, entries, changes, 0, kernel.reg, kernel.lost) && On(fd) == old(On(fd))
      {
        assert Cleared(fd, es, entries, nChanges) && Owns(fd, es, changes, nChanges);
        assert FdSettled(fd, es, kernel.reg, kernel.lost);
      }
      nChanges := 0;
    }

    /** The kernel watches every descriptor for exactly what the events on it want. */
    ghost predicate Agrees()
      reads this, kernel
    {
      forall fd :: Watched(kernel.reg, fd) == Union(On(fd)) && (fd in kernel.reg ==> kernel.reg[fd] != NOTHING)
    }

    lemma SettledAgrees()
      requires Valid() && nChanges == 0
      ensures Agrees()
    {
      forall fd
        ensures Watched(kernel.reg, fd) == Union(On(fd)) && (fd in kernel.reg ==> kernel.reg[fd] != NOTHING)
      {
        assert FdOk(fd, entries, changes, nChanges, kernel.reg, kernel.lost);
        UnionIsCounted(On(fd));
      }
    }

    /** The head of epoll_dispatch. */
    method Dispatch()
      requires Valid()
      modifies `entries, `nChanges, kernel`reg, kernel`refused, kernel`lost
      ensures Valid() && Agrees()
      ensures forall fd :: On(fd) == old(On(fd))
    {
      forall fd
        ensures Owns(fd, entries, changes, nChanges)
      {
        assert FdOk(fd, entries, changes, nChanges, kernel.reg, kernel.lost);
      }
      var r := ApplyChanges();
      RemoveAll();
      SettledAgrees();
    }

    /** The program closes a descriptor that has no event any more. A change for it may still be pending. */
    method Close(fd: int)
      requires Valid() && On(fd) == []
      modifies kernel
      ensures Valid() && kernel.closed == old(kernel.closed) + {fd}
      ensures kernel.dropped <= old(kernel.dropped) + 1
    {
      ghost var reg, lost := kernel.reg, kernel.lost;
      assert FdOk(fd, entries, changes, nChanges, reg, lost);
      kernel.Close(fd);
      OneFdSteps(fd, entries, changes, nChanges, reg, lost, entries, changes, nChanges, kernel.reg, kernel.lost);
    }

    /** The program has opened a file whose descriptor has been used before. */
    method Reopen(fd: int)
      requires Valid()
      modifies kernel`closed
      ensures Valid() && kernel.closed == old(kernel.closed) - {fd}
    {
      kernel.closed := kernel.closed - {fd};
    }
  }

  /**
   * What the program asks of the base. An event that is not there is not removed, none is added on
   * a closed descriptor, and no descriptor is closed before the events on it have been removed.
   */
  datatype Call = AddEvent(ev: Event) | DelEvent(fd: int, k: nat) | Wait | Close(fd: int) | Reopen(fd: int)

  /** The events on every descriptor, and the closed descriptors. */
  datatype Plain = Plain(lists: map<int, seq<Event>>, closed: set<int>) {
    function On(fd: int): seq<Event> {
      if fd in lists then lists[fd] else []
    }
  }

  /** One call more. */
  function Next(m: Plain, call: Call): Plain {
    match call
    case AddEvent(ev) =>
      if ev.fd >= 0 && ev.fd !in m.closed && Fits(m.On(ev.fd), ev) then m.(lists := m.lists[ev.fd := m.On(ev.fd) + [ev]]) else m
    case DelEvent(fd, k) => if k < |m.On(fd)| then m.(lists := m.lists[fd := Without(m.lists[fd], k)]) else m
    case Wait => m
    case Close(fd) => if m.On(fd) == [] then m.(closed := m.closed + {fd}) else m
    case Reopen(fd) => m.(closed := m.closed - {fd})
  }

  function After(calls: seq<Call>): Plain {
    if calls == [] then Plain(map[], {}) else Next(After(calls[..|calls| - 1]), calls[|calls| - 1])
  }

  function Closes(calls: seq<Call>): nat {
    if calls == [] then 0 else Closes(calls[..|calls| - 1]) + if calls[|calls| - 1].Close? then 1 else 0
  }

  /** Every list holds events of its own descriptor. */
  ghost predicate Homed(m: Plain) {
    forall fd :: fd in m.lists ==> fd >= 0 && forall e :: e in m.lists[fd] ==> e.fd == fd
  }

  lemma {:induction false} ListsHomed(calls: seq<Call>)
    ensures Homed(After(calls))
  {
    if calls != [] {
      ListsHomed(calls[..|calls| - 1]);
    }
  }

  /** A descriptor is closed exactly when, since a close that found no event on it, it has not been opened again. */
  ghost predicate ClosedAt(calls: seq<Call>, fd: int, i: nat) {
    i < |calls| && calls[i] == Close(fd) && After(calls[..i]).On(fd) == [] &&
    forall k :: i < k < |calls| ==> calls[k] != Reopen(fd)
  }

  lemma ClosedAtBefore(calls: seq<Call>, last: Call, fd: int, i: nat)
    ensures ClosedAt(calls + [last], fd, i) <==>
      (i == |calls| && last == Close(fd) && After(calls).On(fd) == []) || (last != Reopen(fd) && ClosedAt(calls, fd, i))
  {
    var all := calls + [last];
    if i < |calls| {
      assert all[..i] == calls[..i];
      assert forall k :: i < k < |calls| ==> all[k] == calls[k];
      assert all[|calls|] == last;
    } else if i == |calls| {
      assert all[..i] == calls;
    }
  }

  lemma {:induction false} ClosedMeans(calls: seq<Call>, fd: int)
    ensures fd in After(calls).closed <==> exists i :: ClosedAt(calls, fd, i)
  {
    if calls == [] {
    } else {
      var n := |calls| - 1;
      var before, last := calls[..n], calls[n];
      assert calls == before + [last];
      ClosedMeans(before, fd);
      ClosedAtBefore(before, last, fd, n);
      if exists i :: ClosedAt(before, fd, i) {
        var i :| ClosedAt(before, fd, i);
        ClosedAtBefore(before, last, fd, i);
      }
      if exists i :: ClosedAt(calls, fd, i) {
        var i :| ClosedAt(calls, fd, i);
        ClosedAtBefore(before, last, fd, i);
      }
    }
  }

  /** No event comes to a descriptor while it is closed, in any run. */
  lemma {:induction false} ClosedIsEmpty(calls: seq<Call>, fd: int)
    requires fd in After(calls).closed
    ensures After(calls).On(fd) == []
  {
    if calls == [] {
    } else {
      var n := |calls| - 1;
      if fd in After(calls[..n]).closed {
        ClosedIsEmpty(calls[..n], fd);
      }
      OthersOn(After(calls[..n]), calls[n]);
    }
  }

  /** The base has these events, and the kernel these closed descriptors. */
  ghost predicate Shows(base: EventBase, m: Plain)
    reads base, base.kernel
  {
    base.kernel.closed == m.closed && forall fd :: base.On(fd) == m.On(fd)
  }

  /** A call changes the list of one descriptor at most. */
  lemma OthersOn(m: Plain, call: Call)
    ensures forall fd :: Next(m, call).On(fd) == (match call
      case AddEvent(ev) => if fd == ev.fd && fd >= 0 && fd !in m.closed && Fits(m.On(fd), ev) then m.On(fd) + [ev] else m.On(fd)
      case DelEvent(g, k) => if fd == g && k < |m.On(fd)| then Without(m.On(fd), k) else m.On(fd)
      case _ => m.On(fd))
  {
  }

  method OneAdd(base: EventBase, ev: Event, ghost m: Plain)
    requires base.Valid() && Shows(base, m)
    modifies base`entries, base`changes, base`nChanges, base.kernel`reg, base.kernel`refused, base.kernel`lost
    ensures base.Valid() && Shows(base, Next(m, AddEvent(ev)))
  {
    OthersOn(m, AddEvent(ev));
    if ev.fd !in base.kernel.closed {
      var r := base.IoAdd(ev.fd, ev);
    }
  }

  method OneDel(base: EventBase, fd: int, k: nat, ghost m: Plain)
    requires base.Valid() && Homed(m) && Shows(base, m)
    modifies base`entries, base`changes, base`nChanges, base.kernel`reg, base.kernel`refused, base.kernel`lost
    ensures base.Valid() && Shows(base, Next(m, DelEvent(fd, k)))
  {
    OthersOn(m, DelEvent(fd, k));
    var list := base.On(fd);
    if k < |list| {
      var r := base.IoDel(fd, list[k], k);
    }
  }

  method OneCall(base: EventBase, call: Call, ghost m: Plain)
    requires base.Valid() && Homed(m) && Shows(base, m)
    modifies base`entries, base`changes, base`nChanges, base.kernel
    ensures base.Valid() && Shows(base, Next(m, call))
    ensures !base.useChangelist || call.Wait? ==> base.Agrees()
    ensures base.kernel.dropped <= old(base.kernel.dropped) + if call.Close? then 1 else 0
  {
    match call {
      case AddEvent(ev) =>
        OneAdd(base, ev, m);
      case DelEvent(fd, k) =>
        OneDel(base, fd, k, m);
      case Wait =>
        base.Dispatch();
      case Close(fd) =>
        var list := base.On(fd);
        if list == [] {
          base.Close(fd);
        }
      case Reopen(fd) =>
        base.Reopen(fd);
    }
    if !base.useChangelist {
      base.SettledAgrees();
    }
  }

  /**
   * A run of calls on a new base, with or without the changelist, up to the next wait for events.
   * Calls of epoll_ctl are refused at most as often as a descriptor has been closed while the
   * kernel still watched it.
   */
  method Run(useChangelist: bool, calls: seq<Call>) returns (base: EventBase)
    ensures fresh(base) && fresh(base.kernel) && base.Valid() && base.Agrees() && base.useChangelist == useChangelist
    ensures Shows(base, After(calls))
    ensures base.kernel.refused <= base.kernel.dropped <= Closes(calls)
  {
    base := new EventBase(useChangelist);
    for i := 0 to |calls|
      invariant fresh(base) && fresh(base.kernel) && base.Valid() && base.useChangelist == useChangelist
      invariant Shows(base, After(calls[..i])) && base.kernel.dropped <= Closes(calls[..i])
    {
      assert calls[..i + 1][..i] == calls[..i];
      ListsHomed(calls[..i]);
      OneCall(base, calls[i], After(calls[..i]));
    }
    assert calls[..|calls|] == calls;
    base.Dispatch();
  }

  lemma SameRegistrations(a: map<int, Interest>, b: map<int, Interest>)
    requires forall fd :: Watched(a, fd) == Watched(b, fd)
    requires forall fd :: fd in a ==> a[fd] != NOTHING
    requires forall fd :: fd in b ==> b[fd] != NOTHING
    ensures a == b
  {
    forall fd
      ensures (fd in a <==> fd in b) && (fd in a ==> a[fd] == b[fd])
    {
      assert Watched(a, fd) == Watched(b, fd);
    }
  }

  /** Batching changes nothing: both backends leave the kernel with the same registrations. */
  method RunBoth(calls: seq<Call>) returns (batched: EventBase, immediate: EventBase)
    ensures batched.useChangelist && !immediate.useChangelist
    ensures batched.kernel.reg == immediate.kernel.reg
    ensures forall fd :: batched.On(fd) == immediate.On(fd) == After(calls).On(fd)
    ensures forall fd :: Watched(batched.kernel.reg, fd) == Union(After(calls).On(fd))
    ensures immediate.kernel.refused == 0 && batched.kernel.refused <= Closes(calls)
  {
    batched := Run(true, calls);
    immediate := Run(false, calls);
    forall fd
      ensures Watched(batched.kernel.reg, fd) == Watched(immediate.kernel.reg, fd)
    {
      assert batched.On(fd) == immediate.On(fd);
    }
    SameRegistrations(batched.kernel.reg, immediate.kernel.reg);
  }
}
