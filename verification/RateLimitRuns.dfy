/** Any run of calls, timers and threads on a rate-limited group of bufferevents. */
module RateLimitRuns {
  import opened TokenBucket
  import opened Directions
  import opened Lists
  import opened RateLimitModel
  import opened RateLimit

  /** The value of a bufferevent. */
  function Look(b: Bufferevent): One
    reads b
  {
    One(b.suspended, b.enabled, b.cfg, b.limit)
  }

  /** The group's flag is as it was. */
  predicate SameGroupFlag(a: Both<set<Flag>>, b: Both<set<Flag>>) {
    (BWGroup in a.read <==> BWGroup in b.read) && (BWGroup in a.write <==> BWGroup in b.write)
  }

  method Own(b: Bufferevent, call: OwnCall)
    requires b.Sound()
    modifies b`suspended, b`enabled, b`running, b`cfg, b`limit, b`refillPending
    ensures b.Sound() && Look(b) == Owned(old(Look(b)), call)
    ensures SameGroupFlag(old(b.suspended), b.suspended)
  {
    if !Admits(Look(b), call) {
      return;
    }
    match call {
      case Enable(event) => b.Enable(event);
      case Disable(event) => b.Disable(event);
      case Suspend(dir, what) => b.Suspend(dir, what);
      case Unsuspend(dir, what) => b.Unsuspend(dir, what);
      case SetRateLimit(cfg, now) => b.SetRateLimit(cfg, now);
      case DecrementLimit(dir, decr) => b.DecrementLimit(dir, decr);
      case Timer(now) => b.RefillCallback(now);
    }
  }

  /** A bufferevent is in the group or free of it. */
  ghost predicate Placed(g: Group, b: Bufferevent)
    reads g, b
  {
    && b.Sound()
    && (b in g.members <==> b.group == g)
    && (b.group == null || b.group == g)
    && (b.group == null ==> BWGroup !in b.suspended.read && BWGroup !in b.suspended.write)
  }

  /** The invariant of a run. Threads in the middle of joining the group hold their bufferevents' locks. */
  ghost predicate InOrder(g: Group, all: set<Bufferevent>, joining: map<Bufferevent, Both<bool>>)
    reads g, g.members, all
  {
    && g.Valid(joining)
    && (forall b {:trigger b in g.members} :: b in g.members ==> b in all)
    && (forall b {:trigger b in joining} :: b in joining ==> b in g.members)
    && (forall b {:trigger b in all} :: b in all ==> Placed(g, b))
  }

  /** The bufferevents have these values. */
  ghost predicate Ones(all: set<Bufferevent>, ones: map<Bufferevent, One>)
    reads all
  {
    ones.Keys == all && forall b {:trigger b in all} :: b in all ==> ones[b] == Look(b)
  }

  /** And the group this one. */
  ghost predicate Shows(g: Group, all: set<Bufferevent>, joining: map<Bufferevent, Both<bool>>, w: World<Bufferevent>)
    reads g, all
  {
    && w.members == g.members && w.grp == g.Now() && w.cfg == g.cfg && w.minShare == g.minShare
    && w.asked == g.configuredMinShare && w.joining == joining && Ones(all, w.ones)
  }

  ghost function View(g: Group, all: set<Bufferevent>): (w: World<Bufferevent>)
    reads g, all
    ensures Shows(g, all, map[], w)
  {
    World(map b | b in all :: Look(b), g.members, g.Now(), g.cfg, g.minShare, g.configuredMinShare, map[])
  }

  /** One bufferevent has a new value, the others are as they were. */
  lemma OneMore(all: set<Bufferevent>, ones: map<Bufferevent, One>, b: Bufferevent, o: One)
    requires ones.Keys == all && b in all && o == Look(b)
    requires forall x {:trigger x in all} :: x in all && x != b ==> ones[x] == Look(x)
    ensures Ones(all, ones[b := o])
  {
  }

  lemma MembersIn(g: Group, all: set<Bufferevent>, joining: map<Bufferevent, Both<bool>>)
    requires InOrder(g, all, joining)
    ensures forall i :: 0 <= i < |g.members| ==> g.members[i] in all
  {
    assert forall i :: 0 <= i < |g.members| ==> g.members[i] in g.members;
  }

  /** A step in one bufferevent. */
  method OwnKeeps(g: Group, all: set<Bufferevent>, joining: map<Bufferevent, Both<bool>>, b: Bufferevent, call: OwnCall)
    requires InOrder(g, all, joining) && b in all && b !in joining
    modifies b`suspended, b`enabled, b`running, b`cfg, b`limit, b`refillPending
    ensures InOrder(g, all, joining) && Look(b) == Owned(old(Look(b)), call)
  {
    assert Placed(g, b);
    Own(b, call);
    forall o | o in all
      ensures Placed(g, o) && forall dir: Dir :: Carries(o, dir, joining) <==> old(Carries(o, dir, joining))
    {
      assert o != b ==> old(Placed(g, o));
    }
  }

  method OwnStep(g: Group, all: set<Bufferevent>, joining: map<Bufferevent, Both<bool>>, b: Bufferevent, call: OwnCall,
                 ghost w: World<Bufferevent>)
    requires InOrder(g, all, joining) && b in all && b !in joining && Shows(g, all, joining, w)
    modifies b`suspended, b`enabled, b`running, b`cfg, b`limit, b`refillPending
    ensures InOrder(g, all, joining) && Shows(g, all, joining, StepOwn(w, b, call))
  {
    OwnKeeps(g, all, joining, b, call);
    OneMore(all, w.ones, b, Owned(w.ones[b], call));
  }

  /** The member's own bucket pays. */
  method PayKeeps(g: Group, all: set<Bufferevent>, joining: map<Bufferevent, Both<bool>>, b: Bufferevent, dir: Dir, bytes: nat)
    requires InOrder(g, all, joining) && b in all && b !in joining && CanPay(b.limit, dir, bytes)
    modifies b`limit, b`suspended, b`running, b`refillPending
    ensures InOrder(g, all, joining) && Look(b) == OnePaid(old(Look(b)), dir, bytes)
  {
    assert Placed(g, b);
    b.DecrementOwn(dir, bytes);
    forall o | o in all
      ensures Placed(g, o) && forall dir: Dir :: Carries(o, dir, joining) <==> old(Carries(o, dir, joining))
    {
      assert o != b ==> old(Placed(g, o));
    }
  }

  method PayOwn(g: Group, all: set<Bufferevent>, joining: map<Bufferevent, Both<bool>>, b: Bufferevent, dir: Dir, bytes: nat,
                ghost w: World<Bufferevent>)
    requires InOrder(g, all, joining) && b in all && b !in joining && CanPay(b.limit, dir, bytes) && Shows(g, all, joining, w)
    modifies b`limit, b`suspended, b`running, b`refillPending
    ensures InOrder(g, all, joining) && Shows(g, all, joining, w.(ones := w.ones[b := OnePaid(w.ones[b], dir, bytes)]))
  {
    PayKeeps(g, all, joining, b, dir, bytes);
    OneMore(all, w.ones, b, OnePaid(w.ones[b], dir, bytes));
  }

  /** Who will be told: the members whose locks can be taken. */
  lemma WhoIsTold(g: Group, all: set<Bufferevent>, joining: map<Bufferevent, Both<bool>>, busy: set<Bufferevent>,
                  w: World<Bufferevent>)
    requires InOrder(g, all, joining) && Shows(g, all, joining, w)
    ensures g.Missed(busy + joining.Keys) <==> SomeMissed(w, busy)
    ensures forall b :: b in all ==> (Told(w, b, busy) <==> b in g.members && b !in busy + joining.Keys)
  {
    MembersIn(g, all, joining);
  }

  /** The group's bucket pays, and its members follow it unless they are in `out`. */
  method PayAndTell(g: Group, all: set<Bufferevent>, joining: map<Bufferevent, Both<bool>>,
                    dir: Dir, bytes: nat, random: nat, out: set<Bufferevent>)
    requires InOrder(g, all, joining) && CanPay(g.rateLimit, dir, bytes) && joining.Keys <= out
    modifies g`suspended, g`pendingUnsuspend, g`rateLimit, g.members`suspended, g.members`running
    ensures InOrder(g, all, joining) && g.Now() == GroupPaid(old(g.Now()), dir, bytes, g.Missed(out))
    ensures forall b :: b in all ==>
      Look(b) == if b in g.members && b !in out
                 then old(Look(b)).(suspended := Followed(old(Look(b)).suspended, dir, old(g.suspended).At(dir), g.suspended.At(dir)))
                 else old(Look(b))
  {
    MembersIn(g, all, joining);
    g.Decrement(dir, bytes, random, out, joining);
  }

  /** The same in a run; the locks that cannot be taken are those in `busy` and those of joining members. */
  method PayGroup(g: Group, all: set<Bufferevent>, joining: map<Bufferevent, Both<bool>>,
                  dir: Dir, bytes: nat, random: nat, busy: set<Bufferevent>, ghost w: World<Bufferevent>)
    requires InOrder(g, all, joining) && CanPay(g.rateLimit, dir, bytes) && Shows(g, all, joining, w)
    modifies g`suspended, g`pendingUnsuspend, g`rateLimit, g.members`suspended, g.members`running
    ensures InOrder(g, all, joining) && Shows(g, all, joining, AllPaid(w, dir, bytes, busy))
  {
    WhoIsTold(g, all, joining, busy, w);
    PayAndTell(g, all, joining, dir, bytes, random, busy + joining.Keys);
  }

  /**
   * _bufferevent_decrement_{read,write}_buckets, by the thread that holds the lock of `b`. The bytes
   * are taken from its own bucket and from that of its group, if it has them.
   */
  method TransferStep(g: Group, all: set<Bufferevent>, joining: map<Bufferevent, Both<bool>>,
                      b: Bufferevent, dir: Dir, bytes: nat, random: nat, busy: set<Bufferevent>, ghost w: World<Bufferevent>)
    requires InOrder(g, all, joining) && b in all && b !in joining && Shows(g, all, joining, w)
    requires CanPay(b.limit, dir, bytes) && CanPay(g.rateLimit, dir, bytes)
    modifies g`suspended, g`pendingUnsuspend, g`rateLimit, all`suspended, all`running, b`limit, b`refillPending
    ensures InOrder(g, all, joining) && Shows(g, all, joining, StepMove(w, b, dir, bytes, busy))
  {
    ghost var own := w.(ones := w.ones[b := OnePaid(w.ones[b], dir, bytes)]);
    assert Placed(g, b);
    PayOwn(g, all, joining, b, dir, bytes, w);
    if b.group != null {
      MembersIn(g, all, joining);
      PayGroup(g, all, joining, dir, bytes, random, busy - {b}, own);
      assert StepMove(w, b, dir, bytes, busy) == AllPaid(own, dir, bytes, busy - {b});
    } else {
      assert StepMove(w, b, dir, bytes, busy) == own;
    }
  }

  /** master_refill_event. */
  method GroupTimerStep(g: Group, all: set<Bufferevent>, joining: map<Bufferevent, Both<bool>>,
                        now: tick, random: nat, busy: set<Bufferevent>, ghost w: World<Bufferevent>)
    requires InOrder(g, all, joining) && Shows(g, all, joining, w)
    modifies g`suspended, g`pendingUnsuspend, g`rateLimit, all`suspended, all`running
    ensures InOrder(g, all, joining) && Shows(g, all, joining, StepTimer(w, now, busy))
  {
    MembersIn(g, all, joining);
    WhoIsTold(g, all, joining, busy, w);
    ghost var ones := AllFreed(w, now, busy);
    g.RefillCallback(now, random, busy + joining.Keys, joining);
    forall b | b in all
      ensures ones[b] == Look(b)
    {
      assert Told(w, b, busy) <==> b in g.members && b !in busy + joining.Keys;
    }
  }

  /** A member asks how much it may move. */
  method AskKeeps(g: Group, all: set<Bufferevent>, joining: map<Bufferevent, Both<bool>>, b: Bufferevent, dir: Dir, now: tick)
    returns (r: int)
    requires InOrder(g, all, joining) && b in g.members && b !in joining
    modifies b`limit, b`suspended, b`running
    ensures InOrder(g, all, joining) && Look(b) == Asked(old(Look(b)), dir, g.suspended.At(dir), now)
    ensures r <= g.minShare || r * |g.members| <= g.rateLimit.limit.At(dir)
    ensures g.suspended.At(dir) ==> r == 0
  {
    r := g.GetRlimMax(b, dir, now, joining);
  }

  method GetMaxStep(g: Group, all: set<Bufferevent>, joining: map<Bufferevent, Both<bool>>, b: Bufferevent, dir: Dir, now: tick,
                    ghost w: World<Bufferevent>)
    requires InOrder(g, all, joining) && b in g.members && b !in joining && Shows(g, all, joining, w)
    modifies b`limit, b`suspended, b`running
    ensures InOrder(g, all, joining) && Shows(g, all, joining, StepAsk(w, b, dir, now))
  {
    var r := AskKeeps(g, all, joining, b, dir, now);
    OneMore(all, w.ones, b, Asked(w.ones[b], dir, g.suspended.At(dir), now));
  }

  method JoinKeeps(g: Group, all: set<Bufferevent>, joining: map<Bufferevent, Both<bool>>, b: Bufferevent)
    returns (joining': map<Bufferevent, Both<bool>>)
    requires InOrder(g, all, joining) && b in all && b.group == null
    modifies g`members, g`nMembers, b`group
    ensures InOrder(g, all, joining') && joining' == joining[b := g.suspended] && g.members == old(g.members) + [b]
  {
    assert Placed(g, b);
    var wants := g.JoinBegin(b, joining);
    joining' := joining[b := wants];
    forall o | o in all
      ensures Placed(g, o)
    {
      assert o != b ==> old(Placed(g, o)) && (o in g.members <==> o in old(g.members));
    }
  }

  method JoinStep(g: Group, all: set<Bufferevent>, joining: map<Bufferevent, Both<bool>>, b: Bufferevent, ghost w: World<Bufferevent>)
    returns (joining': map<Bufferevent, Both<bool>>)
    requires InOrder(g, all, joining) && b in all && b.group == null && Shows(g, all, joining, w)
    modifies g`members, g`nMembers, b`group
    ensures InOrder(g, all, joining') && Shows(g, all, joining', StepJoin(w, b))
  {
    assert Placed(g, b);
    joining' := JoinKeeps(g, all, joining, b);
    assert Ones(all, w.ones);
  }

  method JoinedStep(g: Group, all: set<Bufferevent>, joining: map<Bufferevent, Both<bool>>, b: Bufferevent, ghost w: World<Bufferevent>)
    returns (joining': map<Bufferevent, Both<bool>>)
    requires InOrder(g, all, joining) && b in all && b in joining && Shows(g, all, joining, w)
    modifies b`suspended, b`running
    ensures InOrder(g, all, joining') && Shows(g, all, joining', StepJoined(w, b))
  {
    assert Placed(g, b);
    g.JoinEnd(b, joining[b], joining);
    joining' := joining - {b};
    OneMore(all, w.ones, b, w.ones[b].(suspended := Bound(w.ones[b].suspended, joining[b])));
  }

  method LeaveKeeps(g: Group, all: set<Bufferevent>, joining: map<Bufferevent, Both<bool>>, b: Bufferevent)
    requires InOrder(g, all, joining) && b in g.members && b !in joining
    modifies g`members, g`nMembers, b`group, b`suspended, b`running
    ensures InOrder(g, all, joining) && g.members == Minus(old(g.members), b)
    ensures Look(b) == old(Look(b)).(suspended := Released(old(b.suspended)))
  {
    var k :| 0 <= k < |g.members| && g.members[k] == b;
    WithoutHolds(g.members, k);
    MinusIsWithout(g.members, k);
    g.Leave(b, k, joining);
  }

  method LeaveStep(g: Group, all: set<Bufferevent>, joining: map<Bufferevent, Both<bool>>, b: Bufferevent, ghost w: World<Bufferevent>)
    requires InOrder(g, all, joining) && b in g.members && b !in joining && Shows(g, all, joining, w)
    modifies g`members, g`nMembers, b`group, b`suspended, b`running
    ensures InOrder(g, all, joining) && Shows(g, all, joining, StepLeave(w, b))
  {
    LeaveKeeps(g, all, joining, b);
    OneMore(all, w.ones, b, w.ones[b].(suspended := Released(w.ones[b].suspended)));
  }

  method ConfigureStep(g: Group, all: set<Bufferevent>, joining: map<Bufferevent, Both<bool>>, cfg: Cfg, ghost w: World<Bufferevent>)
    requires InOrder(g, all, joining) && Shows(g, all, joining, w) && cfg.Sane()
    modifies g`cfg, g`rateLimit, g`minShare, g`configuredMinShare
    ensures InOrder(g, all, joining) && Shows(g, all, joining, StepConfigure(w, cfg))
  {
    g.SetCfg(cfg, joining);
    assert g.rateLimit.limit.At(Read) == g.rateLimit.limit.read && g.rateLimit.limit.At(Write) == g.rateLimit.limit.write;
  }

  method AskShareStep(g: Group, all: set<Bufferevent>, joining: map<Bufferevent, Both<bool>>, share: nat, ghost w: World<Bufferevent>)
    requires InOrder(g, all, joining) && Shows(g, all, joining, w)
    modifies g`minShare, g`configuredMinShare
    ensures InOrder(g, all, joining) && Shows(g, all, joining, StepShare(w, share))
  {
    var r := g.SetMinShare(share);
  }

  method OneCall(g: Group, all: set<Bufferevent>, joining: map<Bufferevent, Both<bool>>, call: Call<Bufferevent>, ghost w: World<Bufferevent>)
    returns (joining': map<Bufferevent, Both<bool>>)
    requires InOrder(g, all, joining) && Shows(g, all, joining, w)
    modifies g, all
    ensures InOrder(g, all, joining') && Shows(g, all, joining', Step(w, call))
  {
    joining' := joining;
    if call.GroupTimer? {
      GroupTimerStep(g, all, joining, call.now, call.random, call.busy, w);
    } else if call.Configure? {
      if call.cfg.Sane() {
        ConfigureStep(g, all, joining, call.cfg, w);
      }
    } else if call.AskShare? {
      AskShareStep(g, all, joining, call.share, w);
    } else if call.b in all {
      assert Placed(g, call.b);
      if call.b in joining {
        if call.Joined? {
          joining' := JoinedStep(g, all, joining, call.b, w);
        }
      } else if call.Join? {
        if call.b.group == null {
          joining' := JoinStep(g, all, joining, call.b, w);
        }
      } else {
        FreeCall(g, all, joining, call, w);
      }
    }
  }

  /** A call on a bufferevent whose lock is free. */
  method FreeCall(g: Group, all: set<Bufferevent>, joining: map<Bufferevent, Both<bool>>, call: Call<Bufferevent>, ghost w: World<Bufferevent>)
    requires InOrder(g, all, joining) && !call.GroupTimer? && !call.Configure? && !call.AskShare? && !call.Join?
    requires call.b in all && call.b !in joining
    requires Shows(g, all, joining, w)
    modifies g, all
    ensures InOrder(g, all, joining) && Shows(g, all, joining, Step(w, call))
  {
    var b := call.b;
    assert Placed(g, b);
    match call {
      case OnOne(_, own) => OwnStep(g, all, joining, b, own, w);
      case Move(_, dir, bytes, random, busy) =>
        if CanPay(b.limit, dir, bytes) && CanPay(g.rateLimit, dir, bytes) {
          TransferStep(g, all, joining, b, dir, bytes, random, busy, w);
        }
      case GetMax(_, dir, now) =>
        if b.group == g {
          GetMaxStep(g, all, joining, b, dir, now, w);
        }
      case Leave(_) =>
        if b.group == g {
          LeaveStep(g, all, joining, b, w);
        }
      case _ =>
    }
  }

  /**
   * However the steps of threads and timers follow each other, and whichever locks cannot be
   * taken: all flags and limits are what the same run makes of the plain values, whatever the random
   * orders; and when the group lets its members go on, those that still carry its flag will be tried again.
   */
  method Run(g: Group, all: set<Bufferevent>, calls: seq<Call<Bufferevent>>) returns (joining: map<Bufferevent, Both<bool>>)
    requires InOrder(g, all, map[])
    modifies g, all
    ensures InOrder(g, all, joining) && Shows(g, all, joining, Ran(old(View(g, all)), calls))
    ensures forall b, dir: Dir :: b in g.members && BWGroup in b.suspended.At(dir) && !g.suspended.At(dir) ==> g.pendingUnsuspend.At(dir)
    ensures forall b :: b in all ==> b.Awake() && b.Backed()
  {
    joining := map[];
    ghost var w := View(g, all);
    for i := 0 to |calls|
      invariant InOrder(g, all, joining) && Shows(g, all, joining, Ran(w, calls[..i]))
    {
      assert calls[..i + 1][..i] == calls[..i];
      joining := OneCall(g, all, joining, calls[i], Ran(w, calls[..i]));
    }
    assert calls[..|calls|] == calls;
    forall b, dir: Dir | b in g.members && BWGroup in b.suspended.At(dir) && !g.suspended.At(dir)
      ensures g.pendingUnsuspend.At(dir)
    {
      assert Carries(b, dir, joining);
      assert g.WillTell(Read, joining) && g.WillTell(Write, joining);
    }
    forall b | b in all
      ensures b.Awake() && b.Backed()
    {
      assert Placed(g, b);
    }
  }
}
