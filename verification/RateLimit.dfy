/** Bufferevents that are suspended when their token bucket is empty, and wake up when it is refilled. */
module RateLimit {
  import opened TokenBucket
  import opened Directions
  import opened Lists
  import opened Division
  import opened RateLimitModel

  const MAX_TO_TRANSFER_EVER: int := 16384

  /** A bufferevent, with its rate_limiting part. */
  class Bufferevent {
    var suspended: Both<set<Flag>>
    var enabled: Both<bool>
    /** What be_ops->enable and be_ops->disable were last told. */
    var running: Both<bool>
    var cfg: Cfg?
    var limit: Bucket
    /** refill_bucket_event is added. */
    var refillPending: bool
    var group: Group?

    constructor ()
      ensures Sound() && group == null && cfg == null
      ensures suspended == Both({}, {}) && enabled == Both(false, false)
    {
      suspended, enabled, running := Both({}, {}), Both(false, false), Both(false, false);
      cfg, limit, refillPending, group := null, Bucket(Both(0, 0), 0), false, null;
    }

    /** The backend runs exactly the directions that are enabled and not suspended. */
    predicate Backed()
      reads this`suspended, this`enabled, this`running
    {
      && (running.read <==> enabled.read && suspended.read == {})
      && (running.write <==> enabled.write && suspended.write == {})
    }

    /** No wakeup is lost: the timer is pending exactly when it is waited for, and who does not wait has bandwidth. */
    predicate Awake()
      reads this`suspended, this`cfg, this`limit, this`refillPending
    {
      && (refillPending <==> BW in suspended.read || BW in suspended.write)
      && (cfg == null ==> !refillPending)
      && (cfg != null ==> cfg.Sane() && UnderMax(limit, cfg))
      && (cfg != null ==> (BW in suspended.read || limit.limit.read > 0) && (BW in suspended.write || limit.limit.write > 0))
    }

    predicate Sound()
      reads this
    {
      Backed() && Awake()
    }

    /** bufferevent_suspend_read and bufferevent_suspend_write. */
    method Suspend(dir: Dir, what: Flag)
      requires Backed()
      modifies this`suspended, this`running
      ensures Backed() && suspended == old(suspended).With(dir, old(suspended).At(dir) + {what})
      ensures what != BW && old(Awake()) ==> Awake()
    {
      if suspended.At(dir) == {} {
        running := running.With(dir, false);
      }
      suspended := suspended.With(dir, suspended.At(dir) + {what});
    }

    /** bufferevent_unsuspend_read and bufferevent_unsuspend_write. */
    method Unsuspend(dir: Dir, what: Flag)
      requires Backed()
      modifies this`suspended, this`running
      ensures Backed() && suspended == old(suspended).With(dir, old(suspended).At(dir) - {what})
      ensures what != BW && old(Awake()) ==> Awake()
    {
      suspended := suspended.With(dir, suspended.At(dir) - {what});
      if suspended.At(dir) == {} && enabled.At(dir) {
        running := running.With(dir, true);
      }
    }

    /** bufferevent_enable of the given directions. */
    method Enable(event: Both<bool>)
      requires Sound()
      modifies this`enabled, this`running
      ensures Sound() && enabled == Both(old(enabled).read || event.read, old(enabled).write || event.write)
    {
      var impl := event;
      if suspended.read != {} {
        impl := impl.(read := false);
      }
      if suspended.write != {} {
        impl := impl.(write := false);
      }
      enabled := Both(enabled.read || event.read, enabled.write || event.write);
      running := Both(running.read || impl.read, running.write || impl.write);
    }

    /** bufferevent_disable. */
    method Disable(event: Both<bool>)
      requires Sound()
      modifies this`enabled, this`running
      ensures Sound() && enabled == Both(old(enabled).read && !event.read, old(enabled).write && !event.write)
    {
      enabled := Both(enabled.read && !event.read, enabled.write && !event.write);
      running := Both(running.read && !event.read, running.write && !event.write);
    }

    /** bufferevent_update_buckets at the given tick. */
    method UpdateBuckets(now: tick)
      requires Sound() && cfg != null
      modifies this`limit
      ensures Sound() && limit == Refilled(old(limit), cfg, now)
    {
      if now != limit.lastUpdated {
        var r;
        r, limit := TokenBucket.Update(limit, cfg, now);
      }
    }

    /** The part of _bufferevent_get_rlim_max about the bufferevent's own bucket. */
    method OwnLimit(dir: Dir, now: tick) returns (r: int)
      requires Sound()
      modifies this`limit
      ensures Sound() && limit == (if cfg == null then old(limit) else Refilled(old(limit), cfg, now))
      ensures r == if cfg == null then MAX_TO_TRANSFER_EVER else limit.limit.At(dir)
    {
      r := MAX_TO_TRANSFER_EVER;
      if cfg != null {
        UpdateBuckets(now);
        r := limit.limit.At(dir);
      }
    }

    /** _bufferevent_get_rlim_max outside any group. */
    method GetRlimMax(dir: Dir, now: tick) returns (r: int)
      requires Sound() && group == null
      modifies this`limit
      ensures Sound() && limit == (if cfg == null then old(limit) else Refilled(old(limit), cfg, now))
      ensures r == if cfg == null then MAX_TO_TRANSFER_EVER else Max(0, limit.limit.At(dir))
    {
      r := OwnLimit(dir, now);
      if r < 0 {
        r := 0;
      }
    }

    /** The part of _bufferevent_decrement_{read,write}_buckets about the bufferevent's own bucket. */
    method DecrementOwn(dir: Dir, bytes: nat)
      requires Sound() && limit.limit.At(dir) - bytes >= -SSIZE_MAX - 1
      modifies this`limit, this`suspended, this`running, this`refillPending
      ensures Sound()
      ensures limit == if cfg == null then old(limit) else old(limit).(limit := old(limit).limit.With(dir, old(limit).limit.At(dir) - bytes))
      ensures suspended == if cfg == null then old(suspended) else Flagged(old(suspended), dir, BW, limit.limit.At(dir) <= 0)
    {
      if cfg != null {
        limit := limit.(limit := limit.limit.With(dir, limit.limit.At(dir) - bytes));
        if limit.limit.At(dir) <= 0 {
          Suspend(dir, BW);
          refillPending := true;
        } else if BW in suspended.At(dir) {
          if BW !in suspended.At(Other(dir)) {
            refillPending := false;
          }
          Unsuspend(dir, BW);
        } else {
          FlagStays(suspended, dir, BW, false);
        }
      }
    }

    /** bufferevent_decrement_read_limit and _write_limit; a refund must leave the limit within its maximum. */
    method DecrementLimit(dir: Dir, decr: int)
      requires Sound() && cfg != null && -SSIZE_MAX - 1 <= limit.limit.At(dir) - decr <= cfg.maximum.At(dir)
      modifies this`limit, this`suspended, this`running, this`refillPending
      ensures Sound()
      ensures limit == old(limit).(limit := old(limit).limit.With(dir, old(limit).limit.At(dir) - decr))
      ensures suspended == if (old(limit).limit.At(dir) > 0) == (limit.limit.At(dir) > 0) then old(suspended)
                           else Flagged(old(suspended), dir, BW, limit.limit.At(dir) <= 0)
    {
      var oldLimit := limit.limit.At(dir);
      var newLimit := oldLimit - decr;
      limit := limit.(limit := limit.limit.With(dir, newLimit));
      if oldLimit > 0 && newLimit <= 0 {
        Suspend(dir, BW);
        refillPending := true;
      } else if oldLimit <= 0 && newLimit > 0 {
        if BW !in suspended.At(Other(dir)) {
          refillPending := false;
        }
        Unsuspend(dir, BW);
      }
    }

    /** One half of _bev_refill_callback. */
    method WakeIfRefilled(dir: Dir) returns (again: bool)
      requires Backed()
      modifies this`suspended, this`running
      ensures Backed() && suspended == if limit.limit.At(dir) > 0 then Flagged(old(suspended), dir, BW, false) else old(suspended)
      ensures again <==> BW in suspended.At(dir)
    {
      again := false;
      if BW in suspended.At(dir) {
        if limit.limit.At(dir) > 0 {
          Unsuspend(dir, BW);
        } else {
          again := true;
        }
      } else {
        FlagStays(suspended, dir, BW, false);
      }
    }

    /** _bev_refill_callback: the timer has run out at the given tick. */
    method RefillCallback(now: tick)
      requires Sound()
      modifies this`limit, this`suspended, this`running, this`refillPending
      ensures Sound() && suspended == if cfg == null then old(suspended) else Woken(old(suspended), limit)
      ensures cfg != null ==> forall dir: Dir :: BW in suspended.At(dir) <==> BW in old(suspended).At(dir) && limit.limit.At(dir) <= 0
      ensures limit == if cfg == null then old(limit) else Refilled(old(limit), cfg, now)
    {
      refillPending := false;
      if cfg == null {
        return;
      }
      var r;
      r, limit := TokenBucket.Update(limit, cfg, now);
      var againRead := WakeIfRefilled(Read);
      var againWrite := WakeIfRefilled(Write);
      assert suspended.At(Read) == suspended.read && suspended.At(Write) == suspended.write;
      if againRead || againWrite {
        refillPending := true;
      }
    }

    /** Left alone, the timer wakes the bufferevent up, in no more ticks than it is short of bytes. */
    method RefillUntilAwake(now: tick) returns (rounds: nat)
      requires Sound() && cfg != null && limit.lastUpdated == now
      modifies this`limit, this`suspended, this`running, this`refillPending
      ensures Sound() && !refillPending && BW !in suspended.read && BW !in suspended.write
      ensures rounds <= old(Max(1, 1 - Min(limit.limit.read, limit.limit.write)))
    {
      rounds := 0;
      var t := now;
      ghost var all := Max(1, 1 - Min(limit.limit.read, limit.limit.write));
      while refillPending
        invariant Sound() && limit.lastUpdated == t && rounds <= all
        invariant refillPending && rounds > 0 ==> rounds + (1 - Min(limit.limit.read, limit.limit.write)) <= all
        invariant refillPending && rounds > 0 ==> Min(limit.limit.read, limit.limit.write) <= 0
        invariant rounds == 0 ==> Max(1, 1 - Min(limit.limit.read, limit.limit.write)) == all
        decreases refillPending, all - rounds
      {
        t := (t + 1) % TICKS;
        assert Ticks(limit.lastUpdated, t) == 1;
        RefillCallback(t);
        rounds := rounds + 1;
      }
    }

    /** bufferevent_set_rate_limit. */
    method SetRateLimit(newCfg: Cfg?, now: tick)
      requires Sound() && (newCfg != null ==> newCfg.Sane())
      modifies this`cfg, this`limit, this`suspended, this`running, this`refillPending
      ensures Sound() && cfg == newCfg
      ensures limit == if newCfg == null || newCfg == old(cfg) then old(limit) else Begun(old(limit), old(cfg) != null, newCfg, now)
      ensures suspended == if newCfg == old(cfg) then old(suspended) else Limited(old(suspended), newCfg, limit)
      ensures newCfg != null && newCfg != old(cfg) ==> forall dir: Dir :: BW in suspended.At(dir) <==> limit.limit.At(dir) <= 0
      ensures newCfg != null && old(cfg) == null ==> limit.limit.read == newCfg.rate.read && limit.limit.write == newCfg.rate.write
    {
      if newCfg == null {
        if cfg == null {
          FlagStays(suspended, Read, BW, false);
          FlagStays(suspended, Write, BW, false);
        }
        cfg := null;
        Unsuspend(Read, BW);
        Unsuspend(Write, BW);
        refillPending := false;
        return;
      }
      if cfg == newCfg {
        return;
      }
      var reinit := cfg != null;
      cfg := newCfg;
      limit := TokenBucket.Init(limit, newCfg, now, reinit);
      if reinit {
        refillPending := false;
      }
      var suspendedRead := SetFrom(Read);
      var suspendedWrite := SetFrom(Write);
      if suspendedRead || suspendedWrite {
        refillPending := true;
      }
    }

    /** One half of the end of bufferevent_set_rate_limit. */
    method SetFrom(dir: Dir) returns (isSuspended: bool)
      requires Backed()
      modifies this`suspended, this`running
      ensures Backed() && isSuspended == (limit.limit.At(dir) <= 0)
      ensures suspended == Flagged(old(suspended), dir, BW, isSuspended)
    {
      isSuspended := limit.limit.At(dir) <= 0;
      if isSuspended {
        Suspend(dir, BW);
      } else {
        Unsuspend(dir, BW);
      }
    }
  }

  /**
   * The flag for the group's bandwidth, as far as a bufferevent carries it or is bound to: one
   * that is joining has read the state of the group and will set the flag before it gives up its lock.
   */
  ghost predicate Carries(b: Bufferevent, dir: Dir, joining: map<Bufferevent, Both<bool>>)
    reads b`suspended
  {
    BWGroup in b.suspended.At(dir) || (b in joining && joining[b].At(dir))
  }

  /** struct bufferevent_rate_limit_group. */
  class Group {
    var members: seq<Bufferevent>
    var nMembers: int
    var suspended: Both<bool>
    var pendingUnsuspend: Both<bool>
    var rateLimit: Bucket
    var cfg: Cfg
    var minShare: nat
    var configuredMinShare: nat

    /** bufferevent_rate_limit_group_new. */
    constructor (cfg: Cfg, now: tick)
      requires cfg.Sane()
      ensures Valid(map[]) && members == [] && this.cfg == cfg && suspended == Both(false, false)
      ensures minShare == LeastShare(64, cfg)
    {
      this.cfg, minShare, configuredMinShare := cfg, 0, 0;
      members, nMembers, suspended, pendingUnsuspend := [], 0, Both(false, false), Both(false, false);
      new;
      rateLimit := TokenBucket.Init(Bucket(Both(0, 0), 0), cfg, now, false);
      var r := SetMinShare(64);
    }

    /** The limits of the group are within its configuration, and the rate of a tick is enough for a share. */
    predicate Limited()
      reads this`cfg, this`rateLimit, this`minShare, this`configuredMinShare
    {
      && cfg.Sane() && UnderMax(rateLimit, cfg) && configuredMinShare <= SSIZE_MAX
      && minShare <= cfg.rate.read && minShare <= cfg.rate.write
    }

    function Now(): Grp
      reads this`suspended, this`pendingUnsuspend, this`rateLimit
    {
      Grp(suspended, pendingUnsuspend, rateLimit)
    }

    /** The lock of some member cannot be taken. */
    ghost predicate Missed(busy: set<Bufferevent>)
      reads this`members
    {
      exists b :: b in members && b in busy
    }

    /** The list of members and the limits of the group are in order. */
    ghost predicate Formed()
      reads this, members
    {
      && nMembers == |members| && Distinct(members) && Limited()
      && forall b {:trigger b in members} :: b in members ==> b.group == this && b.Sound()
    }

    /** Whoever is suspended for the group's sake will be told when that is over. */
    ghost predicate WillTell(dir: Dir, joining: map<Bufferevent, Both<bool>>)
      reads this, members
    {
      && (pendingUnsuspend.At(dir) ==> !suspended.At(dir))
      && forall b {:trigger b in members} :: b in members && Carries(b, dir, joining) ==> suspended.At(dir) || pendingUnsuspend.At(dir)
    }

    ghost predicate Valid(joining: map<Bufferevent, Both<bool>>)
      reads this, members
    {
      Formed() && WillTell(Read, joining) && WillTell(Write, joining)
    }

    /** bufferevent_rate_limit_group_set_min_share: the rate of one tick is enough for the share of one member. */
    method SetMinShare(share: nat) returns (r: int)
      requires cfg.Sane()
      modifies this`minShare, this`configuredMinShare
      ensures r == if share <= SSIZE_MAX then 0 else -1
      ensures if r == 0 then configuredMinShare == share && minShare == LeastShare(share, cfg)
              else configuredMinShare == old(configuredMinShare) && minShare == old(minShare)
    {
      if share > SSIZE_MAX {
        return -1;
      }
      configuredMinShare := share;
      minShare := share;
      if minShare > cfg.rate.read {
        minShare := cfg.rate.read;
      }
      if minShare > cfg.rate.write {
        minShare := cfg.rate.write;
      }
      r := 0;
    }

    /** bufferevent_rate_limit_group_set_cfg. */
    method SetCfg(newCfg: Cfg, ghost joining: map<Bufferevent, Both<bool>>)
      requires Valid(joining) && newCfg.Sane()
      modifies this`cfg, this`rateLimit, this`minShare, this`configuredMinShare
      ensures Valid(joining) && cfg == newCfg && configuredMinShare == old(configuredMinShare)
      ensures minShare == LeastShare(configuredMinShare, cfg) && rateLimit.lastUpdated == old(rateLimit).lastUpdated
      ensures forall dir: Dir :: rateLimit.limit.At(dir) == Min(old(rateLimit).limit.At(dir), cfg.maximum.At(dir))
    {
      cfg := newCfg;
      if rateLimit.limit.read > newCfg.maximum.read {
        rateLimit := rateLimit.(limit := rateLimit.limit.(read := newCfg.maximum.read));
      }
      if rateLimit.limit.write > newCfg.maximum.write {
        rateLimit := rateLimit.(limit := rateLimit.limit.(write := newCfg.maximum.write));
      }
      var r := SetMinShare(configuredMinShare);
    }

    /** The loop of _bev_group_suspend_{reading,writing}: the locks of the members in `busy` cannot be taken. */
    method SuspendMembers(dir: Dir, busy: set<Bufferevent>)
      requires Formed()
      modifies members`suspended, members`running
      ensures Formed()
      ensures forall b :: b in members ==>
        b.suspended == if b in busy then old(b.suspended) else Flagged(old(b.suspended), dir, BWGroup, true)
    {
      for i := 0 to |members|
        invariant Formed()
        invariant forall j :: 0 <= j < |members| ==>
          var b := members[j];
          b.suspended == if j >= i || b in busy then old(b.suspended) else old(b.suspended).With(dir, old(b.suspended).At(dir) + {BWGroup})
      {
        assert members[i] in members;
        Alone(members, i);
        if members[i] !in busy {
          members[i].Suspend(dir, BWGroup);
        }
      }
    }

    /** _bev_group_suspend_{reading,writing}. */
    method SuspendAll(dir: Dir, busy: set<Bufferevent>, ghost joining: map<Bufferevent, Both<bool>>)
      requires Formed()
      modifies this`suspended, this`pendingUnsuspend, members`suspended, members`running
      ensures Formed() && WillTell(dir, joining)
      ensures suspended == old(suspended).With(dir, true) && pendingUnsuspend == old(pendingUnsuspend).With(dir, false)
      ensures forall b :: b in members ==>
        b.suspended == if b in busy then old(b.suspended) else Flagged(old(b.suspended), dir, BWGroup, true)
    {
      suspended := suspended.With(dir, true);
      pendingUnsuspend := pendingUnsuspend.With(dir, false);
      SuspendMembers(dir, busy);
    }

    /** A stretch of FOREACH_RANDOM_ORDER: try to unsuspend the members from place lo up to place hi. */
    method UnsuspendFrom(dir: Dir, lo: nat, hi: nat, busy: set<Bufferevent>) returns (again: bool)
      requires Formed() && lo <= hi <= |members|
      modifies members`suspended, members`running
      ensures Formed()
      ensures again <==> exists j :: lo <= j < hi && members[j] in busy
      ensures forall j :: 0 <= j < |members| ==>
        var b := members[j];
        b.suspended == if lo <= j < hi && b !in busy then old(b.suspended).With(dir, old(b.suspended).At(dir) - {BWGroup}) else old(b.suspended)
    {
      again := false;
      for i := lo to hi
        invariant Formed()
        invariant again <==> exists j :: lo <= j < i && members[j] in busy
        invariant forall j :: 0 <= j < |members| ==>
          var b := members[j];
          b.suspended == if lo <= j < i && b !in busy then old(b.suspended).With(dir, old(b.suspended).At(dir) - {BWGroup}) else old(b.suspended)
      {
        assert members[i] in members;
        Alone(members, i);
        if members[i] !in busy {
          members[i].Unsuspend(dir, BWGroup);
        } else {
          again := true;
        }
      }
    }

    /** FOREACH_RANDOM_ORDER: from a random member to the last, then from the first to that member. */
    method UnsuspendMembers(dir: Dir, random: nat, busy: set<Bufferevent>) returns (again: bool)
      requires Formed()
      modifies members`suspended, members`running
      ensures Formed() && (again <==> Missed(busy))
      ensures forall b :: b in members ==>
        b.suspended == if b in busy then old(b.suspended) else Flagged(old(b.suspended), dir, BWGroup, false)
    {
      var first := if nMembers == 0 then 0 else random % nMembers;
      again := UnsuspendFrom(dir, first, |members|, busy);
      var again' := UnsuspendFrom(dir, 0, first, busy);
      again := again || again';
    }

    /** _bev_group_unsuspend_{reading,writing}. */
    method UnsuspendAll(dir: Dir, random: nat, busy: set<Bufferevent>, ghost joining: map<Bufferevent, Both<bool>>)
      requires Formed() && joining.Keys <= busy
      modifies this`suspended, this`pendingUnsuspend, members`suspended, members`running
      ensures Formed() && WillTell(dir, joining)
      ensures suspended == old(suspended).With(dir, false)
      ensures pendingUnsuspend == old(pendingUnsuspend).With(dir, Missed(busy))
      ensures forall b :: b in members ==>
        b.suspended == if b in busy then old(b.suspended) else Flagged(old(b.suspended), dir, BWGroup, false)
    {
      suspended := suspended.With(dir, false);
      var again := UnsuspendMembers(dir, random, busy);
      pendingUnsuspend := pendingUnsuspend.With(dir, again);
    }

    /** The bytes are taken from the group's bucket. */
    method Pay(dir: Dir, bytes: nat, ghost joining: map<Bufferevent, Both<bool>>)
      requires Valid(joining) && rateLimit.limit.At(dir) - bytes >= -SSIZE_MAX - 1
      modifies this`rateLimit
      ensures Valid(joining)
      ensures rateLimit == old(rateLimit).(limit := old(rateLimit).limit.With(dir, old(rateLimit).limit.At(dir) - bytes))
    {
      rateLimit := rateLimit.(limit := rateLimit.limit.With(dir, rateLimit.limit.At(dir) - bytes));
    }

    /** The part of _bufferevent_decrement_{read,write}_buckets about the group. */
    method Decrement(dir: Dir, bytes: nat, random: nat, busy: set<Bufferevent>, ghost joining: map<Bufferevent, Both<bool>>)
      requires Valid(joining) && joining.Keys <= busy && rateLimit.limit.At(dir) - bytes >= -SSIZE_MAX - 1
      modifies this`suspended, this`pendingUnsuspend, this`rateLimit, members`suspended, members`running
      ensures Valid(joining)
      ensures Now() == GroupPaid(old(Now()), dir, bytes, Missed(busy))
      ensures suspended.At(dir) <==> old(rateLimit).limit.At(dir) - bytes <= 0
      ensures forall b :: b in members ==>
        b.suspended == if b in busy then old(b.suspended)
                       else Followed(old(b.suspended), dir, old(suspended).At(dir), suspended.At(dir))
    {
      Pay(dir, bytes, joining);
      if rateLimit.limit.At(dir) <= 0 {
        SuspendAll(dir, busy, joining);
      } else if suspended.At(dir) {
        UnsuspendAll(dir, random, busy, joining);
      }
    }

    /** One half of _bev_group_refill_callback. */
    method RetryUnsuspend(dir: Dir, random: nat, busy: set<Bufferevent>, ghost joining: map<Bufferevent, Both<bool>>)
      requires Valid(joining) && joining.Keys <= busy
      modifies this`suspended, this`pendingUnsuspend, members`suspended, members`running
      ensures Valid(joining) && Now() == Resumed(old(Now()), dir, minShare, Missed(busy))
      ensures forall b :: b in members ==>
        b.suspended == if b !in busy && old(Retries(Now(), dir, minShare)) then Flagged(old(b.suspended), dir, BWGroup, false)
                       else old(b.suspended)
    {
      if pendingUnsuspend.At(dir) || (suspended.At(dir) && rateLimit.limit.At(dir) >= minShare) {
        UnsuspendAll(dir, random, busy, joining);
      }
    }

    /**
     * _bev_group_refill_callback. Every member whose lock is free is told, if the group is not,
     * or no longer, suspended; also when an earlier attempt to tell it had failed.
     */
    method RefillCallback(now: tick, random: nat, busy: set<Bufferevent>, ghost joining: map<Bufferevent, Both<bool>>)
      requires Valid(joining) && joining.Keys <= busy
      modifies this`suspended, this`pendingUnsuspend, this`rateLimit, members`suspended, members`running
      ensures Valid(joining) && Now() == BothResumed(old(Now()), cfg, minShare, now, Missed(busy))
      ensures forall b :: b in members ==>
        b.suspended == if b in busy then old(b.suspended) else Freed(old(b.suspended), old(Now()), cfg, minShare, now)
    {
      var r;
      r, rateLimit := TokenBucket.Update(rateLimit, cfg, now);
      ghost var full := Now();
      RetryUnsuspend(Read, random, busy, joining);
      assert Retries(Now(), Write, minShare) <==> Retries(full, Write, minShare);
      RetryUnsuspend(Write, random, busy, joining);
    }

    /** The tick after `t`: master_refill_event is persistent. */
    method NextTick(t: nat, random: nat, busy: set<Bufferevent>, ghost joining: map<Bufferevent, Both<bool>>)
      requires Valid(joining) && joining.Keys <= busy && rateLimit.lastUpdated == t % TICKS
      modifies this`suspended, this`pendingUnsuspend, this`rateLimit, members`suspended, members`running
      ensures Valid(joining) && rateLimit.lastUpdated == (t + 1) % TICKS
      ensures forall dir: Dir :: rateLimit.limit.At(dir) == Grown(old(rateLimit).limit.At(dir), cfg.maximum.At(dir), cfg.rate.At(dir), 1)
      ensures forall dir: Dir :: suspended.At(dir) <==> old(suspended).At(dir) && rateLimit.limit.At(dir) < minShare
      ensures forall dir: Dir, b :: b in members && b !in busy && !suspended.At(dir) ==> BWGroup !in b.suspended.At(dir)
      ensures forall dir: Dir, b :: b in members ==> b.suspended.At(dir) <= old(b.suspended).At(dir)
    {
      WrapTells(t, t + 1);
      ghost var was := Now();
      RefillCallback((t + 1) % TICKS, random, busy, joining);
      forall dir: Dir, b | b in members
        ensures suspended.At(dir) <==> was.suspended.At(dir) && rateLimit.limit.At(dir) < minShare
        ensures b.suspended.At(dir) <= old(b.suspended).At(dir)
        ensures b !in busy && !suspended.At(dir) ==> BWGroup !in b.suspended.At(dir)
      {
        assert old(WillTell(dir, joining));
        TimerMeans(was, cfg, minShare, (t + 1) % TICKS, Missed(busy), old(b.suspended), dir);
      }
      forall dir: Dir
        ensures suspended.At(dir) <==> was.suspended.At(dir) && rateLimit.limit.At(dir) < minShare
      {
        assert old(WillTell(dir, joining));
        TimerMeans(was, cfg, minShare, (t + 1) % TICKS, Missed(busy), Both({}, {}), dir);
      }
    }

    /**
     * The timer alone, for as many ticks as there are sets of locks that cannot be taken then. A
     * direction is resumed exactly when the limit and the rates of the ticks so far come to min_share,
     * and a member whose lock is free on that tick or any later one no longer carries the flag.
     */
    method RefillOver(now: nat, random: nat, busy: seq<set<Bufferevent>>, ghost joining: map<Bufferevent, Both<bool>>)
      requires Valid(joining) && rateLimit.lastUpdated == now % TICKS
      requires forall k :: 0 <= k < |busy| ==> joining.Keys <= busy[k]
      modifies this`suspended, this`pendingUnsuspend, this`rateLimit, members`suspended, members`running
      ensures Valid(joining) && rateLimit.lastUpdated == (now + |busy|) % TICKS
      ensures forall dir: Dir :: rateLimit.limit.At(dir) == Grown(old(rateLimit).limit.At(dir), cfg.maximum.At(dir), cfg.rate.At(dir), |busy|)
      ensures forall dir: Dir :: suspended.At(dir) <==> StillSuspended(old(suspended), old(rateLimit), cfg, minShare, dir, |busy|)
      ensures forall dir: Dir, b :: b in members && Reached(b, busy, |busy|, old(suspended), old(rateLimit), cfg, minShare, dir) ==>
        BWGroup !in b.suspended.At(dir)
    {
      ghost var was, bucket := suspended, rateLimit;
      for n := 0 to |busy|
        invariant Valid(joining) && rateLimit.lastUpdated == (now + n) % TICKS
        invariant forall dir: Dir :: rateLimit.limit.At(dir) == Grown(bucket.limit.At(dir), cfg.maximum.At(dir), cfg.rate.At(dir), n)
        invariant forall dir: Dir :: suspended.At(dir) <==> StillSuspended(was, bucket, cfg, minShare, dir, n)
        invariant forall dir: Dir, b :: b in members && Reached(b, busy, n, was, bucket, cfg, minShare, dir) ==>
          BWGroup !in b.suspended.At(dir)
      {
        OneTickMore(was, bucket, cfg, minShare, n);
        ghost var m := n + 1;
        forall b, dir: Dir
          ensures Reached(b, busy, m, was, bucket, cfg, minShare, dir)
            ==> Reached(b, busy, n, was, bucket, cfg, minShare, dir)
                || (b !in busy[n] && !StillSuspended(was, bucket, cfg, minShare, dir, m))
        {
        }
        NextTick(now + n, random, busy[n], joining);
      }
    }

    /** bufferevent_add_to_rate_limit_group, up to where it gives up the group's lock. It still holds that of `b`. */
    method JoinBegin(b: Bufferevent, ghost joining: map<Bufferevent, Both<bool>>) returns (wants: Both<bool>)
      requires Valid(joining) && b.group == null && b.Sound() && b !in joining
      requires BWGroup !in b.suspended.read && BWGroup !in b.suspended.write
      modifies this`members, this`nMembers, b`group
      ensures Valid(joining[b := wants]) && members == old(members) + [b] && wants == suspended
    {
      assert b !in members;
      DistinctSnoc(members, b);
      b.group := this;
      nMembers := nMembers + 1;
      members := members + [b];
      wants := suspended;
    }

    /** The rest of it, when other threads may have run in between. */
    method JoinEnd(b: Bufferevent, wants: Both<bool>, ghost joining: map<Bufferevent, Both<bool>>)
      requires Valid(joining) && b in members && b in joining && joining[b] == wants
      modifies b`suspended, b`running
      ensures Valid(joining - {b})
      ensures b.suspended == Bound(old(b.suspended), wants)
      ensures forall dir: Dir :: BWGroup in b.suspended.At(dir) <==> wants.At(dir) || BWGroup in old(b.suspended).At(dir)
    {
      if wants.read {
        b.Suspend(Read, BWGroup);
      }
      if wants.write {
        b.Suspend(Write, BWGroup);
      }
      assert b.suspended.read == Bound(old(b.suspended), wants).read && b.suspended.write == Bound(old(b.suspended), wants).write;
    }

    /** The first half of bufferevent_remove_from_rate_limit_group. */
    method Unlink(b: Bufferevent, k: nat, ghost joining: map<Bufferevent, Both<bool>>)
      requires Valid(joining) && k < |members| && members[k] == b && b !in joining
      modifies this`members, this`nMembers, b`group
      ensures Valid(joining) && members == Without(old(members), k) && b !in members
      ensures b.group == null && b.Sound()
    {
      assert b in members;
      WithoutHolds(members, k);
      b.group := null;
      nMembers := nMembers - 1;
      members := Without(members, k);
    }

    /** bufferevent_remove_from_rate_limit_group. */
    method Leave(b: Bufferevent, k: nat, ghost joining: map<Bufferevent, Both<bool>>)
      requires Valid(joining) && k < |members| && members[k] == b && b !in joining
      modifies this`members, this`nMembers, b`group, b`suspended, b`running
      ensures Valid(joining) && members == Without(old(members), k)
      ensures b.group == null && b.Sound()
      ensures b.suspended == Released(old(b.suspended))
      ensures BWGroup !in b.suspended.read && BWGroup !in b.suspended.write
    {
      Unlink(b, k, joining);
      b.Unsuspend(Read, BWGroup);
      b.Unsuspend(Write, BWGroup);
    }

    /** The share of a member; one that had been missed when the group was suspended is suspended now. */
    method ShareOf(b: Bufferevent, dir: Dir, ghost joining: map<Bufferevent, Both<bool>>) returns (share: int)
      requires Valid(joining) && b in members
      modifies b`suspended, b`running
      ensures Valid(joining)
      ensures share == if suspended.At(dir) then 0 else Share(rateLimit.limit.At(dir), |members|, minShare)
      ensures b.suspended == if suspended.At(dir) then old(b.suspended).With(dir, old(b.suspended).At(dir) + {BWGroup}) else old(b.suspended)
    {
      if suspended.At(dir) {
        b.Suspend(dir, BWGroup);
        share := 0;
      } else {
        share := Truncated(rateLimit.limit.At(dir), nMembers);
        if share < minShare {
          share := minShare;
        }
      }
    }

    /**
     * _bufferevent_get_rlim_max of a member: the smaller of its own limit and its share. The shares
     * of all members together fit in the group's limit, unless they have been raised to min_share.
     */
    method GetRlimMax(b: Bufferevent, dir: Dir, now: tick, ghost joining: map<Bufferevent, Both<bool>>) returns (r: int)
      requires Valid(joining) && b in members
      modifies b`limit, b`suspended, b`running
      ensures Valid(joining) && b.limit == (if b.cfg == null then old(b.limit) else Refilled(old(b.limit), b.cfg, now))
      ensures var own := if b.cfg == null then MAX_TO_TRANSFER_EVER else b.limit.limit.At(dir);
        r == if suspended.At(dir) then 0 else Max(0, Min(own, Share(rateLimit.limit.At(dir), |members|, minShare)))
      ensures r <= minShare || r * |members| <= rateLimit.limit.At(dir)
      ensures b.suspended == if suspended.At(dir) then old(b.suspended).With(dir, old(b.suspended).At(dir) + {BWGroup}) else old(b.suspended)
    {
      r := b.OwnLimit(dir, now);
      var share := ShareOf(b, dir, joining);
      if !suspended.At(dir) {
        SharesFit(rateLimit.limit.At(dir), |members|, minShare, r);
      }
      if r > share {
        r := share;
      }
      if r < 0 {
        r := 0;
      }
    }
  }

  /** A direction of a group is suspended and n ticks do not bring its limit up to min_share. */
  predicate StillSuspended(suspended: Both<bool>, b: Bucket, cfg: Cfg, minShare: nat, dir: Dir, n: nat) {
    suspended.At(dir) && (n == 0 || b.limit.At(dir) + n * cfg.rate.At(dir) < minShare)
  }

  /** On one of the first n ticks the direction was not, or no longer, suspended and the member's lock was free. */
  ghost predicate Reached(b: Bufferevent, busy: seq<set<Bufferevent>>, n: nat, suspended: Both<bool>, bucket: Bucket, cfg: Cfg,
                          minShare: nat, dir: Dir)
    requires n <= |busy|
  {
    exists k :: 0 <= k < n && b !in busy[k] && !StillSuspended(suspended, bucket, cfg, minShare, dir, k + 1)
  }

  lemma OneTickMore(suspended: Both<bool>, b: Bucket, cfg: Cfg, minShare: nat, n: nat)
    requires cfg.Sane() && UnderMax(b, cfg) && minShare <= cfg.rate.read && minShare <= cfg.rate.write
    ensures forall dir: Dir :: var grown := Grown(b.limit.At(dir), cfg.maximum.At(dir), cfg.rate.At(dir), n);
      var next := Grown(grown, cfg.maximum.At(dir), cfg.rate.At(dir), 1);
      && next == Grown(b.limit.At(dir), cfg.maximum.At(dir), cfg.rate.At(dir), n + 1)
      && (StillSuspended(suspended, b, cfg, minShare, dir, n + 1)
          <==> StillSuspended(suspended, b, cfg, minShare, dir, n) && next < minShare)
  {
    forall dir: Dir
      ensures var grown := Grown(b.limit.At(dir), cfg.maximum.At(dir), cfg.rate.At(dir), n);
        var next := Grown(grown, cfg.maximum.At(dir), cfg.rate.At(dir), 1);
        && next == Grown(b.limit.At(dir), cfg.maximum.At(dir), cfg.rate.At(dir), n + 1)
        && (StillSuspended(suspended, b, cfg, minShare, dir, n + 1)
            <==> StillSuspended(suspended, b, cfg, minShare, dir, n) && next < minShare)
    {
      GrownTwice(b.limit.At(dir), cfg.maximum.At(dir), cfg.rate.At(dir), n, 1);
      Spread(n, 1, cfg.rate.At(dir));
    }
  }

  /** No group stays suspended for more ticks than its limit is short of min_share. */
  lemma ResumesWithin(suspended: Both<bool>, b: Bucket, cfg: Cfg, minShare: nat, dir: Dir, n: nat)
    requires cfg.Sane() && n > 0 && n >= minShare - b.limit.At(dir)
    ensures !StillSuspended(suspended, b, cfg, minShare, dir, n)
  {
    assert n * cfg.rate.At(dir) == n + n * (cfg.rate.At(dir) - 1);
  }

  /** What a member of a group of n may take. */
  function Share(limit: int, n: nat, minShare: nat): int
    requires n > 0
  {
    Max(minShare, Truncated(limit, n))
  }

  /** It is min_share, or the most that all n members can have of a limit. */
  lemma ShareMeans(limit: int, n: nat, minShare: nat)
    requires n > 0
    ensures var share := Share(limit, n, minShare);
      && share >= minShare && (share == minShare || share * n <= limit)
      && limit < (share + 1) * n
  {
    var share := Share(limit, n, minShare);
    if limit >= 0 {
      var q := limit / n;
      assert limit == n * q + limit % n;
      assert q <= share;
      Scaled(n, share - q);
      assert (share + 1) * n == n * (share - q) + n * q + n;
    } else {
      assert (share + 1) * n == share * n + n;
    }
  }

  lemma SharesFit(limit: int, n: nat, minShare: nat, own: int)
    requires n > 0
    ensures var r := Max(0, Min(own, Share(limit, n, minShare)));
      r <= minShare || r * n <= limit
  {
    var r := Max(0, Min(own, Share(limit, n, minShare)));
    if r > minShare {
      var q := limit / n;
      assert 0 < r <= q;
      Scaled(n, q - r);
      assert n * q == n * (q - r) + n * r;
    }
  }

  /** Division of C, which rounds towards zero. */
  function Truncated(a: int, n: int): int
    requires n > 0
  {
    if a >= 0 then a / n else -(-a / n)
  }
}
