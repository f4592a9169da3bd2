/** Rate-limited bufferevents and their group as plain values: what calls and timers do to flags and limits. */
module RateLimitModel {
  import opened TokenBucket
  import opened Directions
  import opened Lists

  /** The reasons for which a transport can be suspended. */
  datatype Flag = WM | BW | BWGroup | Lookup | FiltRead

  function Max(a: int, b: int): int {
    if a < b then b else a
  }

  function Other(dir: Dir): Dir {
    match dir case Read => Write case Write => Read
  }

  /** One flag of one direction is set or cleared. */
  function Flagged(flags: Both<set<Flag>>, dir: Dir, what: Flag, on: bool): Both<set<Flag>> {
    flags.With(dir, if on then flags.At(dir) + {what} else flags.At(dir) - {what})
  }

  lemma FlagStays(flags: Both<set<Flag>>, dir: Dir, what: Flag, on: bool)
    requires what in flags.At(dir) <==> on
    ensures Flagged(flags, dir, what, on) == flags
  {
    assert Flagged(flags, dir, what, on).At(dir) == flags.At(dir);
  }

  /** The timer clears the flags of the directions in which there is bandwidth. */
  function Woken(flags: Both<set<Flag>>, limit: Bucket): Both<set<Flag>> {
    var read := if limit.limit.read > 0 then Flagged(flags, Read, BW, false) else flags;
    if limit.limit.write > 0 then Flagged(read, Write, BW, false) else read
  }

  /** A bucket under a new configuration: clipped if there was one before, else with the bytes of one tick. */
  function Begun(b: Bucket, reinitialize: bool, cfg: Cfg, now: tick): Bucket
    requires cfg.Sane()
  {
    if reinitialize then Bucket(Both(Min(b.limit.read, cfg.maximum.read), Min(b.limit.write, cfg.maximum.write)), b.lastUpdated)
    else Bucket(Both(cfg.rate.read, cfg.rate.write), now)
  }

  /** Under a new configuration exactly the directions without bandwidth are suspended for it. */
  function Limited(flags: Both<set<Flag>>, cfg: Cfg?, limit: Bucket): Both<set<Flag>> {
    Flagged(Flagged(flags, Read, BW, cfg != null && limit.limit.read <= 0), Write, BW, cfg != null && limit.limit.write <= 0)
  }

  /** The flags of a member once it has been told whether its group is now suspended, and was before. */
  function Followed(flags: Both<set<Flag>>, dir: Dir, before: bool, now: bool): Both<set<Flag>> {
    if now || before then Flagged(flags, dir, BWGroup, now) else flags
  }

  /** The flags of a bufferevent that leaves the group. */
  function Released(flags: Both<set<Flag>>): Both<set<Flag>> {
    Both(flags.read - {BWGroup}, flags.write - {BWGroup})
  }

  /** The flags of a new member that has seen its group suspended in the directions wanted. */
  function Bound(flags: Both<set<Flag>>, wants: Both<bool>): Both<set<Flag>> {
    Both(if wants.read then flags.read + {BWGroup} else flags.read, if wants.write then flags.write + {BWGroup} else flags.write)
  }

  /** The bytes are taken from one direction of a bucket, if they fit in a word. */
  predicate CanPay(b: Bucket, dir: Dir, bytes: int) {
    -SSIZE_MAX - 1 <= b.limit.At(dir) - bytes <= SSIZE_MAX
  }

  function Paid(b: Bucket, dir: Dir, bytes: int): Bucket
    requires CanPay(b, dir, bytes)
  {
    b.(limit := b.limit.With(dir, b.limit.At(dir) - bytes))
  }

  /** A refill. No limit is above its maximum here. */
  function Topped(b: Bucket, cfg: Cfg, now: tick): Bucket {
    if UnderMax(b, cfg) then Refilled(b, cfg, now) else b
  }

  /** One bufferevent. Its timer is pending exactly when it is suspended for bandwidth. */
  datatype One = One(suspended: Both<set<Flag>>, enabled: Both<bool>, cfg: Cfg?, limit: Bucket)

  /** What happens to one bufferevent by itself. Calls that its state does not admit are left out of a run. */
  datatype OwnCall =
    | Enable(event: Both<bool>)
    | Disable(event: Both<bool>)
    | Suspend(dir: Dir, what: Flag)
    | Unsuspend(dir: Dir, what: Flag)
    | SetRateLimit(cfg: Cfg?, now: tick)
    | DecrementLimit(dir: Dir, decr: int)
    | Timer(now: tick)

  predicate Admits(o: One, call: OwnCall) {
    match call
    case Enable(_) => true
    case Disable(_) => true
    case Suspend(_, what) => what != BW && what != BWGroup
    case Unsuspend(_, what) => what != BW && what != BWGroup
    case SetRateLimit(cfg, _) => cfg == null || cfg.Sane()
    case DecrementLimit(dir, decr) =>
      o.cfg != null && CanPay(o.limit, dir, decr) && o.limit.limit.At(dir) - decr <= o.cfg.maximum.At(dir)
    case Timer(_) => o.cfg != null && (BW in o.suspended.read || BW in o.suspended.write)
  }

  function Owned(o: One, call: OwnCall): One {
    if !Admits(o, call) then o else
    match call
    case Enable(event) => o.(enabled := Both(o.enabled.read || event.read, o.enabled.write || event.write))
    case Disable(event) => o.(enabled := Both(o.enabled.read && !event.read, o.enabled.write && !event.write))
    case Suspend(dir, what) => o.(suspended := Flagged(o.suspended, dir, what, true))
    case Unsuspend(dir, what) => o.(suspended := Flagged(o.suspended, dir, what, false))
    case SetRateLimit(cfg, now) =>
      if cfg == o.cfg then o else
      var limit := if cfg == null then o.limit else Begun(o.limit, o.cfg != null, cfg, now);
      One(Limited(o.suspended, cfg, limit), o.enabled, cfg, limit)
    case DecrementLimit(dir, decr) =>
      var limit := Paid(o.limit, dir, decr);
      var crosses := (o.limit.limit.At(dir) > 0) != (limit.limit.At(dir) > 0);
      One(if crosses then Flagged(o.suspended, dir, BW, limit.limit.At(dir) <= 0) else o.suspended, o.enabled, o.cfg, limit)
    case Timer(now) =>
      var limit := Topped(o.limit, o.cfg, now);
      o.(suspended := Woken(o.suspended, limit), limit := limit)
  }

  /** Its own part of a transfer. */
  function OnePaid(o: One, dir: Dir, bytes: nat): One
    requires CanPay(o.limit, dir, bytes)
  {
    if o.cfg == null then o else
    var limit := Paid(o.limit, dir, bytes);
    o.(suspended := Flagged(o.suspended, dir, BW, limit.limit.At(dir) <= 0), limit := limit)
  }

  /** The group: what it has told its members, whether somebody was missed when told to go on, and its bucket. */
  datatype Grp = Grp(suspended: Both<bool>, pending: Both<bool>, bucket: Bucket)

  function GroupPaid(g: Grp, dir: Dir, bytes: nat, someBusy: bool): Grp
    requires CanPay(g.bucket, dir, bytes)
  {
    var bucket := Paid(g.bucket, dir, bytes);
    var now := bucket.limit.At(dir) <= 0;
    Grp(g.suspended.With(dir, now),
        g.pending.With(dir, if now then false else if g.suspended.At(dir) then someBusy else g.pending.At(dir)), bucket)
  }

  /** Whether the timer tells the members to go on. */
  predicate Retries(g: Grp, dir: Dir, minShare: nat) {
    g.pending.At(dir) || (g.suspended.At(dir) && g.bucket.limit.At(dir) >= minShare)
  }

  /** One half of the group's timer. */
  function Resumed(g: Grp, dir: Dir, minShare: nat, someBusy: bool): Grp {
    if Retries(g, dir, minShare) then Grp(g.suspended.With(dir, false), g.pending.With(dir, someBusy), g.bucket) else g
  }

  /** The share that is left of the one asked for. */
  function LeastShare(share: nat, cfg: Cfg): nat {
    Min(Min(share, cfg.rate.read), cfg.rate.write)
  }

  /** The group's timer. */
  function BothResumed(g: Grp, cfg: Cfg, minShare: nat, now: tick, someBusy: bool): Grp {
    var full := g.(bucket := Topped(g.bucket, cfg, now));
    Resumed(Resumed(full, Read, minShare, someBusy), Write, minShare, someBusy)
  }

  /** What it does to a member that can be told. */
  function Freed(flags: Both<set<Flag>>, g: Grp, cfg: Cfg, minShare: nat, now: tick): Both<set<Flag>> {
    var full := g.(bucket := Topped(g.bucket, cfg, now));
    var read := if Retries(full, Read, minShare) then Flagged(flags, Read, BWGroup, false) else flags;
    if Retries(full, Write, minShare) then Flagged(read, Write, BWGroup, false) else read
  }

  /** A direction is resumed exactly when it was suspended and the limit is up to the share; so are the members, and those missed before. */
  lemma TimerMeans(g: Grp, cfg: Cfg, minShare: nat, now: tick, someBusy: bool, flags: Both<set<Flag>>, dir: Dir)
    requires g.pending.At(dir) ==> !g.suspended.At(dir)
    ensures var r := BothResumed(g, cfg, minShare, now, someBusy);
      && r.bucket == Topped(g.bucket, cfg, now)
      && (r.suspended.At(dir) <==> g.suspended.At(dir) && r.bucket.limit.At(dir) < minShare)
      && (r.pending.At(dir) <==> someBusy && (g.pending.At(dir) || (g.suspended.At(dir) && !r.suspended.At(dir))))
      && Freed(flags, g, cfg, minShare, now).At(dir)
         == if g.pending.At(dir) || (g.suspended.At(dir) && !r.suspended.At(dir)) then flags.At(dir) - {BWGroup} else flags.At(dir)
  {
  }

  /** All bufferevents, the group, and what the bufferevents that are joining it have seen. */
  datatype World<B> = World(ones: map<B, One>, members: seq<B>, grp: Grp, cfg: Cfg, minShare: nat, asked: nat,
                            joining: map<B, Both<bool>>)

  /** A step of some thread or timer; `busy` are the bufferevents whose locks others then hold. */
  datatype Call<B> =
    | OnOne(b: B, own: OwnCall)
    | Move(b: B, dir: Dir, bytes: nat, random: nat, busy: set<B>)
    | GetMax(b: B, dir: Dir, now: tick)
    | Join(b: B)
    | Joined(b: B)
    | Leave(b: B)
    | GroupTimer(now: tick, random: nat, busy: set<B>)
    | Configure(cfg: Cfg)
    | AskShare(share: nat)

  /** Nobody is in the middle of a step with the bufferevent. */
  predicate Free<B>(w: World<B>, b: B) {
    b in w.ones && b !in w.joining
  }

  /** A member that can be told something. */
  predicate Told<B>(w: World<B>, b: B, busy: set<B>) {
    b in w.members && b !in busy && b !in w.joining
  }

  ghost predicate SomeMissed<B>(w: World<B>, busy: set<B>) {
    exists b :: b in w.members && (b in busy || b in w.joining)
  }

  /** The members that can be told follow the group. */
  ghost function Following<B>(w: World<B>, dir: Dir, before: bool, now: bool, busy: set<B>): map<B, One> {
    map b | b in w.ones ::
      if Told(w, b, busy) then w.ones[b].(suspended := Followed(w.ones[b].suspended, dir, before, now)) else w.ones[b]
  }

  /** A transfer, as far as the group goes. */
  ghost function AllPaid<B>(w: World<B>, dir: Dir, bytes: nat, busy: set<B>): World<B>
    requires CanPay(w.grp.bucket, dir, bytes)
  {
    var grp := GroupPaid(w.grp, dir, bytes, SomeMissed(w, busy));
    w.(ones := Following(w, dir, w.grp.suspended.At(dir), grp.suspended.At(dir), busy), grp := grp)
  }

  /** The group's timer, as far as the members that can be told go. */
  ghost function AllFreed<B>(w: World<B>, now: tick, busy: set<B>): map<B, One> {
    map b | b in w.ones ::
      if Told(w, b, busy) then w.ones[b].(suspended := Freed(w.ones[b].suspended, w.grp, w.cfg, w.minShare, now)) else w.ones[b]
  }

  /** A member is told what it may move; one that had been missed is suspended. */
  function Asked(o: One, dir: Dir, groupSuspended: bool, now: tick): One {
    o.(suspended := if groupSuspended then Flagged(o.suspended, dir, BWGroup, true) else o.suspended,
       limit := if o.cfg == null then o.limit else Topped(o.limit, o.cfg, now))
  }

  ghost function StepOwn<B>(w: World<B>, b: B, own: OwnCall): World<B> {
    if Free(w, b) then w.(ones := w.ones[b := Owned(w.ones[b], own)]) else w
  }

  ghost function StepMove<B>(w: World<B>, b: B, dir: Dir, bytes: nat, busy: set<B>): World<B> {
    if Free(w, b) && CanPay(w.ones[b].limit, dir, bytes) && CanPay(w.grp.bucket, dir, bytes) then
      var own := w.(ones := w.ones[b := OnePaid(w.ones[b], dir, bytes)]);
      if b in w.members then AllPaid(own, dir, bytes, busy - {b}) else own
    else w
  }

  ghost function StepAsk<B>(w: World<B>, b: B, dir: Dir, now: tick): World<B> {
    if Free(w, b) && b in w.members then w.(ones := w.ones[b := Asked(w.ones[b], dir, w.grp.suspended.At(dir), now)]) else w
  }

  ghost function StepJoin<B>(w: World<B>, b: B): World<B> {
    if Free(w, b) && b !in w.members then w.(members := w.members + [b], joining := w.joining[b := w.grp.suspended]) else w
  }

  ghost function StepJoined<B>(w: World<B>, b: B): World<B> {
    if b in w.ones && b in w.joining then
      w.(ones := w.ones[b := w.ones[b].(suspended := Bound(w.ones[b].suspended, w.joining[b]))], joining := w.joining - {b})
    else w
  }

  ghost function StepLeave<B>(w: World<B>, b: B): World<B> {
    if Free(w, b) && b in w.members then
      w.(members := Minus(w.members, b), ones := w.ones[b := w.ones[b].(suspended := Released(w.ones[b].suspended))])
    else w
  }

  ghost function StepTimer<B>(w: World<B>, now: tick, busy: set<B>): World<B> {
    w.(ones := AllFreed(w, now, busy), grp := BothResumed(w.grp, w.cfg, w.minShare, now, SomeMissed(w, busy)))
  }

  ghost function StepConfigure<B>(w: World<B>, cfg: Cfg): World<B> {
    if cfg.Sane() then
      w.(cfg := cfg, minShare := LeastShare(w.asked, cfg), grp := w.grp.(bucket := Begun(w.grp.bucket, true, cfg, 0)))
    else w
  }

  ghost function StepShare<B>(w: World<B>, share: nat): World<B> {
    if share <= SSIZE_MAX then w.(asked := share, minShare := LeastShare(share, w.cfg)) else w
  }

  ghost function Step<B>(w: World<B>, call: Call<B>): World<B> {
    match call
    case OnOne(b, own) => StepOwn(w, b, own)
    case Move(b, dir, bytes, _, busy) => StepMove(w, b, dir, bytes, busy)
    case GetMax(b, dir, now) => StepAsk(w, b, dir, now)
    case Join(b) => StepJoin(w, b)
    case Joined(b) => StepJoined(w, b)
    case Leave(b) => StepLeave(w, b)
    case GroupTimer(now, _, busy) => StepTimer(w, now, busy)
    case Configure(cfg) => StepConfigure(w, cfg)
    case AskShare(share) => StepShare(w, share)
  }

  /** A run of calls. Random orders play no part in it. */
  ghost function Ran<B>(w: World<B>, calls: seq<Call<B>>): World<B> {
    if calls == [] then w else Step(Ran(w, calls[..|calls| - 1]), calls[|calls| - 1])
  }

  /** A member, and nobody else, carries the group's flag exactly while it is suspended. */
  predicate FollowsAt<B>(w: World<B>, b: B, dir: Dir)
    requires b in w.ones
  {
    BWGroup in w.ones[b].suspended.At(dir) <==> b in w.members && w.grp.suspended.At(dir)
  }

  /** Nobody is joining or has been missed, and everybody's flags agree with the group. */
  ghost predicate Follows<B>(w: World<B>) {
    && w.joining == map[] && w.grp.pending == Both(false, false)
    && (forall b :: b in w.members ==> b in w.ones)
    && forall b, dir: Dir :: b in w.ones ==> FollowsAt(w, b, dir)
  }

  /** Every lock can be taken during the call. */
  predicate Undisturbed<B>(call: Call<B>) {
    (call.Move? || call.GroupTimer? ==> call.busy == {}) && !call.Join? && !call.Joined?
  }

  lemma OwnKeepsGroupFlag(o: One, call: OwnCall, dir: Dir)
    ensures BWGroup in Owned(o, call).suspended.At(dir) <==> BWGroup in o.suspended.At(dir)
  {
  }

  /** Setting one flag leaves the others alone. */
  lemma OtherFlags(flags: Both<set<Flag>>, dir: Dir, what: Flag, on: bool, d: Dir, f: Flag)
    ensures f in Flagged(flags, dir, what, on).At(d) <==> if f == what && d == dir then on else f in flags.At(d)
  {
  }

  lemma PaidFollows<B>(w: World<B>, b: B, dir: Dir, bytes: nat)
    requires Follows(w) && b in w.ones && CanPay(w.ones[b].limit, dir, bytes)
    ensures Follows(w.(ones := w.ones[b := OnePaid(w.ones[b], dir, bytes)]))
  {
    var o := OnePaid(w.ones[b], dir, bytes);
    var next := w.(ones := w.ones[b := o]);
    forall x, d: Dir | x in w.ones
      ensures FollowsAt(next, x, d)
    {
      assert FollowsAt(w, x, d);
      OtherFlags(w.ones[b].suspended, dir, BW, o.limit.limit.At(dir) <= 0, d, BWGroup);
    }
  }

  lemma MoveFollows<B>(w: World<B>, b: B, dir: Dir, bytes: nat)
    requires Follows(w)
    ensures Follows(StepMove(w, b, dir, bytes, {}))
  {
    var next := StepMove(w, b, dir, bytes, {});
    if next != w {
      var own := w.(ones := w.ones[b := OnePaid(w.ones[b], dir, bytes)]);
      PaidFollows(w, b, dir, bytes);
      if b in w.members {
        assert next == AllPaid(own, dir, bytes, {} - {b});
        forall x, d: Dir | x in w.ones
          ensures FollowsAt(next, x, d)
        {
          assert FollowsAt(own, x, d) && (Told(own, x, {} - {b}) <==> x in w.members);
          OtherFlags(own.ones[x].suspended, dir, BWGroup, next.grp.suspended.At(dir), d, BWGroup);
        }
      }
    }
  }

  lemma TimerFollows<B>(w: World<B>, now: tick)
    requires Follows(w)
    ensures Follows(StepTimer(w, now, {}))
  {
    forall b, dir: Dir | b in w.ones
      ensures FollowsAt(StepTimer(w, now, {}), b, dir)
    {
      assert FollowsAt(w, b, dir) && (Told(w, b, {}) <==> b in w.members);
      TimerMeans(w.grp, w.cfg, w.minShare, now, SomeMissed(w, {}), w.ones[b].suspended, dir);
    }
  }

  lemma LeaveFollows<B>(w: World<B>, b: B)
    requires Follows(w)
    ensures Follows(StepLeave(w, b))
  {
    var next := StepLeave(w, b);
    forall x | x in next.members
      ensures x in next.ones
    {
      MinusAt(w.members, b, x);
    }
    forall x, d: Dir | x in w.ones
      ensures FollowsAt(next, x, d)
    {
      assert FollowsAt(w, x, d);
      MinusAt(w.members, b, x);
    }
  }

  lemma OwnFollows<B>(w: World<B>, b: B, own: OwnCall)
    requires Follows(w)
    ensures Follows(StepOwn(w, b, own))
  {
    var next := StepOwn(w, b, own);
    forall x, d: Dir | x in w.ones
      ensures FollowsAt(next, x, d)
    {
      assert FollowsAt(w, x, d);
      OwnKeepsGroupFlag(w.ones[x], own, d);
    }
  }

  lemma AskFollows<B>(w: World<B>, b: B, dir: Dir, now: tick)
    requires Follows(w)
    ensures Follows(StepAsk(w, b, dir, now))
  {
    var next := StepAsk(w, b, dir, now);
    forall x, d: Dir | x in w.ones
      ensures FollowsAt(next, x, d)
    {
      assert FollowsAt(w, x, d) && FollowsAt(w, x, dir);
      OtherFlags(w.ones[x].suspended, dir, BWGroup, true, d, BWGroup);
    }
  }

  lemma StepFollows<B>(w: World<B>, call: Call<B>)
    requires Follows(w) && Undisturbed(call)
    ensures Follows(Step(w, call))
  {
    match call {
      case OnOne(b, own) => OwnFollows(w, b, own);
      case Move(b, dir, bytes, random, busy) => MoveFollows(w, b, dir, bytes);
      case GetMax(b, dir, now) => AskFollows(w, b, dir, now);
      case Leave(b) => LeaveFollows(w, b);
      case GroupTimer(now, random, busy) => TimerFollows(w, now);
      case Configure(cfg) => SameFollows(w, Step(w, call));
      case AskShare(share) => SameFollows(w, Step(w, call));
      case _ =>
    }
  }

  /** Whoever changes no flag and no member. */
  lemma SameFollows<B>(w: World<B>, next: World<B>)
    requires Follows(w) && next.ones == w.ones && next.members == w.members && next.joining == w.joining
    requires next.grp.suspended == w.grp.suspended && next.grp.pending == w.grp.pending
    ensures Follows(next)
  {
    forall x, d: Dir | x in w.ones
      ensures FollowsAt(next, x, d)
    {
      assert FollowsAt(w, x, d);
    }
  }

  /** A bufferevent joins, and nothing happens in between. */
  lemma JoinFollows<B>(w: World<B>, b: B)
    requires Follows(w)
    ensures Follows(StepJoined(StepJoin(w, b), b))
  {
    if Free(w, b) && b !in w.members {
      var next := StepJoined(StepJoin(w, b), b);
      assert next.joining == map[];
      forall x, d: Dir | x in w.ones
        ensures FollowsAt(next, x, d)
      {
        assert FollowsAt(w, x, d);
      }
    }
  }

  /** A run in which every lock can be taken, and joining is not interrupted. */
  predicate Prompt<B(==)>(calls: seq<Call<B>>) {
    var n := |calls| - 1;
    if calls == [] then true
    else if calls[n].Joined? then n > 0 && calls[n - 1] == Join(calls[n].b) && Prompt(calls[..n - 1])
    else Undisturbed(calls[n]) && Prompt(calls[..n])
  }

  /** In such a run the flags of all bufferevents agree with the group all the time. */
  lemma {:induction false} RunFollows<B>(w: World<B>, calls: seq<Call<B>>)
    requires Follows(w) && Prompt(calls)
    ensures Follows(Ran(w, calls))
  {
    var n := |calls| - 1;
    if calls != [] {
      if calls[n].Joined? {
        RunFollows(w, calls[..n - 1]);
        assert calls[..n][..n - 1] == calls[..n - 1];
        JoinFollows(Ran(w, calls[..n - 1]), calls[n].b);
      } else {
        RunFollows(w, calls[..n]);
        StepFollows(Ran(w, calls[..n]), calls[n]);
      }
    }
  }
}
