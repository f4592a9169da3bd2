/** What the plain values of a rate-limited group promise, said without the functions that compute them. */
module RateLimitLaws {
  import opened TokenBucket
  import opened Directions
  import opened Lists
  import opened RateLimitModel

  /** min_share is what was asked for, cut to the smaller rate. */
  lemma LeastShareMeans(share: nat, cfg: Cfg)
    ensures var least := LeastShare(share, cfg);
      && least <= share && least <= cfg.rate.read && least <= cfg.rate.write
      && (least == share || least == cfg.rate.read || least == cfg.rate.write)
  {
  }

  /** A bucket begins with the bytes of one tick; one that is there already is cut to its maximum and no more. */
  lemma BegunMeans(b: Bucket, cfg: Cfg, now: tick, dir: Dir)
    requires cfg.Sane()
    ensures var begun := Begun(b, false, cfg, now);
      begun.limit.At(dir) == cfg.rate.At(dir) && begun.lastUpdated == now
    ensures var kept := Begun(b, true, cfg, now);
      && kept.limit.At(dir) <= b.limit.At(dir) && kept.limit.At(dir) <= cfg.maximum.At(dir)
      && (kept.limit.At(dir) == b.limit.At(dir) || kept.limit.At(dir) == cfg.maximum.At(dir))
      && kept.lastUpdated == b.lastUpdated
  {
  }

  /** A transfer that can be made. */
  ghost predicate CanMove<B>(w: World<B>, b: B, dir: Dir, bytes: nat) {
    Free(w, b) && CanPay(w.ones[b].limit, dir, bytes) && CanPay(w.grp.bucket, dir, bytes)
  }

  /** Who transfers pays from its own bucket, and is suspended exactly when that is empty; nobody else's bucket pays. */
  lemma MovePays<B>(w: World<B>, b: B, dir: Dir, bytes: nat, random: nat, busy: set<B>)
    requires CanMove(w, b, dir, bytes)
    ensures var next := Step(w, Move(b, dir, bytes, random, busy));
      && next.ones.Keys == w.ones.Keys
      && next.ones[b].limit.limit.At(dir) == w.ones[b].limit.limit.At(dir) - (if w.ones[b].cfg == null then 0 else bytes)
      && next.ones[b].limit.limit.At(Other(dir)) == w.ones[b].limit.limit.At(Other(dir))
      && (w.ones[b].cfg != null ==>
            (BW in next.ones[b].suspended.At(dir) <==> w.ones[b].limit.limit.At(dir) - bytes <= 0))
      && forall x :: x in w.ones && x != b ==> next.ones[x].limit == w.ones[x].limit
  {
  }

  /** A transfer of a member suspends the group exactly when it empties its bucket, and otherwise lets it go on. */
  lemma MoveSuspends<B>(w: World<B>, b: B, dir: Dir, bytes: nat, random: nat, busy: set<B>)
    requires CanMove(w, b, dir, bytes) && b in w.members
    ensures var next := Step(w, Move(b, dir, bytes, random, busy));
      && next.grp.bucket.limit.At(dir) == w.grp.bucket.limit.At(dir) - bytes
      && next.grp.bucket.limit.At(Other(dir)) == w.grp.bucket.limit.At(Other(dir))
      && (next.grp.suspended.At(dir) <==> w.grp.bucket.limit.At(dir) - bytes <= 0)
      && (next.grp.suspended.At(Other(dir)) <==> w.grp.suspended.At(Other(dir)))
  {
  }

  /** The member that transfers is told in any case: its thread holds the lock. */
  lemma MoverTold<B>(w: World<B>, b: B, dir: Dir, bytes: nat, random: nat, busy: set<B>)
    requires CanMove(w, b, dir, bytes) && b in w.members
    ensures var next := Step(w, Move(b, dir, bytes, random, busy));
      && (next.grp.suspended.At(dir) ==> BWGroup in next.ones[b].suspended.At(dir))
      && (w.grp.suspended.At(dir) && !next.grp.suspended.At(dir) ==> BWGroup !in next.ones[b].suspended.At(dir))
  {
    var own := w.(ones := w.ones[b := OnePaid(w.ones[b], dir, bytes)]);
    assert Told(own, b, busy - {b});
    OtherFlags(own.ones[b].suspended, dir, BWGroup, Step(w, Move(b, dir, bytes, random, busy)).grp.suspended.At(dir), dir, BWGroup);
  }

  /** A transfer of anybody else leaves the group alone. */
  lemma MoveOutside<B>(w: World<B>, b: B, dir: Dir, bytes: nat, random: nat, busy: set<B>)
    requires b !in w.members
    ensures Step(w, Move(b, dir, bytes, random, busy)).grp == w.grp
  {
  }

  /**
   * The members whose locks are free are told when the group is suspended, and when it goes on; the
   * others keep the flag they have, and the group remembers that when it goes on.
   */
  lemma MoveTells<B>(w: World<B>, b: B, dir: Dir, bytes: nat, random: nat, busy: set<B>, x: B)
    requires CanMove(w, b, dir, bytes) && b in w.members && x in w.members && x in w.ones && x != b
    ensures var next := Step(w, Move(b, dir, bytes, random, busy));
      var was, now := w.grp.suspended.At(dir), next.grp.suspended.At(dir);
      && (x !in busy && x !in w.joining && now ==> BWGroup in next.ones[x].suspended.At(dir))
      && (x !in busy && x !in w.joining && was && !now ==> BWGroup !in next.ones[x].suspended.At(dir))
      && (x in busy || x in w.joining || was == now == false ==> next.ones[x] == w.ones[x])
      && ((x in busy || x in w.joining) && was && !now ==> next.grp.pending.At(dir))
  {
    var next := Step(w, Move(b, dir, bytes, random, busy));
    var own := w.(ones := w.ones[b := OnePaid(w.ones[b], dir, bytes)]);
    var now := next.grp.suspended.At(dir);
    assert Told(own, x, busy - {b}) <==> x !in busy && x !in w.joining;
    OtherFlags(w.ones[x].suspended, dir, BWGroup, now, dir, BWGroup);
    if x in busy || x in w.joining {
      assert x in own.members && (x in busy - {b} || x in own.joining);
      assert SomeMissed(own, busy - {b});
    }
  }

  /** A group that goes on has bytes left, as long as min_share is not 0. */
  ghost predicate Solvent<B>(w: World<B>) {
    && w.cfg.Sane() && UnderMax(w.grp.bucket, w.cfg) && 1 <= w.asked <= SSIZE_MAX && w.minShare == LeastShare(w.asked, w.cfg)
    && SolventAt(w.grp, Read) && SolventAt(w.grp, Write)
  }

  predicate SolventAt(g: Grp, dir: Dir) {
    && (g.pending.At(dir) ==> !g.suspended.At(dir))
    && (!g.suspended.At(dir) ==> g.bucket.limit.At(dir) > 0)
  }

  lemma TimerSolvent<B>(w: World<B>, now: tick, busy: set<B>)
    requires Solvent(w)
    ensures Solvent(StepTimer(w, now, busy))
  {
    var next := StepTimer(w, now, busy);
    LeastShareMeans(w.asked, w.cfg);
    forall dir: Dir
      ensures SolventAt(next.grp, dir)
    {
      assert SolventAt(w.grp, Read) && SolventAt(w.grp, Write);
      TimerMeans(w.grp, w.cfg, w.minShare, now, SomeMissed(w, busy), Both({}, {}), dir);
    }
  }

  lemma MoveSolvent<B>(w: World<B>, b: B, dir: Dir, bytes: nat, busy: set<B>)
    requires Solvent(w)
    ensures Solvent(StepMove(w, b, dir, bytes, busy))
  {
    var next := StepMove(w, b, dir, bytes, busy);
    if CanMove(w, b, dir, bytes) && b in w.members {
      MoveSuspends(w, b, dir, bytes, 0, busy);
      assert next == Step(w, Move(b, dir, bytes, 0, busy));
      assert SolventAt(w.grp, dir) && SolventAt(w.grp, Other(dir));
      assert SolventAt(next.grp, dir) && SolventAt(next.grp, Other(dir));
    }
  }

  lemma StepSolvent<B>(w: World<B>, call: Call<B>)
    requires Solvent(w) && (call.AskShare? ==> call.share >= 1)
    ensures Solvent(Step(w, call))
  {
    match call {
      case Move(b, dir, bytes, random, busy) => MoveSolvent(w, b, dir, bytes, busy);
      case GroupTimer(now, random, busy) => TimerSolvent(w, now, busy);
      case _ =>
    }
  }

  /** In every run that never asks for a min_share of 0 a direction of the group that is not suspended has bytes left. */
  lemma {:induction false} RunSolvent<B>(w: World<B>, calls: seq<Call<B>>, dir: Dir)
    requires Solvent(w) && forall i :: 0 <= i < |calls| && calls[i].AskShare? ==> calls[i].share >= 1
    ensures Solvent(Ran(w, calls))
    ensures !Ran(w, calls).grp.suspended.At(dir) ==> Ran(w, calls).grp.bucket.limit.At(dir) > 0
  {
    if calls != [] {
      var n := |calls| - 1;
      RunSolvent(w, calls[..n], dir);
      StepSolvent(Ran(w, calls[..n]), calls[n]);
    }
    assert SolventAt(Ran(w, calls).grp, Read) && SolventAt(Ran(w, calls).grp, Write);
  }

  /** With a min_share of 0 the timer lets a group go on that has nothing left. */
  lemma GoesOnWithNothing(cfg: Cfg)
    requires cfg.rate == Both(1, 1) && cfg.maximum == Both(1, 1)
    ensures var g := BothResumed(Grp(Both(true, false), Both(false, false), Bucket(Both(-1, 1), 0)), cfg, 0, 1, false);
      !g.suspended.read && g.bucket.limit.read == 0
  {
    assert Ticks(0, 1) == 1;
  }
}
