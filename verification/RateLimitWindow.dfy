/** How many bytes a limited bufferevent outside any group can move. */
module RateLimitWindow {
  import opened TokenBucket
  import opened Directions
  import opened RateLimitModel
  import opened RateLimit

  /** The limit after a run. */
  ghost function LimitAfter(limit: ssize, maximum: nat, rate: nat, run: seq<Transfer>): (r: ssize)
    requires limit <= maximum <= SSIZE_MAX && Allowed(limit, maximum, rate, run)
    ensures r <= maximum
    decreases |run|
  {
    if run == [] then limit
    else LimitAfter(Grown(limit, maximum, rate, run[0].gap) - run[0].bytes, maximum, rate, run[1..])
  }

  /** One transfer more. */
  lemma {:induction false} AllowedSnoc(limit: ssize, maximum: nat, rate: nat, run: seq<Transfer>, t: Transfer)
    requires limit <= maximum <= SSIZE_MAX && Allowed(limit, maximum, rate, run)
    requires t.bytes > 0 ==> t.bytes <= Grown(LimitAfter(limit, maximum, rate, run), maximum, rate, t.gap)
    ensures Allowed(limit, maximum, rate, run + [t])
    ensures LimitAfter(limit, maximum, rate, run + [t]) == Grown(LimitAfter(limit, maximum, rate, run), maximum, rate, t.gap) - t.bytes
    decreases |run|
  {
    var all := run + [t];
    if run == [] {
      assert all[1..] == [];
    } else {
      assert all[0] == run[0] && all[1..] == run[1..] + [t];
      AllowedSnoc(Grown(limit, maximum, rate, run[0].gap) - run[0].bytes, maximum, rate, run[1..], t);
    }
  }

  lemma {:induction false} AllowedPrefix(limit: ssize, maximum: nat, rate: nat, run: seq<Transfer>, n: nat)
    requires limit <= maximum <= SSIZE_MAX && Allowed(limit, maximum, rate, run) && n <= |run|
    ensures Allowed(limit, maximum, rate, run[..n])
    decreases |run|
  {
    if n > 0 {
      assert run[..n][1..] == run[1..][..n - 1];
      AllowedPrefix(Grown(limit, maximum, rate, run[0].gap) - run[0].bytes, maximum, rate, run[1..], n - 1);
    }
  }

  lemma SliceBehind(run: seq<Transfer>, lo: nat, hi: nat)
    requires 0 < lo <= hi <= |run|
    ensures run[1..][lo - 1..hi - 1] == run[lo..hi]
  {
    var a, b := run[1..][lo - 1..hi - 1], run[lo..hi];
    assert |a| == |b| && forall k :: 0 <= k < |a| ==> a[k] == b[k];
  }

  /** In any window of a run no more gets through than the burst, and the rate for each tick of the window. */
  lemma {:induction false} AnyWindow(limit: ssize, maximum: nat, rate: nat, run: seq<Transfer>, lo: nat, hi: nat)
    requires limit <= maximum <= SSIZE_MAX && Allowed(limit, maximum, rate, run) && lo < hi <= |run|
    ensures Bytes(run[lo..hi]) <= maximum + Elapsed(run[lo + 1..hi]) * rate
    decreases |run|
  {
    if lo == 0 {
      AllowedPrefix(limit, maximum, rate, run, hi);
      WindowBound(limit, maximum, rate, run[..hi]);
      assert run[..hi][1..] == run[lo + 1..hi] && run[..hi] == run[lo..hi];
    } else {
      AnyWindow(Grown(limit, maximum, rate, run[0].gap) - run[0].bytes, maximum, rate, run[1..], lo - 1, hi - 1);
      SliceBehind(run, lo, hi);
      SliceBehind(run, lo + 1, hi);
    }
  }

  /** Every transfer is as large as the caller would like it, or as large as the limit then allows. */
  ghost predicate Greedy(limit: ssize, maximum: nat, rate: nat, run: seq<Transfer>, wants: seq<nat>)
    requires limit <= maximum <= SSIZE_MAX && Allowed(limit, maximum, rate, run) && |run| == |wants|
    decreases |run|
  {
    run == [] ||
    var l := Grown(limit, maximum, rate, run[0].gap);
    run[0].bytes == Min(wants[0], Max(0, l)) && Greedy(l - run[0].bytes, maximum, rate, run[1..], wants[1..])
  }

  lemma {:induction false} GreedySnoc(limit: ssize, maximum: nat, rate: nat, run: seq<Transfer>, wants: seq<nat>, t: Transfer, want: nat)
    requires limit <= maximum <= SSIZE_MAX && Allowed(limit, maximum, rate, run) && |run| == |wants|
    requires Greedy(limit, maximum, rate, run, wants)
    requires t.bytes == Min(want, Max(0, Grown(LimitAfter(limit, maximum, rate, run), maximum, rate, t.gap)))
    ensures Allowed(limit, maximum, rate, run + [t]) && Greedy(limit, maximum, rate, run + [t], wants + [want])
    decreases |run|
  {
    AllowedSnoc(limit, maximum, rate, run, t);
    var all := run + [t];
    if run == [] {
      assert all[1..] == [] && (wants + [want])[1..] == [];
    } else {
      assert all[0] == run[0] && all[1..] == run[1..] + [t] && (wants + [want])[1..] == wants[1..] + [want];
      GreedySnoc(Grown(limit, maximum, rate, run[0].gap) - run[0].bytes, maximum, rate, run[1..], wants[1..], t, want);
    }
  }

  /** A refill as far as one direction goes, with the ticks counted without wrapping. */
  lemma RefilledAfter(b: Bucket, cfg: Cfg, dir: Dir, t: nat, gap: nat)
    requires UnderMax(b, cfg) && b.lastUpdated == t % TICKS && gap <= INT_MAX
    ensures var r := Refilled(b, cfg, (t + gap) % TICKS);
      && r.lastUpdated == (t + gap) % TICKS
      && r.limit.At(dir) == Grown(b.limit.At(dir), cfg.maximum.At(dir), cfg.rate.At(dir), gap)
  {
    WrapTells(t, t + gap);
    if gap == 0 {
      assert Ticks(b.lastUpdated, (t + gap) % TICKS) == 0;
    }
  }

  /** A caller that would like to move `want` bytes, `gap` ticks after tick t, and moves at most what it may. */
  method MoveSome(b: Bufferevent, dir: Dir, t: nat, gap: nat, want: nat) returns (bytes: nat)
    requires b.Sound() && b.group == null && b.cfg != null && b.limit.lastUpdated == t % TICKS && gap <= INT_MAX
    modifies b`limit, b`suspended, b`running, b`refillPending
    ensures b.Sound() && b.limit.lastUpdated == (t + gap) % TICKS
    ensures var l := Grown(old(b.limit.limit.At(dir)), b.cfg.maximum.At(dir), b.cfg.rate.At(dir), gap);
      bytes == Min(want, Max(0, l)) && b.limit.limit.At(dir) == l - bytes
  {
    RefilledAfter(b.limit, b.cfg, dir, t, gap);
    var most := b.GetRlimMax(dir, (t + gap) % TICKS);
    bytes := if want < most then want else most;
    b.DecrementOwn(dir, bytes);
  }

  lemma AllWindows(limit: ssize, maximum: nat, rate: nat, run: seq<Transfer>)
    requires limit <= maximum <= SSIZE_MAX && Allowed(limit, maximum, rate, run)
    ensures forall lo, hi {:trigger run[lo..hi]} :: 0 <= lo < hi <= |run| ==>
      Bytes(run[lo..hi]) <= maximum + Elapsed(run[lo + 1..hi]) * rate
  {
    forall lo, hi | 0 <= lo < hi <= |run|
      ensures Bytes(run[lo..hi]) <= maximum + Elapsed(run[lo + 1..hi]) * rate
    {
      AnyWindow(limit, maximum, rate, run, lo, hi);
    }
  }

  /** Every run of such callers, each `gap` ticks after the one before: the bytes moved keep to the rate. */
  method RunAlone(b: Bufferevent, dir: Dir, start: nat, gaps: seq<nat>, wants: seq<nat>) returns (run: seq<Transfer>)
    requires b.Sound() && b.group == null && b.cfg != null && b.limit.lastUpdated == start % TICKS
    requires |wants| == |gaps| && forall k :: 0 <= k < |gaps| ==> gaps[k] <= INT_MAX
    modifies b`limit, b`suspended, b`running, b`refillPending
    ensures b.Sound() && |run| == |gaps| && forall k :: 0 <= k < |run| ==> run[k].gap == gaps[k]
    ensures var limit, maximum, rate := old(b.limit.limit.At(dir)), b.cfg.maximum.At(dir), b.cfg.rate.At(dir);
      && Allowed(limit, maximum, rate, run) && Greedy(limit, maximum, rate, run, wants)
      && b.limit.limit.At(dir) == LimitAfter(limit, maximum, rate, run)
    ensures forall lo, hi {:trigger run[lo..hi]} :: 0 <= lo < hi <= |run| ==>
      Bytes(run[lo..hi]) <= b.cfg.maximum.At(dir) + Elapsed(run[lo + 1..hi]) * b.cfg.rate.At(dir)
  {
    ghost var limit, maximum, rate := b.limit.limit.At(dir), b.cfg.maximum.At(dir), b.cfg.rate.At(dir);
    run := [];
    var t: nat := start;
    for k := 0 to |gaps|
      invariant b.Sound() && |run| == k && b.limit.lastUpdated == t % TICKS
      invariant forall m :: 0 <= m < k ==> run[m].gap == gaps[m]
      invariant Allowed(limit, maximum, rate, run) && Greedy(limit, maximum, rate, run, wants[..k])
      invariant Allowed(limit, maximum, rate, run) && b.limit.limit.At(dir) == LimitAfter(limit, maximum, rate, run)
    {
      var bytes := MoveSome(b, dir, t, gaps[k], wants[k]);
      t := t + gaps[k];
      AllowedSnoc(limit, maximum, rate, run, Transfer(gaps[k], bytes));
      GreedySnoc(limit, maximum, rate, run, wants[..k], Transfer(gaps[k], bytes), wants[k]);
      assert wants[..k + 1] == wants[..k] + [wants[k]];
      run := run + [Transfer(gaps[k], bytes)];
    }
    assert wants[..|gaps|] == wants;
    AllWindows(limit, maximum, rate, run);
  }
}
