/** The token buckets behind rate limits: overflow-safe refilling on 64-bit words and 32-bit ticks. */
module TokenBucket {
  import opened Directions

  const WORD: nat := 0x1_0000_0000_0000_0000
  const SSIZE_MAX: int := 0x7fff_ffff_ffff_ffff
  const TICKS: nat := 0x1_0000_0000
  const INT_MAX: nat := 0x7fff_ffff

  type ssize = x: int | -SSIZE_MAX - 1 <= x <= SSIZE_MAX
  type tick = x: int | 0 <= x < TICKS

  /** struct ev_token_bucket. */
  datatype Bucket = Bucket(limit: Both<ssize>, lastUpdated: tick)

  /** struct ev_token_bucket_cfg, which is compared by address. */
  class Cfg {
    const rate: Both<nat>
    const maximum: Both<nat>

    constructor (rate: Both<nat>, maximum: Both<nat>)
      ensures this.rate == rate && this.maximum == maximum
    {
      this.rate, this.maximum := rate, maximum;
    }

    /** What ev_token_bucket_cfg_new makes sure of. */
    predicate Sane() {
      && 1 <= rate.read <= maximum.read <= SSIZE_MAX
      && 1 <= rate.write <= maximum.write <= SSIZE_MAX
    }
  }

  /** ev_token_bucket_cfg_new. */
  method CfgNew(readRate: nat, readBurst: nat, writeRate: nat, writeBurst: nat) returns (r: Cfg?)
    ensures r != null ==> r.Sane() && r.rate == Both(readRate, writeRate) && r.maximum == Both(readBurst, writeBurst)
    ensures r == null <==> readRate > readBurst || writeRate > writeBurst || readRate < 1 || writeRate < 1
                           || readBurst > SSIZE_MAX || writeBurst > SSIZE_MAX
  {
    if readRate > readBurst || writeRate > writeBurst || readRate < 1 || writeRate < 1 {
      return null;
    }
    if readRate > SSIZE_MAX || writeRate > SSIZE_MAX || readBurst > SSIZE_MAX || writeBurst > SSIZE_MAX {
      return null;
    }
    r := new Cfg(Both(readRate, writeRate), Both(readBurst, writeBurst));
  }

  /** A word read as a signed number. */
  function Signed(u: nat): ssize
    requires u < WORD
  {
    if u <= SSIZE_MAX then u else u - WORD
  }

  function Min(a: int, b: int): int {
    if a < b then a else b
  }

  /** One limit after n ticks, computed as the source does, in unsigned words. */
  function Raise(limit: ssize, maximum: nat, rate: nat, n: nat): (r: ssize)
    requires maximum <= SSIZE_MAX && n > 0
  {
    if (maximum - limit) % WORD / n < rate then maximum else Signed((limit + n * rate) % WORD)
  }

  lemma QuotientBelow(a: nat, n: nat, rate: nat)
    requires n > 0
    ensures a / n < rate <==> a < n * rate
  {
    var q := a / n;
    assert a == n * q + a % n;
    if q < rate {
      assert n * (q + 1) <= n * rate;
    } else {
      assert n * rate <= n * q;
    }
  }

  /** The division avoids every overflow, as long as the limit is not above the maximum... */
  lemma RaiseIsMin(limit: ssize, maximum: nat, rate: nat, n: nat)
    requires maximum <= SSIZE_MAX && n > 0 && limit <= maximum
    ensures Raise(limit, maximum, rate, n) == Min(maximum, limit + n * rate)
  {
    assert 0 <= maximum - limit < WORD;
    QuotientBelow(maximum - limit, n, rate);
    if limit + n * rate <= maximum {
      SignedBack(limit + n * rate);
    }
  }

  lemma SignedBack(x: ssize)
    ensures Signed(x % WORD) == x
  {
    if x < 0 {
      assert x + WORD == (x + WORD) % WORD == x % WORD;
    }
  }

  /** ...and above it, exactly when the refill would run around the whole word. */
  lemma RaiseIsMinExactly(limit: ssize, maximum: nat, rate: nat, n: nat)
    requires maximum <= SSIZE_MAX && n > 0
    ensures Raise(limit, maximum, rate, n) == Min(maximum, limit + n * rate)
            <==> limit <= maximum || n * rate >= WORD - (limit - maximum)
  {
    if limit <= maximum {
      RaiseIsMin(limit, maximum, rate, n);
    } else {
      var gap := maximum - limit + WORD;
      assert gap % WORD == gap && (maximum - limit) % WORD == gap by {
        assert maximum - limit == gap + (-1) * WORD;
      }
      QuotientBelow(gap, n, rate);
      var sum := limit + n * rate;
      if n * rate < gap {
        assert limit <= sum < WORD + maximum;
        if sum < WORD {
          assert sum % WORD == sum;
          assert Signed(sum) != maximum;
        } else {
          assert sum % WORD == sum - WORD < maximum;
        }
      } else if n * rate == gap {
        assert sum == WORD + maximum && sum % WORD == maximum;
      }
    }
  }

  /** A limit above its maximum is not brought down but goes further up. */
  lemma RaiseAboveMaximum()
    ensures Raise(11, 10, 1, 1) == 12
  {
    RaiseIsMinExactly(11, 10, 1, 1);
  }

  /** How many ticks have passed; time that has gone back counts as none. */
  function Ticks(last: tick, now: tick): nat {
    var n := (now - last) % TICKS;
    if n > INT_MAX then 0 else n
  }

  /** The part of ev_token_bucket_update for one direction. */
  method RaiseLimit(limit: ssize, maximum: nat, rate: nat, nTicks: nat) returns (raised: ssize)
    requires maximum <= SSIZE_MAX && nTicks > 0
    ensures raised == Raise(limit, maximum, rate, nTicks)
    ensures limit <= maximum ==> raised == Min(maximum, limit + nTicks * rate)
  {
    if limit <= maximum {
      RaiseIsMin(limit, maximum, rate, nTicks);
    }
    if (maximum - limit) % WORD / nTicks < rate {
      return maximum;
    }
    return Signed((limit + nTicks * rate) % WORD);
  }

  /** ev_token_bucket_update. */
  method Update(b: Bucket, cfg: Cfg, now: tick) returns (r: bool, b': Bucket)
    requires cfg.maximum.read <= SSIZE_MAX && cfg.maximum.write <= SSIZE_MAX
    ensures r <==> Ticks(b.lastUpdated, now) > 0
    ensures !r ==> b' == b
    ensures r ==> b'.lastUpdated == now
    ensures r ==> forall dir: Dir :: b'.limit.At(dir) == Raise(b.limit.At(dir), cfg.maximum.At(dir), cfg.rate.At(dir), Ticks(b.lastUpdated, now))
    ensures UnderMax(b, cfg) ==> b' == Refilled(b, cfg, now)
  {
    var nTicks := (now - b.lastUpdated) % TICKS;
    if nTicks == 0 || nTicks > INT_MAX {
      return false, b;
    }
    var read := RaiseLimit(b.limit.read, cfg.maximum.read, cfg.rate.read, nTicks);
    var write := RaiseLimit(b.limit.write, cfg.maximum.write, cfg.rate.write, nTicks);
    r, b' := true, Bucket(Both(read, write), now);
  }

  predicate UnderMax(b: Bucket, cfg: Cfg) {
    b.limit.read <= cfg.maximum.read <= SSIZE_MAX && b.limit.write <= cfg.maximum.write <= SSIZE_MAX
  }

  /** What a refill means: each limit grows by its rate per tick, up to its maximum. */
  function Grown(limit: ssize, maximum: nat, rate: nat, n: nat): (r: ssize)
    requires limit <= maximum <= SSIZE_MAX
    ensures limit <= r <= maximum
  {
    assert n * rate >= 0;
    Min(maximum, limit + n * rate)
  }

  function Refilled(b: Bucket, cfg: Cfg, now: tick): (r: Bucket)
    requires UnderMax(b, cfg)
    ensures UnderMax(r, cfg)
  {
    var n := Ticks(b.lastUpdated, now);
    if n == 0 then b
    else Bucket(Both(Grown(b.limit.read, cfg.maximum.read, cfg.rate.read, n),
                     Grown(b.limit.write, cfg.maximum.write, cfg.rate.write, n)), now)
  }

  /** ev_token_bucket_init. */
  method Init(b: Bucket, cfg: Cfg, now: tick, reinitialize: bool) returns (b': Bucket)
    requires cfg.Sane()
    ensures UnderMax(b', cfg)
    ensures reinitialize ==> b'.lastUpdated == b.lastUpdated
    ensures reinitialize ==> forall dir: Dir :: b'.limit.At(dir) == Min(b.limit.At(dir), cfg.maximum.At(dir))
    ensures !reinitialize ==> b' == Bucket(Both(cfg.rate.read, cfg.rate.write), now)
  {
    b' := b;
    if reinitialize {
      if b'.limit.read > cfg.maximum.read {
        b' := b'.(limit := b'.limit.(read := cfg.maximum.read));
      }
      if b'.limit.write > cfg.maximum.write {
        b' := b'.(limit := b'.limit.(write := cfg.maximum.write));
      }
    } else {
      b' := Bucket(Both(cfg.rate.read, cfg.rate.write), now);
    }
  }

  /** A 32-bit tick counter that wraps still tells how much time has passed, up to INT_MAX ticks. */
  lemma WrapTells(t1: nat, t2: nat)
    requires t1 <= t2 <= t1 + INT_MAX
    ensures Ticks(t1 % TICKS, t2 % TICKS) == t2 - t1
  {
    assert t2 - t1 == (t2 - t1) % TICKS == (t2 % TICKS - t1 % TICKS) % TICKS by {
      var q1, q2 := t1 / TICKS, t2 / TICKS;
      assert t1 == q1 * TICKS + t1 % TICKS && t2 == q2 * TICKS + t2 % TICKS;
      assert t2 % TICKS - t1 % TICKS == (t2 - t1) + (q1 - q2) * TICKS;
    }
  }

  /** Time that has gone back, by up to half of the counter, counts as none. */
  lemma WentBack(t1: nat, t2: nat)
    requires t2 <= t1 <= t2 + 0x8000_0000
    ensures Ticks(t1 % TICKS, t2 % TICKS) == 0
  {
    var q1, q2 := t1 / TICKS, t2 / TICKS;
    assert t1 == q1 * TICKS + t1 % TICKS && t2 == q2 * TICKS + t2 % TICKS;
    var n := (t2 % TICKS - t1 % TICKS) % TICKS;
    if t1 == t2 {
      assert n == 0;
    } else {
      assert t2 % TICKS - t1 % TICKS == (TICKS - (t1 - t2)) + (q1 - q2 - 1) * TICKS;
      assert n == TICKS - (t1 - t2);
    }
  }

  lemma GrownTwice(limit: ssize, maximum: nat, rate: nat, m: nat, n: nat)
    requires limit <= maximum <= SSIZE_MAX
    ensures Grown(Grown(limit, maximum, rate, m), maximum, rate, n) == Grown(limit, maximum, rate, m + n)
  {
    Spread(m, n, rate);
  }

  /** Refilling in between changes nothing: the bucket only depends on how much time has passed. */
  lemma RefilledTwice(b: Bucket, cfg: Cfg, t0: nat, t1: nat, t2: nat)
    requires UnderMax(b, cfg) && t0 <= t1 <= t2 <= t0 + INT_MAX && b.lastUpdated == t0 % TICKS
    ensures Refilled(Refilled(b, cfg, t1 % TICKS), cfg, t2 % TICKS) == Refilled(b, cfg, t2 % TICKS)
  {
    WrapTells(t0, t1);
    WrapTells(t1, t2);
    WrapTells(t0, t2);
    if t1 > t0 && t2 > t1 {
      GrownTwice(b.limit.read, cfg.maximum.read, cfg.rate.read, t1 - t0, t2 - t1);
      GrownTwice(b.limit.write, cfg.maximum.write, cfg.rate.write, t1 - t0, t2 - t1);
    } else if t1 == t0 {
      assert Refilled(b, cfg, t1 % TICKS) == b;
    } else {
      assert Refilled(b, cfg, t1 % TICKS).lastUpdated == t2 % TICKS;
    }
  }

  /** A transfer: the ticks since the one before, and how many bytes. */
  datatype Transfer = Transfer(gap: nat, bytes: nat)

  /** Every transfer moves at most what the limit then allows. */
  ghost predicate Allowed(limit: ssize, maximum: nat, rate: nat, run: seq<Transfer>)
    requires limit <= maximum <= SSIZE_MAX
    decreases |run|
  {
    run == [] ||
    var l := Grown(limit, maximum, rate, run[0].gap);
    && (run[0].bytes > 0 ==> run[0].bytes <= l)
    && Allowed(l - run[0].bytes, maximum, rate, run[1..])
  }

  function Bytes(run: seq<Transfer>): nat {
    if run == [] then 0 else run[0].bytes + Bytes(run[1..])
  }

  function Elapsed(run: seq<Transfer>): nat {
    if run == [] then 0 else run[0].gap + Elapsed(run[1..])
  }

  lemma Spread(m: nat, n: nat, rate: nat)
    ensures (m + n) * rate == m * rate + n * rate && m * rate >= 0 && n * rate >= 0
  {
  }

  /** Nothing moves as long as the limit stays below 1; what moves is paid for by the limit and by time. */
  lemma {:induction false} BytesPaid(limit: ssize, maximum: nat, rate: nat, run: seq<Transfer>)
    requires limit <= maximum <= SSIZE_MAX && Allowed(limit, maximum, rate, run)
    ensures Bytes(run) > 0 ==> Bytes(run) <= limit + Elapsed(run) * rate
    decreases |run|
  {
    if run != [] {
      var gap, bytes, later := run[0].gap, run[0].bytes, run[1..];
      var l := Grown(limit, maximum, rate, gap);
      assert Allowed(l - bytes, maximum, rate, later) && (bytes > 0 ==> bytes <= l);
      BytesPaid(l - bytes, maximum, rate, later);
      var now, then' := gap * rate, Elapsed(later) * rate;
      Spread(gap, Elapsed(later), rate);
      assert Elapsed(run) * rate == now + then';
      assert l <= limit + now;
    }
  }

  /** In any window, from one transfer to a later one, at most the burst and the rate per tick get through. */
  lemma WindowBound(limit: ssize, maximum: nat, rate: nat, run: seq<Transfer>)
    requires limit <= maximum <= SSIZE_MAX && Allowed(limit, maximum, rate, run) && run != []
    ensures Bytes(run) <= maximum + Elapsed(run[1..]) * rate
  {
    var l := Grown(limit, maximum, rate, run[0].gap);
    BytesPaid(l - run[0].bytes, maximum, rate, run[1..]);
    Spread(0, Elapsed(run[1..]), rate);
  }
}
