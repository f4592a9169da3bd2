/** What every call does to the requests of an evdns base, said without the functions that compute it. */
module DnsModelLaws {
  import opened Lists
  import opened DnsModel

  /** A number that can be the id of another request. */
  ghost predicate Usable(flight: seq<Flying>, id: nat) {
    id != 0xffff && !Taken(flight, id)
  }

  ghost predicate AnyUsable(flight: seq<Flying>, random: seq<nat>) {
    exists k :: 0 <= k < |random| && Usable(flight, random[k])
  }

  /** Number k is the first usable one. */
  ghost predicate FirstUsable(flight: seq<Flying>, random: seq<nat>, k: nat) {
    k < |random| && Usable(flight, random[k]) && forall i :: 0 <= i < k ==> !Usable(flight, random[i])
  }

  /** The id drawn is the first of the numbers that is neither 0xffff nor taken; there is none exactly when all are. */
  lemma {:induction false} DrawMeans(flight: seq<Flying>, random: seq<nat>) returns (k: nat)
    ensures Draw(flight, random).Drawn? <==> AnyUsable(flight, random)
    ensures Draw(flight, random).Drawn? ==> FirstUsable(flight, random, k) && Draw(flight, random) == Drawn(random[k], random[k + 1..])
  {
    k := 0;
    if random != [] && !Usable(flight, random[0]) {
      var before := DrawMeans(flight, random[1..]);
      k := before + 1;
      assert forall i :: 1 <= i < |random| ==> random[i] == random[1..][i - 1];
      if before < |random[1..]| {
        assert random[1..][before + 1..] == random[k + 1..];
      }
    }
  }

  /** With room and a usable number a new request goes out at once, behind those in flight, whoever waits. */
  lemma NewGoesOut(m: Model, random: seq<nat>) returns (k: nat)
    requires m.s.most >= 1 && |m.s.flight| < m.s.most && AnyUsable(m.s.flight, random)
    ensures FirstUsable(m.s.flight, random, k)
    ensures Step(m, New(random))
            == Model(State(m.s.flight + [Flying(random[k], m.made)], m.s.queue, m.s.most), m.made + 1, m.finished)
  {
    k := DrawMeans(m.s.flight, random);
  }

  /** Without room it waits behind all others; with room and no usable number nothing happens. */
  lemma NewWaits(m: Model, random: seq<nat>)
    requires m.s.most >= 1
    ensures |m.s.flight| >= m.s.most ==>
      Step(m, New(random)) == Model(State(m.s.flight, m.s.queue + [m.made], m.s.most), m.made + 1, m.finished)
    ensures |m.s.flight| < m.s.most && !AnyUsable(m.s.flight, random) ==> Step(m, New(random)) == m
  {
    var k := DrawMeans(m.s.flight, random);
  }

  /** The first n requests of a queue, in flight under these ids. */
  ghost predicate OutAs(out: seq<Flying>, queue: seq<nat>) {
    |out| <= |queue| && forall i :: 0 <= i < |out| ==> out[i].num == queue[i]
  }

  /**
   * Pumping sends requests from the front of the queue, in order, until as many are in flight as may be,
   * none waits, or no number is usable; and never one more.
   */
  lemma {:induction false} PumpMeans(s: State, random: seq<nat>) returns (out: seq<Flying>)
    ensures OutAs(out, s.queue) && Pumped(s, random) == State(s.flight + out, s.queue[|out|..], s.most)
    ensures out != [] ==> |s.flight| + |out| <= s.most
    ensures |s.flight| + |out| >= s.most || |out| == |s.queue| || !AnyUsable(s.flight + out, random)
    decreases |s.queue|
  {
    out := [];
    if |s.flight| < s.most && s.queue != [] {
      var k := DrawMeans(s.flight, random);
      if Draw(s.flight, random).Drawn? {
        var f := Flying(random[k], s.queue[0]);
        var later := PumpMeans(Out(s, f.id), random[k + 1..]);
        out := [f] + later;
        OneBefore(s, f, later);
        if !AnyUsable(s.flight + [f] + later, random[k + 1..]) {
          UsedUp(s.flight, f, later, random, k);
        }
        return;
      }
    }
    assert s.flight + [] == s.flight && s.queue[0..] == s.queue;
  }

  lemma OneBefore(s: State, f: Flying, later: seq<Flying>)
    requires s.queue != [] && f.num == s.queue[0] && OutAs(later, s.queue[1..])
    ensures OutAs([f] + later, s.queue)
    ensures s.flight + ([f] + later) == s.flight + [f] + later
    ensures s.queue[1..][|later|..] == s.queue[|[f] + later|..]
  {
  }

  lemma UsedUp(flight: seq<Flying>, f: Flying, later: seq<Flying>, random: seq<nat>, k: nat)
    requires k < |random| && f.id == random[k] && forall i :: 0 <= i < k ==> !Usable(flight, random[i])
    requires !AnyUsable(flight + [f] + later, random[k + 1..])
    ensures !AnyUsable(flight + [f] + later, random)
  {
    var all := flight + [f] + later;
    forall i | 0 <= i < |random|
      ensures !Usable(all, random[i])
    {
      if i < k {
        if random[i] != 0xffff {
          var g :| g in flight && g.id == random[i];
          assert g in all;
        }
      } else if i == k {
        assert f in all;
      } else {
        assert random[i] == random[k + 1..][i - k - 1];
      }
    }
  }

  /** A reply takes the one request that has its id, and no other; then the queue is pumped. */
  lemma FinishMeans(m: Model, id: nat, random: seq<nat>) returns (num: nat, left: seq<Flying>)
    requires m.s.most >= 1 && Taken(m.s.flight, id)
    ensures Flying(id, num) in m.s.flight && forall f :: f in left <==> f in m.s.flight && f.id != id
    ensures Step(m, Finish(id, random)) == Model(Pumped(m.s.(flight := left), random), m.made, m.finished + [num])
  {
    num, left := NumOf(m.s.flight, id), Landed(m.s.flight, id);
    NumIsOf(m.s.flight, id);
    forall f
      ensures f in left <==> f in m.s.flight && f.id != id
    {
      LandedIs(m.s.flight, id, f);
    }
  }

  lemma {:induction false} NumIsOf(flight: seq<Flying>, id: nat)
    requires Taken(flight, id)
    ensures Flying(id, NumOf(flight, id)) in flight
  {
    var n := |flight| - 1;
    if flight[n].id != id {
      assert Taken(flight[..n], id) by {
        var f :| f in flight && f.id == id;
        assert f in flight[..n];
      }
      NumIsOf(flight[..n], id);
    }
  }

  lemma {:induction false} LandedIs(flight: seq<Flying>, id: nat, f: Flying)
    ensures f in Landed(flight, id) <==> f in flight && f.id != id
  {
    if flight != [] {
      var n := |flight| - 1;
      LandedIs(flight[..n], id, f);
      assert flight == flight[..n] + [flight[n]];
    }
  }

  /** A cancelled request leaves the queue, whose order stays, and the queue is pumped; pumping alone finishes nobody. */
  lemma CancelMeans(m: Model, k: nat, random: seq<nat>)
    requires m.s.most >= 1 && k < |m.s.queue|
    ensures Step(m, FinishQueued(k, random))
            == Model(Pumped(m.s.(queue := m.s.queue[..k] + m.s.queue[k + 1..]), random), m.made, m.finished + [m.s.queue[k]])
    ensures Step(m, PumpQueue(random)) == m.(s := Pumped(m.s, random))
  {
  }

  /** One bucket for every five requests, rounded up. */
  lemma HeadsMean(most: int)
    requires most >= 1
    ensures 5 * (Heads(most) - 1) < most <= 5 * Heads(most)
  {
  }

  lemma {:induction false} BucketIs(flight: seq<Flying>, n: nat, b: nat, f: Flying)
    requires n > 0
    ensures f in Bucket(flight, n, b) <==> f in flight && f.id % n == b
  {
    if flight != [] {
      var k := |flight| - 1;
      BucketIs(flight[..k], n, b, f);
      assert flight == flight[..k] + [flight[k]];
    }
  }

  lemma {:induction false} BucketsAre(flight: seq<Flying>, n: nat, m: nat, f: Flying)
    requires n > 0
    ensures f in Buckets(flight, n, m) <==> f in flight && f.id % n < m
  {
    if m > 0 {
      BucketsAre(flight, n, m - 1, f);
      BucketIs(flight, n, m - 1, f);
    }
  }

  /** Changing the maximum keeps who is in flight, under which ids, and who waits; the maximum is at least 1. */
  lemma ResizeMeans(m: Model, maxInflight: int, f: Flying)
    requires m.s.most >= 1
    ensures var next := Step(m, Resize(maxInflight));
      && (f in next.s.flight <==> f in m.s.flight)
      && next.s.queue == m.s.queue && next.made == m.made && next.finished == m.finished
      && next.s.most == Greatest(1, maxInflight)
  {
    var n := Heads(m.s.most);
    BucketsAre(m.s.flight, n, n, f);
  }

  function Greatest(a: int, b: int): int {
    if a < b then b else a
  }

  /** One member stands before the other in a list. */
  ghost predicate Before<T>(list: seq<T>, a: T, b: T) {
    exists p, q :: 0 <= p < q < |list| && list[p] == a && list[q] == b
  }

  lemma BeforeJoin<T>(front: seq<T>, back: seq<T>, a: T, b: T)
    requires Before(front, a, b) || Before(back, a, b) || (a in front && b in back)
    ensures Before(front + back, a, b)
  {
    var all := front + back;
    if Before(front, a, b) {
      var p, q :| 0 <= p < q < |front| && front[p] == a && front[q] == b;
      assert all[p] == a && all[q] == b;
    } else if Before(back, a, b) {
      var p, q :| 0 <= p < q < |back| && back[p] == a && back[q] == b;
      assert all[|front| + p] == a && all[|front| + q] == b;
    } else {
      var p :| 0 <= p < |front| && front[p] == a;
      var q :| 0 <= q < |back| && back[q] == b;
      assert all[p] == a && all[|front| + q] == b;
    }
  }

  lemma InJoin<T>(front: seq<T>, back: seq<T>, a: T)
    requires a in front || a in back
    ensures a in front + back
  {
  }

  lemma {:induction false} BackwardsHas(flight: seq<Flying>, i: nat)
    requires i < |flight|
    ensures flight[i].num in Backwards(flight)
  {
    var n := |flight| - 1;
    if i < n {
      BackwardsHas(flight[..n], i);
    }
  }

  /** Who went out later stands before who went out earlier. */
  lemma {:induction false} BackwardsTurns(flight: seq<Flying>, i: nat, j: nat)
    requires i < j < |flight|
    ensures Before(Backwards(flight), flight[j].num, flight[i].num)
  {
    var n := |flight| - 1;
    var rest := Backwards(flight[..n]);
    if j == n {
      BackwardsHas(flight[..n], i);
    } else {
      BackwardsTurns(flight[..n], i, j);
    }
    BeforeJoin([flight[n].num], rest, flight[j].num, flight[i].num);
  }

  /** The requests with one home, wherever that is. */
  ghost function BucketBy(flight: seq<Flying>, home: Flying -> nat, b: nat): seq<Flying> {
    if flight == [] then []
    else
      var k := |flight| - 1;
      BucketBy(flight[..k], home, b) + if home(flight[k]) == b then [flight[k]] else []
  }

  ghost function BacklogBy(flight: seq<Flying>, home: Flying -> nat, m: nat): seq<nat> {
    if m == 0 then [] else Backwards(BucketBy(flight, home, m - 1)) + BacklogBy(flight, home, m - 1)
  }

  /** The place of a request within its bucket. */
  lemma {:induction false} BucketKeeps(flight: seq<Flying>, home: Flying -> nat, i: nat) returns (p: nat)
    requires i < |flight|
    ensures var bucket := BucketBy(flight, home, home(flight[i])); p < |bucket| && bucket[p] == flight[i]
    ensures p == |BucketBy(flight[..i], home, home(flight[i]))|
  {
    var k := |flight| - 1;
    if i == k {
      p := |BucketBy(flight[..k], home, home(flight[i]))|;
    } else {
      p := BucketKeeps(flight[..k], home, i);
      assert flight[..k][..i] == flight[..i];
    }
  }

  lemma {:induction false} BucketGrows(flight: seq<Flying>, home: Flying -> nat, i: nat, j: nat)
    requires i < j <= |flight|
    ensures |BucketBy(flight[..i], home, home(flight[i]))| < |BucketBy(flight[..j], home, home(flight[i]))|
  {
    assert flight[..j][..j - 1] == flight[..j - 1];
    if i < j - 1 {
      BucketGrows(flight, home, i, j - 1);
    }
  }

  lemma InBucket(flight: seq<Flying>, home: Flying -> nat, i: nat, b: nat)
    requires i < |flight| && b == home(flight[i])
    ensures flight[i].num in Backwards(BucketBy(flight, home, b))
  {
    var p := BucketKeeps(flight, home, i);
    BackwardsHas(BucketBy(flight, home, b), p);
  }

  lemma InBucketTurns(flight: seq<Flying>, home: Flying -> nat, i: nat, j: nat, b: nat)
    requires i < j < |flight| && home(flight[i]) == home(flight[j]) == b
    ensures Before(Backwards(BucketBy(flight, home, b)), flight[j].num, flight[i].num)
  {
    var p := BucketKeeps(flight, home, i);
    var q := BucketKeeps(flight, home, j);
    BucketGrows(flight, home, i, j);
    BackwardsTurns(BucketBy(flight, home, b), p, q);
  }

  /** What stands in the backlog of the buckets up to one stands in that of all later ones. */
  lemma {:induction false} BacklogHas(flight: seq<Flying>, home: Flying -> nat, m: nat, i: nat, b: nat)
    requires i < |flight| && b == home(flight[i]) && b < m
    ensures flight[i].num in BacklogBy(flight, home, m)
  {
    var k: nat := m - 1;
    if b == k {
      InBucket(flight, home, i, b);
      InJoin(Backwards(BucketBy(flight, home, b)), BacklogBy(flight, home, b), flight[i].num);
    } else {
      BacklogHas(flight, home, k, i, b);
      InJoin(Backwards(BucketBy(flight, home, k)), BacklogBy(flight, home, k), flight[i].num);
    }
  }

  /** Request i is behind request j: in an earlier bucket, or in the same one and it went out first. */
  ghost predicate Behind(flight: seq<Flying>, home: Flying -> nat, i: nat, j: nat)
    requires i < |flight| && j < |flight|
  {
    home(flight[i]) < home(flight[j]) || (home(flight[i]) == home(flight[j]) && i < j)
  }

  lemma LastBucketTurns(flight: seq<Flying>, home: Flying -> nat, i: nat, j: nat, bi: nat, bj: nat)
    requires i < |flight| && j < |flight| && bi == home(flight[i]) && bj == home(flight[j])
    requires bi < bj || (bi == bj && i < j)
    ensures Before(BacklogBy(flight, home, bj + 1), flight[j].num, flight[i].num)
  {
    var front, rest := Backwards(BucketBy(flight, home, bj)), BacklogBy(flight, home, bj);
    if bi == bj {
      InBucketTurns(flight, home, i, j, bj);
    } else {
      InBucket(flight, home, j, bj);
      BacklogHas(flight, home, bj, i, bi);
    }
    BeforeJoin(front, rest, flight[j].num, flight[i].num);
  }

  lemma {:induction false} BacklogStays(flight: seq<Flying>, home: Flying -> nat, m: nat, n: nat, a: nat, b: nat)
    requires m <= n && Before(BacklogBy(flight, home, m), a, b)
    ensures Before(BacklogBy(flight, home, n), a, b)
  {
    if m < n {
      var k: nat := n - 1;
      BacklogStays(flight, home, m, k, a, b);
      BeforeJoin(Backwards(BucketBy(flight, home, k)), BacklogBy(flight, home, k), a, b);
    }
  }

  /** Bucket after bucket, the last one first, and each from its end. */
  lemma BacklogTurns(flight: seq<Flying>, home: Flying -> nat, m: nat, i: nat, j: nat)
    requires i < |flight| && j < |flight| && Behind(flight, home, i, j) && home(flight[j]) < m
    ensures Before(BacklogBy(flight, home, m), flight[j].num, flight[i].num)
  {
    LastBucketTurns(flight, home, i, j, home(flight[i]), home(flight[j]));
    BacklogStays(flight, home, home(flight[j]) + 1, m, flight[j].num, flight[i].num);
  }

  /** The bucket of a request in a table of n buckets. */
  function HomeIn(n: nat): Flying -> nat
    requires n > 0
  {
    (f: Flying) => f.id % n
  }

  lemma {:induction false} SameBucket(flight: seq<Flying>, n: nat, b: nat)
    requires n > 0
    ensures Bucket(flight, n, b) == BucketBy(flight, HomeIn(n), b)
  {
    if flight != [] {
      SameBucket(flight[..|flight| - 1], n, b);
    }
  }

  lemma {:induction false} SameBacklog(flight: seq<Flying>, n: nat, m: nat)
    requires n > 0
    ensures Backlogged(flight, n, m) == BacklogBy(flight, HomeIn(n), m)
  {
    if m > 0 {
      SameBucket(flight, n, m - 1);
      SameBacklog(flight, n, m - 1);
    }
  }

  lemma HomeBelow(f: Flying, n: nat)
    requires n > 0
    ensures HomeIn(n)(f) < n
  {
  }

  lemma ClearedIs(m: Model)
    requires m.s.most >= 1
    ensures var n := Heads(m.s.most);
      Step(m, Clear) == Model(State([], Backlogged(m.s.flight, n, n) + m.s.queue, m.s.most), m.made, m.finished)
  {
  }

  lemma BackloggedTurns(flight: seq<Flying>, n: nat, i: nat, j: nat)
    requires n > 0 && i < |flight| && j < |flight|
    ensures flight[i].num in Backlogged(flight, n, n)
    ensures Behind(flight, HomeIn(n), i, j) ==> Before(Backlogged(flight, n, n), flight[j].num, flight[i].num)
  {
    SameBacklog(flight, n, n);
    HomeBelow(flight[i], n);
    HomeBelow(flight[j], n);
    BacklogHas(flight, HomeIn(n), n, i, HomeIn(n)(flight[i]));
    if Behind(flight, HomeIn(n), i, j) {
      BacklogTurns(flight, HomeIn(n), n, i, j);
    }
  }

  /**
   * Clearing puts everybody in flight back in front of those that waited: whose id falls into a later
   * bucket before the others, and in one bucket who went out last before the others.
   */
  lemma ClearMeans(m: Model, n: nat, i: nat, j: nat) returns (front: seq<nat>)
    requires m.s.most >= 1 && i < |m.s.flight| && j < |m.s.flight| && n == (m.s.most + 4) / 5
    ensures n > 0 && Step(m, Clear) == Model(State([], front + m.s.queue, m.s.most), m.made, m.finished)
    ensures m.s.flight[i].num in front
    ensures Behind(m.s.flight, HomeIn(n), i, j) ==> Before(front, m.s.flight[j].num, m.s.flight[i].num)
  {
    assert n == Heads(m.s.most);
    front := Backlogged(m.s.flight, n, n);
    ClearedIs(m);
    BackloggedTurns(m.s.flight, n, i, j);
  }

  ghost function BucketsBy(flight: seq<Flying>, home: Flying -> nat, m: nat): seq<Flying> {
    if m == 0 then [] else BucketsBy(flight, home, m - 1) + BucketBy(flight, home, m - 1)
  }

  lemma {:induction false} SameBuckets(flight: seq<Flying>, n: nat, m: nat)
    requires n > 0
    ensures Buckets(flight, n, m) == BucketsBy(flight, HomeIn(n), m)
  {
    if m > 0 {
      SameBucket(flight, n, m - 1);
      SameBuckets(flight, n, m - 1);
    }
  }

  lemma FoundInBucket(flight: seq<Flying>, home: Flying -> nat, i: nat, b: nat)
    requires i < |flight| && b == home(flight[i])
    ensures flight[i] in BucketBy(flight, home, b)
  {
    var p := BucketKeeps(flight, home, i);
  }

  lemma {:induction false} BucketsKeep(flight: seq<Flying>, home: Flying -> nat, m: nat, n: nat, f: Flying)
    requires m <= n && f in BucketsBy(flight, home, m)
    ensures f in BucketsBy(flight, home, n)
  {
    if m < n {
      var k: nat := n - 1;
      BucketsKeep(flight, home, m, k, f);
      InJoin(BucketsBy(flight, home, k), BucketBy(flight, home, k), f);
    }
  }

  lemma BucketsHave(flight: seq<Flying>, home: Flying -> nat, m: nat, i: nat, b: nat)
    requires i < |flight| && b == home(flight[i]) && b < m
    ensures flight[i] in BucketsBy(flight, home, m)
  {
    FoundInBucket(flight, home, i, b);
    InJoin(BucketsBy(flight, home, b), BucketBy(flight, home, b), flight[i]);
    BucketsKeep(flight, home, b + 1, m, flight[i]);
  }

  lemma LastBucketOrder(flight: seq<Flying>, home: Flying -> nat, i: nat, j: nat, bi: nat, bj: nat)
    requires i < |flight| && j < |flight| && bi == home(flight[i]) && bj == home(flight[j])
    requires bi < bj || (bi == bj && i < j)
    ensures Before(BucketsBy(flight, home, bj + 1), flight[i], flight[j])
  {
    var p := BucketKeeps(flight, home, i);
    var q := BucketKeeps(flight, home, j);
    if bi == bj {
      BucketGrows(flight, home, i, j);
    } else {
      BucketsHave(flight, home, bj, i, bi);
    }
    BeforeJoin(BucketsBy(flight, home, bj), BucketBy(flight, home, bj), flight[i], flight[j]);
  }

  lemma {:induction false} BucketsStay(flight: seq<Flying>, home: Flying -> nat, m: nat, n: nat, a: Flying, b: Flying)
    requires m <= n && Before(BucketsBy(flight, home, m), a, b)
    ensures Before(BucketsBy(flight, home, n), a, b)
  {
    if m < n {
      var k: nat := n - 1;
      BucketsStay(flight, home, m, k, a, b);
      BeforeJoin(BucketsBy(flight, home, k), BucketBy(flight, home, k), a, b);
    }
  }

  lemma BucketsOrder(flight: seq<Flying>, n: nat, i: nat, j: nat)
    requires n > 0 && i < |flight| && j < |flight| && Behind(flight, HomeIn(n), i, j)
    ensures Before(Buckets(flight, n, n), flight[i], flight[j])
  {
    var home := HomeIn(n);
    var bi, bj := home(flight[i]), home(flight[j]);
    HomeBelow(flight[j], n);
    LastBucketOrder(flight, home, i, j, bi, bj);
    BucketsStay(flight, home, bj + 1, n, flight[i], flight[j]);
    SameBuckets(flight, n, n);
  }

  /** The requests are moved to the new table from the first bucket on, and each from its front. */
  lemma ResizeOrder(m: Model, maxInflight: int, n: nat, i: nat, j: nat)
    requires m.s.most >= 1 && i < |m.s.flight| && j < |m.s.flight| && n == (m.s.most + 4) / 5
    ensures n > 0 && (Behind(m.s.flight, HomeIn(n), i, j) ==> Before(Step(m, Resize(maxInflight)).s.flight, m.s.flight[i], m.s.flight[j]))
  {
    assert n == Heads(m.s.most);
    if Behind(m.s.flight, HomeIn(n), i, j) {
      BucketsOrder(m.s.flight, n, i, j);
    }
  }

  lemma {:induction false} LandedFewer(flight: seq<Flying>, id: nat)
    ensures |Landed(flight, id)| <= |flight|
  {
    if flight != [] {
      LandedFewer(flight[..|flight| - 1], id);
    }
  }

  /** No more requests are in flight than may be. */
  ghost predicate Bounded(m: Model, most: nat) {
    m.s.most == most && |m.s.flight| <= most
  }

  lemma StepBounded(m: Model, call: Call, most: nat)
    requires most >= 1 && Bounded(m, most) && !call.Resize?
    ensures Bounded(Step(m, call), most)
  {
    match call {
      case New(random) =>
      case Finish(id, random) =>
        LandedFewer(m.s.flight, id);
        var out := PumpMeans(m.s.(flight := Landed(m.s.flight, id)), random);
      case FinishQueued(k, random) =>
        if k < |m.s.queue| {
          var out := PumpMeans(m.s.(queue := Without(m.s.queue, k)), random);
        }
      case PumpQueue(random) =>
        var out := PumpMeans(m.s, random);
      case Clear =>
    }
  }

  /** In every run that does not change the maximum it is never passed. */
  lemma {:induction false} RunBounded(most: nat, calls: seq<Call>)
    requires most >= 1 && forall i :: 0 <= i < |calls| ==> !calls[i].Resize?
    ensures Bounded(Ran(most, calls), most)
  {
    if calls != [] {
      var n := |calls| - 1;
      RunBounded(most, calls[..n]);
      StepBounded(Ran(most, calls[..n]), calls[n], most);
    }
  }
}
