/** The requests of an evdns base as plain lists of numbers, and what every call makes of them. */
module DnsModel {
  import opened Lists

  const NO_ID: nat := 0xffff

  /** A request in flight: its transaction id, and its number in the order in which requests have been made. */
  datatype Flying = Flying(id: nat, num: nat)

  /** Those in flight, in the order in which they went out; those that wait; and how many may be in flight. */
  datatype State = State(flight: seq<Flying>, queue: seq<nat>, most: int)

  /** The size of the hash table. */
  function Heads(most: int): nat
    requires most >= 1
    ensures Heads(most) >= 1
  {
    (most + 4) / 5
  }

  ghost predicate Taken(flight: seq<Flying>, id: nat) {
    exists f :: f in flight && f.id == id
  }

  datatype Drawing = Nothing | Drawn(id: nat, left: seq<nat>)

  /** The first of the numbers that can be the id of another request, and those behind it. */
  ghost function Draw(flight: seq<Flying>, random: seq<nat>): Drawing {
    if random == [] then Nothing
    else if random[0] == NO_ID || Taken(flight, random[0]) then Draw(flight, random[1..])
    else Drawn(random[0], random[1..])
  }

  /** The first request of the queue has gone out. */
  ghost function Out(s: State, id: nat): State
    requires s.queue != []
  {
    State(s.flight + [Flying(id, s.queue[0])], s.queue[1..], s.most)
  }

  /** The requests at the front of the queue go out while there is room for them. */
  ghost function Pumped(s: State, random: seq<nat>): State
    decreases |s.queue|
  {
    if |s.flight| >= s.most || s.queue == [] then s
    else
      match Draw(s.flight, random)
      case Nothing => s
      case Drawn(id, left) => Pumped(Out(s, id), left)
  }

  /** Without the request that has this id. */
  ghost function Landed(flight: seq<Flying>, id: nat): seq<Flying> {
    if flight == [] then []
    else
      var n := |flight| - 1;
      Landed(flight[..n], id) + if flight[n].id == id then [] else [flight[n]]
  }

  ghost function NumOf(flight: seq<Flying>, id: nat): nat {
    if flight == [] then 0
    else
      var n := |flight| - 1;
      if flight[n].id == id then flight[n].num else NumOf(flight[..n], id)
  }

  /** The requests of one bucket of the table. */
  ghost function Bucket(flight: seq<Flying>, n: nat, b: nat): seq<Flying>
    requires n > 0
  {
    if flight == [] then []
    else
      var k := |flight| - 1;
      Bucket(flight[..k], n, b) + if flight[k].id % n == b then [flight[k]] else []
  }

  /** The first m buckets, one after the other. */
  ghost function Buckets(flight: seq<Flying>, n: nat, m: nat): seq<Flying>
    requires n > 0
  {
    if m == 0 then [] else Buckets(flight, n, m - 1) + Bucket(flight, n, m - 1)
  }

  /** The numbers, the last one first. */
  ghost function Backwards(flight: seq<Flying>): seq<nat> {
    if flight == [] then [] else [flight[|flight| - 1].num] + Backwards(flight[..|flight| - 1])
  }

  /** The first m buckets as they come to stand in the queue: the last one first, each from its end. */
  ghost function Backlogged(flight: seq<Flying>, n: nat, m: nat): seq<nat>
    requires n > 0
  {
    if m == 0 then [] else Backwards(Bucket(flight, n, m - 1)) + Backlogged(flight, n, m - 1)
  }

  /** What happens to a base: the numbers are those that drawing an id is given. */
  datatype Call =
    | New(random: seq<nat>)
    | Finish(id: nat, random: seq<nat>)
    | FinishQueued(k: nat, random: seq<nat>)
    | PumpQueue(random: seq<nat>)
    | Resize(maxInflight: int)
    | Clear

  /** A base, how many requests have been made for it, and those that have been finished. */
  datatype Model = Model(s: State, made: nat, finished: seq<nat>)

  ghost function Start(most: nat): Model {
    Model(State([], [], most), 0, [])
  }

  /** A new request goes out at once if there is room and an id for it, or waits. */
  ghost function Made(m: Model, random: seq<nat>): Model {
    var s := m.s;
    if |s.flight| >= s.most then Model(s.(queue := s.queue + [m.made]), m.made + 1, m.finished)
    else
      match Draw(s.flight, random)
      case Nothing => m
      case Drawn(id, _) => Model(s.(flight := s.flight + [Flying(id, m.made)]), m.made + 1, m.finished)
  }

  ghost function Resized(s: State, maxInflight: int): State
    requires s.most >= 1
    ensures Resized(s, maxInflight).most >= 1
  {
    var n := Heads(s.most);
    State(Buckets(s.flight, n, n), s.queue, if maxInflight < 1 then 1 else maxInflight)
  }

  ghost function Cleared(s: State): State
    requires s.most >= 1
  {
    var n := Heads(s.most);
    State([], Backlogged(s.flight, n, n) + s.queue, s.most)
  }

  ghost function Step(m: Model, call: Call): (r: Model)
    requires m.s.most >= 1
    ensures r.s.most >= 1
  {
    var s := m.s;
    match call
    case New(random) => Made(m, random)
    case Finish(id, random) =>
      if Taken(s.flight, id)
      then Model(PumpedMost(s.(flight := Landed(s.flight, id)), random), m.made, m.finished + [NumOf(s.flight, id)])
      else m
    case FinishQueued(k, random) =>
      if k < |s.queue|
      then Model(PumpedMost(s.(queue := Without(s.queue, k)), random), m.made, m.finished + [s.queue[k]])
      else m
    case PumpQueue(random) => m.(s := PumpedMost(s, random))
    case Resize(maxInflight) => m.(s := Resized(s, maxInflight))
    case Clear => m.(s := Cleared(s))
  }

  /** Pumping does not change how many may be in flight. */
  ghost function PumpedMost(s: State, random: seq<nat>): (r: State)
    ensures r == Pumped(s, random) && r.most == s.most
  {
    PumpKeepsMost(s, random);
    Pumped(s, random)
  }

  lemma {:induction false} PumpKeepsMost(s: State, random: seq<nat>)
    ensures Pumped(s, random).most == s.most
    decreases |s.queue|
  {
    if |s.flight| < s.most && s.queue != [] && Draw(s.flight, random).Drawn? {
      var d := Draw(s.flight, random);
      PumpKeepsMost(Out(s, d.id), d.left);
    }
  }

  /** After a run on a new base. */
  ghost function Ran(most: nat, calls: seq<Call>): (m: Model)
    requires most >= 1
    ensures m.s.most >= 1
  {
    if calls == [] then Start(most)
    else Step(Ran(most, calls[..|calls| - 1]), calls[|calls| - 1])
  }

  /** How often a number stands in a list. */
  ghost function Times(s: seq<nat>, num: nat): nat {
    if s == [] then 0 else Times(s[..|s| - 1], num) + if s[|s| - 1] == num then 1 else 0
  }

  /** How often a request is in flight, and an id. */
  ghost function Flies(flight: seq<Flying>, num: nat): nat {
    if flight == [] then 0 else Flies(flight[..|flight| - 1], num) + if flight[|flight| - 1].num == num then 1 else 0
  }

  ghost function Uses(flight: seq<Flying>, id: nat): nat {
    if flight == [] then 0 else Uses(flight[..|flight| - 1], id) + if flight[|flight| - 1].id == id then 1 else 0
  }

  /** No two requests in flight have the same id. */
  ghost predicate IdsDiffer(flight: seq<Flying>) {
    forall id: nat :: Uses(flight, id) <= 1
  }

  /** How often a request is with the base. */
  ghost function Holds(s: State, num: nat): nat {
    Flies(s.flight, num) + Times(s.queue, num)
  }

  /** Every request that has been made is in flight, waits or has been finished, and is so once; and there is no other. */
  ghost predicate Conserved(m: Model) {
    && (forall num: nat :: Holds(m.s, num) + Times(m.finished, num) == if num < m.made then 1 else 0)
    && IdsDiffer(m.s.flight)
  }

  lemma {:induction false} TimesJoin(a: seq<nat>, b: seq<nat>, num: nat)
    ensures Times(a + b, num) == Times(a, num) + Times(b, num)
  {
    if b == [] {
      assert a + b == a;
    } else {
      var n := |b| - 1;
      assert (a + b)[..|a| + n] == a + b[..n];
      TimesJoin(a, b[..n], num);
    }
  }

  lemma TimesOne(x: nat, num: nat)
    ensures Times([x], num) == if x == num then 1 else 0
  {
    assert [x][..0] == [];
  }

  lemma {:induction false} FliesJoin(a: seq<Flying>, b: seq<Flying>, num: nat)
    ensures Flies(a + b, num) == Flies(a, num) + Flies(b, num)
  {
    if b == [] {
      assert a + b == a;
    } else {
      var n := |b| - 1;
      assert (a + b)[..|a| + n] == a + b[..n];
      FliesJoin(a, b[..n], num);
    }
  }

  lemma {:induction false} UsesJoin(a: seq<Flying>, b: seq<Flying>, id: nat)
    ensures Uses(a + b, id) == Uses(a, id) + Uses(b, id)
  {
    if b == [] {
      assert a + b == a;
    } else {
      var n := |b| - 1;
      assert (a + b)[..|a| + n] == a + b[..n];
      UsesJoin(a, b[..n], id);
    }
  }

  lemma FlySnoc(flight: seq<Flying>, f: Flying, num: nat, id: nat)
    ensures Flies(flight + [f], num) == Flies(flight, num) + if f.num == num then 1 else 0
    ensures Uses(flight + [f], id) == Uses(flight, id) + if f.id == id then 1 else 0
  {
    assert (flight + [f])[..|flight|] == flight;
  }

  lemma {:induction false} TakenIsUsed(flight: seq<Flying>, id: nat)
    ensures Taken(flight, id) <==> Uses(flight, id) > 0
  {
    if flight != [] {
      var n := |flight| - 1;
      TakenIsUsed(flight[..n], id);
      assert flight == flight[..n] + [flight[n]];
      assert Taken(flight, id) <==> Taken(flight[..n], id) || flight[n].id == id;
    }
  }

  lemma {:induction false} DrawIsFree(flight: seq<Flying>, random: seq<nat>)
    ensures Draw(flight, random).Drawn? ==> !Taken(flight, Draw(flight, random).id) && Draw(flight, random).id != NO_ID
  {
    if random != [] {
      DrawIsFree(flight, random[1..]);
    }
  }

  /** Another request goes out, under an id that is free. */
  lemma OneMoreFlies(flight: seq<Flying>, f: Flying)
    requires IdsDiffer(flight) && !Taken(flight, f.id)
    ensures IdsDiffer(flight + [f])
    ensures forall num: nat :: Flies(flight + [f], num) == Flies(flight, num) + if f.num == num then 1 else 0
  {
    TakenIsUsed(flight, f.id);
    forall x: nat
      ensures Uses(flight + [f], x) <= 1
      ensures Flies(flight + [f], x) == Flies(flight, x) + if f.num == x then 1 else 0
    {
      FlySnoc(flight, f, x, x);
    }
  }

  lemma OutConserves(s: State, id: nat)
    requires s.queue != [] && IdsDiffer(s.flight) && !Taken(s.flight, id)
    ensures IdsDiffer(Out(s, id).flight) && forall num: nat :: Holds(Out(s, id), num) == Holds(s, num)
  {
    OneMoreFlies(s.flight, Flying(id, s.queue[0]));
    forall num: nat
      ensures Times(s.queue, num) == Times(s.queue[1..], num) + if s.queue[0] == num then 1 else 0
    {
      TimesJoin([s.queue[0]], s.queue[1..], num);
      TimesOne(s.queue[0], num);
      assert s.queue == [s.queue[0]] + s.queue[1..];
    }
  }

  lemma {:induction false} PumpConserves(s: State, random: seq<nat>)
    requires IdsDiffer(s.flight)
    ensures IdsDiffer(Pumped(s, random).flight) && forall num: nat :: Holds(Pumped(s, random), num) == Holds(s, num)
    decreases |s.queue|
  {
    if |s.flight| < s.most && s.queue != [] && Draw(s.flight, random).Drawn? {
      var d := Draw(s.flight, random);
      DrawIsFree(s.flight, random);
      OutConserves(s, d.id);
      PumpConserves(Out(s, d.id), d.left);
    }
  }

  /** Of the requests with an id, at most one, that one lands. */
  lemma {:induction false} LandedIsOne(flight: seq<Flying>, id: nat, num: nat, other: nat)
    requires Uses(flight, id) <= 1
    ensures Flies(flight, num) == Flies(Landed(flight, id), num) + if Uses(flight, id) == 1 && NumOf(flight, id) == num then 1 else 0
    ensures Uses(Landed(flight, id), other) == if other == id then 0 else Uses(flight, other)
  {
    if flight != [] {
      var n := |flight| - 1;
      var f, left := flight[n], Landed(flight[..n], id);
      LandedIsOne(flight[..n], id, num, other);
      if f.id == id {
        assert left + [] == left;
      } else {
        FlySnoc(left, f, num, other);
      }
    }
  }

  lemma {:induction false} BackwardsCount(flight: seq<Flying>, num: nat)
    ensures Times(Backwards(flight), num) == Flies(flight, num)
  {
    if flight != [] {
      var n := |flight| - 1;
      BackwardsCount(flight[..n], num);
      TimesJoin([flight[n].num], Backwards(flight[..n]), num);
      TimesOne(flight[n].num, num);
    }
  }

  /** How often a request is in a bucket, and an id. */
  ghost function FliesAt(flight: seq<Flying>, n: nat, b: nat, num: nat): nat
    requires n > 0
  {
    if flight == [] then 0
    else
      var f := flight[|flight| - 1];
      FliesAt(flight[..|flight| - 1], n, b, num) + if f.id % n == b && f.num == num then 1 else 0
  }

  ghost function UsesAt(flight: seq<Flying>, n: nat, b: nat, id: nat): nat
    requires n > 0
  {
    if flight == [] then 0
    else
      var f := flight[|flight| - 1];
      UsesAt(flight[..|flight| - 1], n, b, id) + if f.id % n == b && f.id == id then 1 else 0
  }

  lemma {:induction false} BucketCounted(flight: seq<Flying>, n: nat, b: nat, num: nat, id: nat)
    requires n > 0
    ensures Flies(Bucket(flight, n, b), num) == FliesAt(flight, n, b, num) && Uses(Bucket(flight, n, b), id) == UsesAt(flight, n, b, id)
  {
    if flight != [] {
      var rest, f := flight[..|flight| - 1], flight[|flight| - 1];
      BucketCounted(rest, n, b, num, id);
      if f.id % n == b {
        FlySnoc(Bucket(rest, n, b), f, num, id);
      } else {
        assert Bucket(rest, n, b) + [] == Bucket(rest, n, b);
      }
    }
  }

  /** How often a request is in the first m buckets, and an id. */
  ghost function FliesIn(flight: seq<Flying>, n: nat, m: nat, num: nat): nat
    requires n > 0
  {
    if m == 0 then 0 else FliesIn(flight, n, m - 1, num) + FliesAt(flight, n, m - 1, num)
  }

  ghost function UsesIn(flight: seq<Flying>, n: nat, m: nat, id: nat): nat
    requires n > 0
  {
    if m == 0 then 0 else UsesIn(flight, n, m - 1, id) + UsesAt(flight, n, m - 1, id)
  }

  lemma {:induction false} BucketsFly(flight: seq<Flying>, n: nat, m: nat, num: nat)
    requires n > 0
    ensures Flies(Buckets(flight, n, m), num) == FliesIn(flight, n, m, num)
  {
    if m > 0 {
      BucketsFly(flight, n, m - 1, num);
      BucketCounted(flight, n, m - 1, num, 0);
      FliesJoin(Buckets(flight, n, m - 1), Bucket(flight, n, m - 1), num);
    }
  }

  lemma {:induction false} BucketsUse(flight: seq<Flying>, n: nat, m: nat, id: nat)
    requires n > 0
    ensures Uses(Buckets(flight, n, m), id) == UsesIn(flight, n, m, id)
  {
    if m > 0 {
      BucketsUse(flight, n, m - 1, id);
      BucketCounted(flight, n, m - 1, 0, id);
      UsesJoin(Buckets(flight, n, m - 1), Bucket(flight, n, m - 1), id);
    }
  }

  lemma {:induction false} BacklogHolds(flight: seq<Flying>, n: nat, m: nat, num: nat)
    requires n > 0
    ensures Times(Backlogged(flight, n, m), num) == FliesIn(flight, n, m, num)
  {
    if m > 0 {
      var bucket := Bucket(flight, n, m - 1);
      BacklogHolds(flight, n, m - 1, num);
      BucketCounted(flight, n, m - 1, num, 0);
      BackwardsCount(bucket, num);
      TimesJoin(Backwards(bucket), Backlogged(flight, n, m - 1), num);
    }
  }

  /** The last request of the list is in one bucket, its home. */
  lemma {:induction false} BucketsSnoc(flight: seq<Flying>, n: nat, home: nat, m: nat, num: nat, id: nat)
    requires n > 0 && flight != [] && home == flight[|flight| - 1].id % n
    ensures var rest, f := flight[..|flight| - 1], flight[|flight| - 1];
      && FliesIn(flight, n, m, num) == FliesIn(rest, n, m, num) + (if home < m && f.num == num then 1 else 0)
      && UsesIn(flight, n, m, id) == UsesIn(rest, n, m, id) + (if home < m && f.id == id then 1 else 0)
  {
    if m > 0 {
      BucketsSnoc(flight, n, home, m - 1, num, id);
    }
  }

  lemma {:induction false} AllCounted(flight: seq<Flying>, n: nat, num: nat, id: nat)
    requires n > 0
    ensures FliesIn(flight, n, n, num) == Flies(flight, num) && UsesIn(flight, n, n, id) == Uses(flight, id)
  {
    if flight == [] {
      NoBuckets(n, n, num, id);
    } else {
      AllCounted(flight[..|flight| - 1], n, num, id);
      BucketsSnoc(flight, n, flight[|flight| - 1].id % n, n, num, id);
    }
  }

  lemma {:induction false} NoBuckets(n: nat, m: nat, num: nat, id: nat)
    requires n > 0
    ensures FliesIn([], n, m, num) == 0 && UsesIn([], n, m, id) == 0
  {
    if m > 0 {
      NoBuckets(n, m - 1, num, id);
    }
  }

  /** All buckets together hold the list, and so does the backlog that is made of them. */
  lemma BucketsHold(flight: seq<Flying>, n: nat, num: nat, id: nat)
    requires n > 0
    ensures Flies(Buckets(flight, n, n), num) == Times(Backlogged(flight, n, n), num) == Flies(flight, num)
    ensures Uses(Buckets(flight, n, n), id) == Uses(flight, id)
  {
    BucketsFly(flight, n, n, num);
    BucketsUse(flight, n, n, id);
    BacklogHolds(flight, n, n, num);
    AllCounted(flight, n, num, id);
  }

  lemma WithoutTimes(queue: seq<nat>, k: nat, num: nat)
    requires k < |queue|
    ensures Times(queue, num) == Times(Without(queue, k), num) + if queue[k] == num then 1 else 0
  {
    assert queue == queue[..k] + ([queue[k]] + queue[k + 1..]);
    TimesJoin(queue[..k], [queue[k]] + queue[k + 1..], num);
    TimesJoin([queue[k]], queue[k + 1..], num);
    TimesOne(queue[k], num);
    TimesJoin(queue[..k], queue[k + 1..], num);
  }

  lemma TimesSnoc(s: seq<nat>, x: nat)
    ensures forall num: nat :: Times(s + [x], num) == Times(s, num) + if x == num then 1 else 0
  {
    assert (s + [x])[..|s|] == s;
  }

  lemma MadeConserves(m: Model, random: seq<nat>)
    requires Conserved(m)
    ensures Conserved(Made(m, random))
  {
    if |m.s.flight| >= m.s.most {
      TimesSnoc(m.s.queue, m.made);
    } else if Draw(m.s.flight, random).Drawn? {
      DrawIsFree(m.s.flight, random);
      OneMoreFlies(m.s.flight, Flying(Draw(m.s.flight, random).id, m.made));
    }
  }

  lemma FinishConserves(m: Model, id: nat, random: seq<nat>)
    requires m.s.most >= 1 && Conserved(m)
    ensures Conserved(Step(m, Finish(id, random)))
  {
    var s := m.s;
    if Taken(s.flight, id) {
      var num, rest := NumOf(s.flight, id), s.(flight := Landed(s.flight, id));
      TakenIsUsed(s.flight, id);
      forall x: nat
        ensures Holds(s, x) == Holds(rest, x) + (if num == x then 1 else 0) && Uses(rest.flight, x) <= 1
      {
        LandedIsOne(s.flight, id, x, x);
      }
      PumpConserves(rest, random);
      TimesSnoc(m.finished, num);
    }
  }

  lemma FinishQueuedConserves(m: Model, k: nat, random: seq<nat>)
    requires m.s.most >= 1 && Conserved(m)
    ensures Conserved(Step(m, FinishQueued(k, random)))
  {
    var s := m.s;
    if k < |s.queue| {
      var num, rest := s.queue[k], s.(queue := Without(s.queue, k));
      forall x: nat
        ensures Holds(s, x) == Holds(rest, x) + if num == x then 1 else 0
      {
        WithoutTimes(s.queue, k, x);
      }
      PumpConserves(rest, random);
      TimesSnoc(m.finished, num);
    }
  }

  lemma ResizeConserves(m: Model, maxInflight: int)
    requires m.s.most >= 1 && Conserved(m)
    ensures Conserved(Step(m, Resize(maxInflight)))
  {
    var n := Heads(m.s.most);
    forall x: nat
      ensures Flies(Buckets(m.s.flight, n, n), x) == Flies(m.s.flight, x) && Uses(Buckets(m.s.flight, n, n), x) <= 1
    {
      BucketsHold(m.s.flight, n, x, x);
    }
  }

  lemma ClearConserves(m: Model)
    requires m.s.most >= 1 && Conserved(m)
    ensures Conserved(Step(m, Clear))
  {
    var n := Heads(m.s.most);
    forall x: nat
      ensures Holds(Cleared(m.s), x) == Holds(m.s, x)
    {
      BucketsHold(m.s.flight, n, x, x);
      TimesJoin(Backlogged(m.s.flight, n, n), m.s.queue, x);
    }
  }

  /** No call loses a request, or doubles one. */
  lemma StepConserves(m: Model, call: Call)
    requires m.s.most >= 1 && Conserved(m)
    ensures Conserved(Step(m, call))
  {
    match call {
      case New(random) => MadeConserves(m, random);
      case Finish(id, random) => FinishConserves(m, id, random);
      case FinishQueued(k, random) => FinishQueuedConserves(m, k, random);
      case PumpQueue(random) => PumpConserves(m.s, random);
      case Resize(maxInflight) => ResizeConserves(m, maxInflight);
      case Clear => ClearConserves(m);
    }
  }

  /** So after any run each request that has been made is in one place, and in one only. */
  lemma {:induction false} RunConserves(most: nat, calls: seq<Call>)
    requires most >= 1
    ensures Conserved(Ran(most, calls))
  {
    if calls != [] {
      RunConserves(most, calls[..|calls| - 1]);
      StepConserves(Ran(most, calls[..|calls| - 1]), calls[|calls| - 1]);
    }
  }

  /** The requests of the queue have been made in this order, and before number `made`. */
  ghost predicate InOrder(queue: seq<nat>, made: nat) {
    && (forall i, j :: 0 <= i < j < |queue| ==> queue[i] < queue[j])
    && (forall i :: 0 <= i < |queue| ==> queue[i] < made)
  }

  /** What pumping leaves is the end of the queue. */
  lemma {:induction false} PumpTakesFront(s: State, random: seq<nat>, made: nat)
    requires InOrder(s.queue, made)
    ensures InOrder(Pumped(s, random).queue, made)
    decreases |s.queue|
  {
    if |s.flight| < s.most && s.queue != [] && Draw(s.flight, random).Drawn? {
      var d := Draw(s.flight, random);
      PumpTakesFront(Out(s, d.id), d.left, made);
    }
  }

  lemma WithoutInOrder(queue: seq<nat>, k: nat, made: nat)
    requires InOrder(queue, made) && k < |queue|
    ensures InOrder(Without(queue, k), made)
  {
  }

  lemma StepInOrder(m: Model, call: Call)
    requires m.s.most >= 1 && InOrder(m.s.queue, m.made) && !call.Clear?
    ensures InOrder(Step(m, call).s.queue, Step(m, call).made)
  {
    var s := m.s;
    match call {
      case New(_) =>
      case Finish(id, random) => PumpTakesFront(s.(flight := Landed(s.flight, id)), random, m.made);
      case FinishQueued(k, random) =>
        if k < |s.queue| {
          WithoutInOrder(s.queue, k, m.made);
          PumpTakesFront(s.(queue := Without(s.queue, k)), random, m.made);
        }
      case PumpQueue(random) => PumpTakesFront(s, random, m.made);
      case Resize(_) =>
    }
  }

  /** As long as the base is not cleared, requests wait, and go out, in the order in which they have been made. */
  lemma {:induction false} RunInOrder(most: nat, calls: seq<Call>)
    requires most >= 1 && forall i :: 0 <= i < |calls| ==> !calls[i].Clear?
    ensures InOrder(Ran(most, calls).s.queue, Ran(most, calls).made)
  {
    if calls != [] {
      RunInOrder(most, calls[..|calls| - 1]);
      StepInOrder(Ran(most, calls[..|calls| - 1]), calls[|calls| - 1]);
    }
  }
}
