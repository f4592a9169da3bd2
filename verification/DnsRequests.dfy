/** The requests of an evdns base: a table of those in flight, by transaction id, and a queue of those that wait. */
module DnsRequests {
  import opened DnsModel
  import opened DnsRings
  import opened Lists

  /** The ring of bucket b, out of n, holds requests whose ids belong there. */
  ghost predicate RingOk(head: Request?, ring: seq<Request>, n: nat, b: nat)
    requires n > 0
    reads Members(ring)`next, Members(ring)`prev, Members(ring)`home, Members(ring)`transId
  {
    Ring(head, ring, b) && forall r {:trigger r in ring} :: r in ring ==> r.transId % n == b
  }

  /** Everything of a bucket: its ring, and that its requests are in flight. */
  ghost predicate BucketOk(heads: seq<Request?>, rings: seq<seq<Request>>, live: set<Request>, b: nat)
    requires b < |heads| == |rings|
    reads Members(rings[b])`next, Members(rings[b])`prev, Members(rings[b])`home, Members(rings[b])`transId
  {
    Members(rings[b]) <= live && RingOk(heads[b], rings[b], |heads|, b)
  }

  /** The requests in flight: each is in the ring of its bucket, and no two have the same id. */
  ghost predicate LiveOk(rings: seq<seq<Request>>, live: set<Request>)
    reads live`home, live`transId
  {
    && (forall r {:trigger r in live} :: r in live ==> 0 <= r.home < |rings| && r in rings[r.home])
    && (forall r, s {:trigger r in live, s in live} :: r in live && s in live && r.transId == s.transId ==> r == s)
  }

  ghost predicate TableOk(heads: seq<Request?>, rings: seq<seq<Request>>, live: set<Request>)
    reads live`next, live`prev, live`home, live`transId
  {
    && |heads| == |rings| > 0
    && (forall b: nat {:trigger BucketOk(heads, rings, live, b)} {:trigger rings[b]} :: b < |heads| ==>
          Members(rings[b]) <= live && BucketOk(heads, rings, live, b))
    && LiveOk(rings, live)
  }

  /** An id that no request in flight has. */
  ghost predicate Unused(live: set<Request>, id: nat)
    reads live`transId
  {
    forall r {:trigger r in live} :: r in live ==> r.transId != id
  }

  /** A bucket gets a request, at its end. */
  ghost function Entered(rings: seq<seq<Request>>, req: Request): seq<seq<Request>>
    requires |rings| > 0
    reads req`transId
  {
    var b := req.transId % |rings|;
    rings[b := rings[b] + [req]]
  }

  /** And loses it. */
  ghost function Departed(rings: seq<seq<Request>>, req: Request): seq<seq<Request>>
    requires |rings| > 0
    reads req`transId
  {
    var b := req.transId % |rings|;
    rings[b := Minus(rings[b], req)]
  }

  lemma LiveGrows(rings: seq<seq<Request>>, live: set<Request>, req: Request, b: nat)
    requires LiveOk(rings, live) && b < |rings| && req.home == b && Unused(live, req.transId)
    ensures LiveOk(rings[b := rings[b] + [req]], live + {req})
  {
    var all := rings[b] + [req];
    assert all[|rings[b]|] == req;
    assert forall r :: r in rings[b] ==> r in all;
  }

  /** evdns_request_insert into the bucket of the request's id. */
  method InsertInTable(heads: seq<Request?>, ghost rings: seq<seq<Request>>, ghost live: set<Request>, req: Request)
    returns (heads': seq<Request?>, ghost rings': seq<seq<Request>>)
    requires TableOk(heads, rings, live) && req.home == NOWHERE && Unused(live, req.transId)
    modifies req`next, req`prev, req`home, live`next, live`prev
    ensures TableOk(heads', rings', live + {req}) && |heads'| == |heads| && rings' == Entered(rings, req)
  {
    var b := req.transId % |heads|;
    assert BucketOk(heads, rings, live, b);
    var head := Insert(req, heads[b], rings[b], b);
    heads', rings' := heads[b := head], rings[b := rings[b] + [req]];
    assert LiveOk(rings, live);
    LiveGrows(rings, live, req, b);
    forall c: nat | c < |heads|
      ensures BucketOk(heads', rings', live + {req}, c)
    {
      assert old(BucketOk(heads, rings, live, c));
      assert c != b ==> RingOk(heads[c], rings[c], |heads|, c);
    }
  }

  lemma LiveShrinks(rings: seq<seq<Request>>, live: set<Request>, req: Request, b: nat, k: nat)
    requires b < |rings| && k < |rings[b]| && rings[b][k] == req && Distinct(rings[b])
    requires forall r {:trigger r in live} :: r in live && r != req ==> 0 <= r.home < |rings| && r in rings[r.home]
    requires forall r, s {:trigger r in live, s in live} :: r in live && s in live && r.transId == s.transId ==> r == s
    ensures LiveOk(rings[b := Without(rings[b], k)], live - {req})
  {
    WithoutMeans(rings[b], k);
    forall r | r in live - {req}
      ensures r in rings[b := Without(rings[b], k)][r.home]
    {
      assert r in live;
      if r.home == b {
        assert r in Members(rings[b]) - {req};
      }
    }
  }

  /** Buckets that do not hold a request do not notice that it goes. */
  lemma OtherBuckets(heads: seq<Request?>, rings: seq<seq<Request>>, live: set<Request>, req: Request, b: nat)
    requires TableOk(heads, rings, live) && req in live && b == req.home
    ensures forall c {:trigger rings[c]} :: 0 <= c < |heads| && c != b ==> req !in rings[c] && Members(rings[c]) !! Members(rings[b])
  {
    forall c {:trigger rings[c]} | 0 <= c < |heads| && c != b
      ensures req !in rings[c] && Members(rings[c]) !! Members(rings[b])
    {
      assert BucketOk(heads, rings, live, c) && BucketOk(heads, rings, live, b);
    }
  }

  lemma RingShrinks(head: Request?, rs: seq<Request>, k: nat, n: nat, b: nat)
    requires n > 0 && k < |rs| && Distinct(rs) && Ring(head, Without(rs, k), b)
    requires forall r {:trigger r in rs} :: r in rs ==> r.transId % n == b
    ensures RingOk(head, Without(rs, k), n, b) && Members(Without(rs, k)) == Members(rs) - {rs[k]}
  {
    WithoutMeans(rs, k);
    forall r | r in Without(rs, k)
      ensures r.transId % n == b
    {
      assert r in Members(Without(rs, k)) && r in rs;
    }
  }

  /** Where a request in flight is. */
  lemma PlaceOf(heads: seq<Request?>, rings: seq<seq<Request>>, live: set<Request>, req: Request) returns (k: nat)
    requires TableOk(heads, rings, live) && req in live
    ensures var b := req.transId % |heads|;
      req.home == b && k < |rings[b]| && rings[b][k] == req && Distinct(rings[b]) && Minus(rings[b], req) == Without(rings[b], k)
  {
    assert BucketOk(heads, rings, live, req.home);
    k :| 0 <= k < |rings[req.home]| && rings[req.home][k] == req;
    MinusIsWithout(rings[req.home], k);
  }

  /** evdns_request_remove of request number k of bucket b. */
  method TakeOut(heads: seq<Request?>, ghost rings: seq<seq<Request>>, ghost live: set<Request>, req: Request, b: nat, ghost k: nat)
    returns (heads': seq<Request?>, ghost rings': seq<seq<Request>>)
    requires TableOk(heads, rings, live) && req in live && b == req.transId % |heads| == req.home
    requires k < |rings[b]| && rings[b][k] == req && Distinct(rings[b])
    modifies req`home, live`next, live`prev
    ensures TableOk(heads', rings', live - {req}) && |heads'| == |heads| && rings' == rings[b := Without(rings[b], k)]
    ensures forall c :: 0 <= c < |heads| && c != b ==> heads'[c] == heads[c]
    ensures req.home == NOWHERE && req.next == null && req.prev == null
  {
    assert BucketOk(heads, rings, live, b);
    WithoutMeans(rings[b], k);
    OtherBuckets(heads, rings, live, req, b);
    var head := Remove(req, heads[b], rings[b], k, b);
    heads', rings' := heads[b := head], rings[b := Without(rings[b], k)];
    RingShrinks(head, rings[b], k, |heads|, b);
    LiveShrinks(rings, live, req, b, k);
    ghost var rest := live - {req};
    forall c: nat | c < |heads|
      ensures BucketOk(heads', rings', rest, c)
    {
      assert old(BucketOk(heads, rings, live, c));
      if c != b {
        assert heads'[c] == heads[c] && rings'[c] == rings[c] && req !in rings[c];
        assert RingOk(heads[c], rings[c], |heads|, c);
      }
    }
  }

  /** evdns_request_remove from the bucket of the request's id. */
  method RemoveFromTable(heads: seq<Request?>, ghost rings: seq<seq<Request>>, ghost live: set<Request>, req: Request)
    returns (heads': seq<Request?>, ghost rings': seq<seq<Request>>)
    requires TableOk(heads, rings, live) && req in live
    modifies req`home, live`next, live`prev
    ensures TableOk(heads', rings', live - {req}) && |heads'| == |heads| && rings' == Departed(rings, req)
    ensures forall c :: 0 <= c < |heads| && c != req.transId % |heads| ==> heads'[c] == heads[c]
    ensures req.home == NOWHERE && req.next == null && req.prev == null
  {
    ghost var k := PlaceOf(heads, rings, live, req);
    heads', rings' := TakeOut(heads, rings, live, req, req.transId % |heads|, k);
  }

  /** request_find_from_trans_id. */
  method FindFromTransId(heads: seq<Request?>, ghost rings: seq<seq<Request>>, ghost live: set<Request>, id: nat) returns (req: Request?)
    requires TableOk(heads, rings, live)
    ensures req == null <==> Unused(live, id)
    ensures req != null ==> req in live && req.transId == id
  {
    var b := id % |heads|;
    assert BucketOk(heads, rings, live, b);
    var startedAt := heads[b];
    req := startedAt;
    if req == null {
      NotInBucket(heads, rings, live, id, b);
      return;
    }
    ghost var k: nat := 0;
    while true
      invariant k < |rings[b]| && req == rings[b][k]
      invariant forall i :: 0 <= i < k ==> rings[b][i].transId != id
      decreases |rings[b]| - k
    {
      assert req in rings[b];
      if req.transId == id {
        assert req in live;
        return;
      }
      assert LinkedAt(rings[b], k);
      Alone(rings[b], 0);
      req, k := req.next, k + 1;
      if req == startedAt {
        break;
      }
    }
    NotInBucket(heads, rings, live, id, b);
    req := null;
  }

  lemma NotInBucket(heads: seq<Request?>, rings: seq<seq<Request>>, live: set<Request>, id: nat, b: nat)
    requires TableOk(heads, rings, live) && b == id % |heads|
    requires forall i :: 0 <= i < |rings[b]| ==> rings[b][i].transId != id
    ensures Unused(live, id)
  {
    forall r | r in live
      ensures r.transId != id
    {
      assert BucketOk(heads, rings, live, r.home);
    }
  }

  /** struct evdns_base, as far as its requests go. */
  class DnsBase {
    var reqHeads: seq<Request?>
    var waitingHead: Request?
    var inflight: int
    var waiting: int
    var maxInflight: int

    constructor (most: nat)
      requires most >= 1
      ensures Valid(this, seq(|reqHeads|, _ => []), {}, []) && maxInflight == most
    {
      var n := (most + 4) / 5;
      reqHeads, waitingHead, inflight, waiting, maxInflight := seq(n, _ => null), null, 0, 0, most;
    }
  }

  /** `base` has the requests `live` in flight, in the rings `rings`; and those in `queue` wait, first come first. */
  ghost predicate Valid(base: DnsBase, rings: seq<seq<Request>>, live: set<Request>, queue: seq<Request>)
    reads base, live`next, live`prev, live`home, live`transId, Members(queue)`next, Members(queue)`prev, Members(queue)`home
  {
    && TableOk(base.reqHeads, rings, live)
    && Ring(base.waitingHead, queue, WAITING)
    && base.inflight == |live| && base.waiting == |queue|
    && base.maxInflight >= 1 && |base.reqHeads| == Heads(base.maxInflight)
  }

  lemma QueueApart(base: DnsBase, rings: seq<seq<Request>>, live: set<Request>, queue: seq<Request>)
    requires Valid(base, rings, live, queue)
    ensures Members(queue) !! live
  {
    forall r: Request | r in queue
      ensures r !in live
    {
      assert r.home == WAITING;
    }
  }

  /** transaction_id_pick: the first of the numbers drawn that is free. The model stops when it has no more numbers. */
  method TransactionIdPick(base: DnsBase, ghost rings: seq<seq<Request>>, ghost live: set<Request>, random: seq<nat>)
    returns (found: bool, id: nat, left: seq<nat>)
    requires TableOk(base.reqHeads, rings, live)
    ensures found ==> id != NO_ID && Unused(live, id) && |left| < |random|
    ensures found ==> id == random[|random| - |left| - 1] && left == random[|random| - |left|..]
    ensures forall i :: 0 <= i < |random| - |left| - (if found then 1 else 0) ==> random[i] == NO_ID || !Unused(live, random[i])
    ensures !found ==> left == []
  {
    for i := 0 to |random|
      invariant forall j :: 0 <= j < i ==> random[j] == NO_ID || !Unused(live, random[j])
    {
      if random[i] == NO_ID {
        continue;
      }
      var taken := FindFromTransId(base.reqHeads, rings, live, random[i]);
      if taken == null {
        return true, random[i], random[i + 1..];
      }
    }
    found, id, left := false, 0, [];
  }

  /** The queue does not notice. */
  method InsertBeside(base: DnsBase, ghost rings: seq<seq<Request>>, ghost live: set<Request>, ghost queue: seq<Request>, req: Request)
    returns (heads: seq<Request?>, ghost rings': seq<seq<Request>>)
    requires Valid(base, rings, live, queue) && req.home == NOWHERE && Unused(live, req.transId)
    modifies req`next, req`prev, req`home, live`next, live`prev
    ensures TableOk(heads, rings', live + {req}) && |heads| == |base.reqHeads| && rings' == Entered(rings, req)
    ensures Ring(base.waitingHead, queue, WAITING)
  {
    assert req !in live && req !in queue;
    QueueApart(base, rings, live, queue);
    heads, rings' := InsertInTable(base.reqHeads, rings, live, req);
  }

  /** Into the table of the requests in flight. */
  method EnterTable(base: DnsBase, ghost rings: seq<seq<Request>>, ghost live: set<Request>, ghost queue: seq<Request>, req: Request)
    returns (ghost rings': seq<seq<Request>>)
    requires Valid(base, rings, live, queue) && req.home == NOWHERE && Unused(live, req.transId)
    modifies base`reqHeads, base`inflight, req`next, req`prev, req`home, live`next, live`prev
    ensures Valid(base, rings', live + {req}, queue) && rings' == Entered(rings, req)
  {
    assert req !in live && |live + {req}| == |live| + 1;
    var heads;
    heads, rings' := InsertBeside(base, rings, live, queue, req);
    base.reqHeads := heads;
    base.inflight := base.inflight + 1;
    assert TableOk(base.reqHeads, rings', live + {req});
  }

  /** To the end of the queue. */
  method EnterQueue(base: DnsBase, ghost rings: seq<seq<Request>>, ghost live: set<Request>, ghost queue: seq<Request>, req: Request)
    requires Valid(base, rings, live, queue) && req.home == NOWHERE
    modifies base`waitingHead, base`waiting, req`next, req`prev, req`home, Members(queue)`next, Members(queue)`prev
    ensures Valid(base, rings, live, queue + [req])
  {
    assert req !in live && req !in queue;
    QueueApart(base, rings, live, queue);
    base.waitingHead := Insert(req, base.waitingHead, queue, WAITING);
    base.waiting := base.waiting + 1;
  }

  /** request_submit: straight into the table if a nameserver has been assigned, or to the end of the queue. */
  method Submit(base: DnsBase, ghost rings: seq<seq<Request>>, ghost live: set<Request>, ghost queue: seq<Request>, req: Request)
    returns (ghost rings': seq<seq<Request>>, ghost live': set<Request>, ghost queue': seq<Request>)
    requires Valid(base, rings, live, queue) && req.home == NOWHERE
    requires req.hasServer ==> Unused(live, req.transId)
    modifies base, req`next, req`prev, req`home, live`next, live`prev, Members(queue)`next, Members(queue)`prev
    ensures Valid(base, rings', live', queue') && base.maxInflight == old(base.maxInflight)
    ensures if req.hasServer then live' == live + {req} && queue' == queue && rings' == Entered(rings, req)
            else live' == live && queue' == queue + [req] && rings' == rings
  {
    rings', live', queue' := rings, live, queue;
    if req.hasServer {
      rings' := EnterTable(base, rings, live, queue, req);
      live' := live + {req};
    } else {
      EnterQueue(base, rings, live, queue, req);
      queue' := queue + [req];
    }
  }

  /** A request leaves the table. */
  method LeaveTable(base: DnsBase, ghost rings: seq<seq<Request>>, ghost live: set<Request>, ghost queue: seq<Request>, req: Request)
    returns (ghost rings': seq<seq<Request>>)
    requires Valid(base, rings, live, queue) && req in live
    modifies base`reqHeads, base`inflight, req`home, live`next, live`prev
    ensures Valid(base, rings', live - {req}, queue) && req.home == NOWHERE && rings' == Departed(rings, req)
  {
    QueueApart(base, rings, live, queue);
    var heads;
    heads, rings' := RemoveFromTable(base.reqHeads, rings, live, req);
    assert Ring(base.waitingHead, queue, WAITING);
    base.reqHeads := heads;
    base.inflight := base.inflight - 1;
  }

  /** A request leaves the queue. */
  method LeaveQueue(base: DnsBase, ghost rings: seq<seq<Request>>, ghost live: set<Request>, ghost queue: seq<Request>, req: Request, ghost k: nat)
    requires Valid(base, rings, live, queue) && k < |queue| && req == queue[k]
    modifies base`waitingHead, base`waiting, req`home, Members(queue)`next, Members(queue)`prev
    ensures Valid(base, rings, live, Without(queue, k)) && req.home == NOWHERE && req !in live
  {
    QueueApart(base, rings, live, queue);
    assert req in Members(queue);
    base.waitingHead := Remove(req, base.waitingHead, queue, k, WAITING);
    base.waiting := base.waiting - 1;
  }

  /** One round of evdns_requests_pump_waiting_queue: the first request of the queue goes out under a new id. */
  method Promote(base: DnsBase, ghost rings: seq<seq<Request>>, ghost live: set<Request>, ghost queue: seq<Request>, req: Request, id: nat)
    returns (ghost rings': seq<seq<Request>>)
    requires Valid(base, rings, live, queue) && queue != [] && req == queue[0] && Unused(live, id)
    modifies base`reqHeads, base`inflight, base`waitingHead, base`waiting, live`next, live`prev
    modifies Members(queue)`next, Members(queue)`prev, req`home, req`transId, req`hasServer
    ensures Valid(base, rings', live + {req}, queue[1..]) && req.transId == id && req.hasServer && rings' == Entered(rings, req)
  {
    assert Without(queue, 0) == queue[1..] && req in Members(queue);
    LeaveQueue(base, rings, live, queue, req, 0);
    req.transId := id;
    req.hasServer := true;
    rings' := EnterTable(base, rings, live, queue[1..], req);
  }

  /** Those of some requests that belong in bucket b. */
  ghost function InBucket(fs: seq<Request>, n: nat, b: nat): seq<Request>
    requires n > 0
    reads Members(fs)`transId
  {
    if fs == [] then []
    else
      var r := fs[|fs| - 1];
      InBucket(fs[..|fs| - 1], n, b) + if r.transId % n == b then [r] else []
  }

  /** `fs` are the requests in flight, in the order in which they went out; every bucket keeps to that order. */
  ghost predicate Listed(rings: seq<seq<Request>>, live: set<Request>, fs: seq<Request>)
    reads Members(fs)`transId
  {
    && Members(fs) == live && Distinct(fs) && |rings| > 0
    && forall b: nat {:trigger rings[b]} :: b < |rings| ==> rings[b] == InBucket(fs, |rings|, b)
  }

  /** Ids and numbers of requests in flight. */
  ghost function Flights(fs: seq<Request>): seq<Flying>
    reads Members(fs)`transId
  {
    if fs == [] then []
    else
      var r := fs[|fs| - 1];
      Flights(fs[..|fs| - 1]) + [Flying(r.transId, r.num)]
  }

  ghost function Numbers(rs: seq<Request>): seq<nat> {
    seq(|rs|, i requires 0 <= i < |rs| => rs[i].num)
  }

  /** The base as plain lists. */
  ghost function View(base: DnsBase, fs: seq<Request>, queue: seq<Request>): State
    reads base`maxInflight, Members(fs)`transId
  {
    State(Flights(fs), Numbers(queue), base.maxInflight)
  }

  lemma FlightsSnoc(fs: seq<Request>, req: Request)
    ensures Flights(fs + [req]) == Flights(fs) + [Flying(req.transId, req.num)]
  {
    assert (fs + [req])[..|fs|] == fs;
  }

  lemma {:induction false} FlightsMean(fs: seq<Request>, id: nat)
    ensures |Flights(fs)| == |fs| && (Taken(Flights(fs), id) <==> !Unused(Members(fs), id))
  {
    if fs != [] {
      var n := |fs| - 1;
      var rest, r := Flights(fs[..n]), Flying(fs[n].transId, fs[n].num);
      FlightsMean(fs[..n], id);
      assert Taken(rest + [r], id) <==> Taken(rest, id) || r.id == id;
      assert fs == fs[..n] + [fs[n]];
      assert Members(fs) == Members(fs[..n]) + {fs[n]};
      assert Unused(Members(fs), id) <==> Unused(Members(fs[..n]), id) && fs[n].transId != id;
    }
  }

  lemma {:induction false} LandedNone(flight: seq<Flying>, id: nat)
    requires !Taken(flight, id)
    ensures Landed(flight, id) == flight
  {
    if flight != [] {
      var n := |flight| - 1;
      var rest, f := flight[..n], flight[n];
      assert flight == rest + [f];
      assert f in flight && (Taken(rest, id) ==> Taken(flight, id));
      LandedNone(rest, id);
    }
  }

  lemma RestIds(fs: seq<Request>)
    requires fs != [] && Distinct(fs) && DistinctIds(Members(fs))
    ensures var n := |fs| - 1;
      && Distinct(fs[..n]) && fs[n] !in fs[..n] && Members(fs[..n]) <= Members(fs)
      && DistinctIds(Members(fs[..n])) && Unused(Members(fs[..n]), fs[n].transId)
  {
    var n := |fs| - 1;
    DistinctPrefix(fs, n);
    assert fs[n] in Members(fs);
    assert forall r :: r in fs[..n] ==> r in Members(fs);
  }

  /** When no two ids are the same, the request that lands is the one with the id. */
  lemma {:induction false} LandedIs(fs: seq<Request>, req: Request)
    requires req in fs && Distinct(fs) && DistinctIds(Members(fs))
    ensures Flights(Minus(fs, req)) == Landed(Flights(fs), req.transId)
    ensures Taken(Flights(fs), req.transId) && NumOf(Flights(fs), req.transId) == req.num
  {
    var n := |fs| - 1;
    var rest := fs[..n];
    var x := fs[n];
    FlightsMean(fs, req.transId);
    RestIds(fs);
    assert req in Members(fs) && (req == x || req in rest);
    if x == req {
      FlightsMean(rest, req.transId);
      LandedNone(Flights(rest), req.transId);
      MinusAbsent(rest, req);
      assert Flights(rest) + [] == Flights(rest) && rest + [] == rest;
    } else {
      assert req in Members(rest) && x.transId != req.transId;
      LandedIs(rest, req);
      FlightsSnoc(Minus(rest, req), x);
    }
  }

  lemma BucketSnoc(fs: seq<Request>, n: nat, b: nat, req: Request)
    requires n > 0
    ensures InBucket(fs + [req], n, b) == if req.transId % n == b then InBucket(fs, n, b) + [req] else InBucket(fs, n, b)
  {
    assert (fs + [req])[..|fs|] == fs;
    assert InBucket(fs, n, b) + [] == InBucket(fs, n, b);
  }

  lemma {:induction false} BucketMinus(fs: seq<Request>, req: Request, n: nat, b: nat)
    requires n > 0
    ensures InBucket(Minus(fs, req), n, b) == Minus(InBucket(fs, n, b), req)
  {
    if fs != [] {
      var k := |fs| - 1;
      var r, rest := fs[k], fs[..k];
      BucketMinus(rest, req, n, b);
      assert fs == rest + [r];
      MinusSnoc(rest, r, req);
      BucketSnoc(rest, n, b, r);
      BucketSnoc(Minus(rest, req), n, b, r);
      MinusSnoc(InBucket(rest, n, b), r, req);
    }
  }

  lemma {:induction false} BucketHas(fs: seq<Request>, n: nat, b: nat, req: Request)
    requires n > 0
    ensures req in InBucket(fs, n, b) <==> req in fs && req.transId % n == b
  {
    if fs != [] {
      BucketHas(fs[..|fs| - 1], n, b, req);
      assert fs == fs[..|fs| - 1] + [fs[|fs| - 1]];
    }
  }

  /** A request goes out. */
  lemma Enters(rings: seq<seq<Request>>, live: set<Request>, fs: seq<Request>, req: Request)
    requires Listed(rings, live, fs) && req !in fs
    ensures Listed(Entered(rings, req), live + {req}, fs + [req])
  {
    var all := Entered(rings, req);
    DistinctSnoc(fs, req);
    assert Members(fs + [req]) == live + {req};
    forall b: nat | b < |all|
      ensures all[b] == InBucket(fs + [req], |all|, b)
    {
      BucketSnoc(fs, |all|, b, req);
      assert rings[b] == InBucket(fs, |rings|, b);
    }
  }

  /** A request is back. */
  lemma Departs(rings: seq<seq<Request>>, live: set<Request>, fs: seq<Request>, req: Request)
    requires Listed(rings, live, fs) && req in fs
    ensures Listed(Departed(rings, req), live - {req}, Minus(fs, req))
  {
    var left := Departed(rings, req);
    var k :| 0 <= k < |fs| && fs[k] == req;
    MinusIsWithout(fs, k);
    WithoutMeans(fs, k);
    forall b: nat | b < |left|
      ensures left[b] == InBucket(Minus(fs, req), |left|, b)
    {
      BucketMinus(fs, req, |left|, b);
      assert rings[b] == InBucket(fs, |rings|, b);
      if req.transId % |left| != b {
        BucketHas(fs, |left|, b, req);
        MinusAbsent(rings[b], req);
      }
    }
  }

  /** What transaction_id_pick has found is what Draw says. */
  lemma {:induction false} DrawIs(flight: seq<Flying>, random: seq<nat>, k: nat, found: bool)
    requires if found then k < |random| && random[k] != NO_ID && !Taken(flight, random[k]) else k == |random|
    requires forall i :: 0 <= i < k ==> random[i] == NO_ID || Taken(flight, random[i])
    ensures Draw(flight, random) == if found then Drawn(random[k], random[k + 1..]) else Nothing
  {
    if k > 0 {
      assert random[0] == NO_ID || Taken(flight, random[0]);
      forall i | 0 <= i < k - 1
        ensures random[1..][i] == NO_ID || Taken(flight, random[1..][i])
      {
        assert random[1..][i] == random[i + 1];
      }
      DrawIs(flight, random[1..], k - 1, found);
      assert found ==> random[1..][k..] == random[k + 1..];
    }
  }

  ghost predicate DistinctIds(live: set<Request>)
    reads live`transId
  {
    forall r, s {:trigger r in live, s in live} :: r in live && s in live && r.transId == s.transId ==> r == s
  }

  /** transaction_id_pick, for the requests in flight as a list. */
  method PickFrom(base: DnsBase, ghost rings: seq<seq<Request>>, ghost live: set<Request>, ghost fs: seq<Request>, random: seq<nat>)
    returns (found: bool, id: nat, left: seq<nat>)
    requires TableOk(base.reqHeads, rings, live) && Members(fs) == live
    ensures found ==> Unused(live, id)
    ensures Draw(Flights(fs), random) == if found then Drawn(id, left) else Nothing
  {
    found, id, left := TransactionIdPick(base, rings, live, random);
    ghost var k := |random| - |left| - if found then 1 else 0;
    forall i | 0 <= i < k
      ensures random[i] == NO_ID || Taken(Flights(fs), random[i])
    {
      FlightsMean(fs, random[i]);
    }
    if found {
      FlightsMean(fs, id);
    }
    DrawIs(Flights(fs), random, k, found);
  }

  lemma NumbersTail(queue: seq<Request>)
    requires queue != []
    ensures Numbers(queue)[0] == queue[0].num && Numbers(queue)[1..] == Numbers(queue[1..])
  {
  }

  /** The first request goes out under this id. */
  method GoOut(base: DnsBase, ghost rings: seq<seq<Request>>, ghost live: set<Request>, ghost queue: seq<Request>, ghost fs: seq<Request>, id: nat)
    returns (ghost rings': seq<seq<Request>>)
    requires Valid(base, rings, live, queue) && Listed(rings, live, fs) && queue != [] && Unused(live, id)
    modifies base`reqHeads, base`inflight, base`waitingHead, base`waiting, live`next, live`prev
    modifies Members(queue)`next, Members(queue)`prev, Members(queue)`home, Members(queue)`transId, Members(queue)`hasServer
    ensures Valid(base, rings', live + {queue[0]}, queue[1..]) && Listed(rings', live + {queue[0]}, fs + [queue[0]])
    ensures Flights(fs + [queue[0]]) == old(Flights(fs)) + [Flying(id, queue[0].num)]
  {
    var req: Request := base.waitingHead;
    QueueApart(base, rings, live, queue);
    assert req in Members(queue) && req !in live;
    rings' := Promote(base, rings, live, queue, req, id);
    EntersLast(rings, live, fs, req);
  }

  lemma EntersLast(rings: seq<seq<Request>>, live: set<Request>, fs: seq<Request>, req: Request)
    requires Listed(rings, live, fs) && req !in live
    ensures Listed(Entered(rings, req), live + {req}, fs + [req])
    ensures Flights(fs + [req]) == Flights(fs) + [Flying(req.transId, req.num)]
  {
    assert req !in fs;
    Enters(rings, live, fs, req);
    FlightsSnoc(fs, req);
  }

  /** A round: an id is drawn, and if there is one the first request goes out. */
  method PumpOnce(base: DnsBase, ghost rings: seq<seq<Request>>, ghost live: set<Request>, ghost queue: seq<Request>, ghost fs: seq<Request>,
                  random: seq<nat>)
    returns (found: bool, ghost id: nat, left: seq<nat>, ghost rings': seq<seq<Request>>)
    requires Valid(base, rings, live, queue) && Listed(rings, live, fs) && queue != []
    modifies base`reqHeads, base`inflight, base`waitingHead, base`waiting, live`next, live`prev
    modifies Members(queue)`next, Members(queue)`prev, Members(queue)`home, Members(queue)`transId, Members(queue)`hasServer
    ensures !found ==> Draw(old(Flights(fs)), random) == Nothing && Valid(base, rings, live, queue) && Listed(rings, live, fs)
                       && Flights(fs) == old(Flights(fs))
    ensures found ==>
      && Draw(old(Flights(fs)), random) == Drawn(id, left)
      && Valid(base, rings', live + {queue[0]}, queue[1..]) && Listed(rings', live + {queue[0]}, fs + [queue[0]])
      && View(base, fs + [queue[0]], queue[1..]) == Out(old(View(base, fs, queue)), id)
  {
    var num;
    found, num, left := PickFrom(base, rings, live, fs, random);
    id, rings' := num, rings;
    if found {
      NumbersTail(queue);
      rings' := GoOut(base, rings, live, queue, fs, num);
    }
  }

  /** The first n requests of the queue have gone out, behind those that were in flight. */
  ghost predicate GoneOut(base: DnsBase, rings: seq<seq<Request>>, live: set<Request>, queue: seq<Request>, fs: seq<Request>, n: nat)
    reads base, live, Members(queue), Members(fs)
  {
    && n <= |queue| && Valid(base, rings, live + Members(queue[..n]), queue[n..])
    && Listed(rings, live + Members(queue[..n]), fs + queue[..n])
  }

  ghost function ViewThen(base: DnsBase, queue: seq<Request>, fs: seq<Request>, n: nat): State
    requires n <= |queue|
    reads base, Members(queue), Members(fs)
  {
    View(base, fs + queue[..n], queue[n..])
  }

  lemma NoneOut(base: DnsBase, rings: seq<seq<Request>>, live: set<Request>, queue: seq<Request>, fs: seq<Request>)
    requires Valid(base, rings, live, queue) && Listed(rings, live, fs)
    ensures GoneOut(base, rings, live, queue, fs, 0) && ViewThen(base, queue, fs, 0) == View(base, fs, queue)
  {
    assert queue[..0] == [] && queue[0..] == queue && fs + queue[..0] == fs && live + Members(queue[..0]) == live;
  }

  /** When the pump stops, there is nothing that pumping would change. */
  lemma NothingToPump(base: DnsBase, rings: seq<seq<Request>>, live: set<Request>, queue: seq<Request>, fs: seq<Request>, n: nat, random: seq<nat>)
    requires GoneOut(base, rings, live, queue, fs, n)
    ensures base.inflight >= base.maxInflight || base.waiting <= 0 ==>
      Pumped(ViewThen(base, queue, fs, n), random) == ViewThen(base, queue, fs, n)
    ensures base.waiting == |queue| - n
    ensures live + Members(queue[..n]) + Members(queue[n..]) == live + Members(queue)
  {
    Counted(base, rings, live + Members(queue[..n]), queue[n..], fs + queue[..n]);
    assert queue == queue[..n] + queue[n..];
  }

  lemma OneMoreOut(fs: seq<Request>, queue: seq<Request>, n: nat)
    requires n < |queue|
    ensures queue[..n + 1] == queue[..n] + [queue[n]] && queue[n..][0] == queue[n] && queue[n..][1..] == queue[n + 1..]
    ensures fs + queue[..n + 1] == fs + queue[..n] + [queue[n]]
    ensures queue[n] in Members(queue) && Members(queue[n..]) <= Members(queue) && Members(queue[..n]) <= Members(queue)
    ensures Members(queue[..n + 1]) == Members(queue[..n]) + {queue[n]}
  {
  }

  /** A queue of requests in flight and waiting ones. */
  lemma Counted(base: DnsBase, rings: seq<seq<Request>>, live: set<Request>, queue: seq<Request>, fs: seq<Request>)
    requires Valid(base, rings, live, queue) && Listed(rings, live, fs)
    ensures |View(base, fs, queue).flight| == base.inflight && |View(base, fs, queue).queue| == base.waiting
  {
    FlightsMean(fs, 0);
    DistinctCard(fs);
  }

  /** A round of the pump, and the requests that have gone out by then. */
  method PumpNext(base: DnsBase, ghost rings: seq<seq<Request>>, ghost live: set<Request>, ghost queue: seq<Request>, ghost fs: seq<Request>,
                  ghost n: nat, random: seq<nat>)
    returns (found: bool, left: seq<nat>, ghost rings': seq<seq<Request>>)
    requires n < |queue| && GoneOut(base, rings, live, queue, fs, n) && base.inflight < base.maxInflight
    modifies base`reqHeads, base`inflight, base`waitingHead, base`waiting, live`next, live`prev
    modifies Members(queue)`next, Members(queue)`prev, Members(queue)`home, Members(queue)`transId, Members(queue)`hasServer
    ensures GoneOut(base, rings', live, queue, fs, if found then n + 1 else n)
    ensures !found ==> ViewThen(base, queue, fs, n) == Pumped(old(ViewThen(base, queue, fs, n)), random)
    ensures found ==> Pumped(ViewThen(base, queue, fs, n + 1), left) == Pumped(old(ViewThen(base, queue, fs, n)), random)
    ensures found ==> base.inflight <= base.maxInflight
  {
    OneMoreOut(fs, queue, n);
    Counted(base, rings, live + Members(queue[..n]), queue[n..], fs + queue[..n]);
    ghost var id;
    found, id, left, rings' := PumpOnce(base, rings, live + Members(queue[..n]), queue[n..], fs + queue[..n], random);
    if !found {
      rings' := rings;
    } else {
      assert live + Members(queue[..n]) + {queue[n]} == live + Members(queue[..n + 1]);
      Counted(base, rings', live + Members(queue[..n + 1]), queue[n + 1..], fs + queue[..n + 1]);
    }
  }

  /**
   * evdns_requests_pump_waiting_queue, with at least one nameserver. The requests at the front of the
   * queue go out in order, and it stops only when enough are in flight or none waits (or the model
   * has no more random numbers). The id is drawn before the request is taken out of the queue.
   */
  method Pump(base: DnsBase, ghost rings: seq<seq<Request>>, ghost live: set<Request>, ghost queue: seq<Request>, ghost fs: seq<Request>,
              random: seq<nat>)
    returns (starved: bool, ghost n: nat,
             ghost rings': seq<seq<Request>>, ghost live': set<Request>, ghost queue': seq<Request>, ghost fs': seq<Request>)
    requires Valid(base, rings, live, queue) && Listed(rings, live, fs)
    modifies base`reqHeads, base`inflight, base`waitingHead, base`waiting, live`next, live`prev
    modifies Members(queue)`next, Members(queue)`prev, Members(queue)`home, Members(queue)`transId, Members(queue)`hasServer
    ensures Valid(base, rings', live', queue') && Listed(rings', live', fs') && live' + Members(queue') == live + Members(queue)
    ensures View(base, fs', queue') == Pumped(old(View(base, fs, queue)), random)
    ensures starved || base.inflight >= base.maxInflight || queue' == []
    ensures n <= |queue| && queue' == queue[n..] && fs' == fs + queue[..n] && (n > 0 ==> base.inflight <= base.maxInflight)
  {
    starved, rings' := false, rings;
    var numbers := random;
    n := 0;
    NoneOut(base, rings, live, queue, fs);
    while base.inflight < base.maxInflight && base.waiting > 0 && !starved
      invariant GoneOut(base, rings', live, queue, fs, n)
      invariant !starved ==> Pumped(ViewThen(base, queue, fs, n), numbers) == Pumped(old(View(base, fs, queue)), random)
      invariant starved ==> ViewThen(base, queue, fs, n) == Pumped(old(View(base, fs, queue)), random)
      invariant n > 0 ==> base.inflight <= base.maxInflight
      decreases |queue| - n, !starved
    {
      NothingToPump(base, rings', live, queue, fs, n, numbers);
      var found;
      found, numbers, rings' := PumpNext(base, rings', live, queue, fs, n, numbers);
      starved := !found;
      n := if found then n + 1 else n;
    }
    NothingToPump(base, rings', live, queue, fs, n, numbers);
    live', queue', fs' := live + Members(queue[..n]), queue[n..], fs + queue[..n];
  }

  /** A request leaves the table; the others stay in order. */
  method LeaveListed(base: DnsBase, ghost rings: seq<seq<Request>>, ghost live: set<Request>, ghost queue: seq<Request>, ghost fs: seq<Request>,
                     req: Request)
    returns (ghost rings': seq<seq<Request>>)
    requires Valid(base, rings, live, queue) && Listed(rings, live, fs) && req in live
    modifies base`reqHeads, base`inflight, req`home, live`next, live`prev
    ensures Valid(base, rings', live - {req}, queue) && Listed(rings', live - {req}, Minus(fs, req)) && req.home == NOWHERE
    ensures req !in Members(queue)
  {
    QueueApart(base, rings, live, queue);
    Departs(rings, live, fs, req);
    rings' := LeaveTable(base, rings, live, queue, req);
  }

  /** request_finished of a request in flight. */
  method FinishInflight(base: DnsBase, ghost rings: seq<seq<Request>>, ghost live: set<Request>, ghost queue: seq<Request>, ghost fs: seq<Request>,
                        req: Request, random: seq<nat>)
    returns (starved: bool, ghost rings': seq<seq<Request>>, ghost live': set<Request>, ghost queue': seq<Request>, ghost fs': seq<Request>)
    requires Valid(base, rings, live, queue) && Listed(rings, live, fs) && req in live
    modifies base, live`next, live`prev, req`home
    modifies Members(queue)`next, Members(queue)`prev, Members(queue)`home, Members(queue)`transId, Members(queue)`hasServer
    ensures Valid(base, rings', live', queue') && Listed(rings', live', fs') && live' + Members(queue') == live - {req} + Members(queue)
    ensures req.home == NOWHERE && base.maxInflight == old(base.maxInflight)
    ensures View(base, fs', queue') == Pumped(old(View(base, Minus(fs, req), queue)), random)
    ensures starved || base.inflight >= base.maxInflight || queue' == []
  {
    rings' := LeaveListed(base, rings, live, queue, fs, req);
    ghost var n;
    starved, n, rings', live', queue', fs' := Pump(base, rings', live - {req}, queue, Minus(fs, req), random);
  }

  /** request_finished of a request that waits, number k of the queue. */
  method FinishWaiting(base: DnsBase, ghost rings: seq<seq<Request>>, ghost live: set<Request>, ghost queue: seq<Request>, ghost fs: seq<Request>,
                       req: Request, ghost k: nat, random: seq<nat>)
    returns (starved: bool, ghost rings': seq<seq<Request>>, ghost live': set<Request>, ghost queue': seq<Request>, ghost fs': seq<Request>)
    requires Valid(base, rings, live, queue) && Listed(rings, live, fs) && k < |queue| && req == queue[k]
    modifies base, live`next, live`prev
    modifies Members(queue)`next, Members(queue)`prev, Members(queue)`home, Members(queue)`transId, Members(queue)`hasServer
    ensures Valid(base, rings', live', queue') && Listed(rings', live', fs') && live' + Members(queue') == live + (Members(queue) - {req})
    ensures req.home == NOWHERE && base.maxInflight == old(base.maxInflight)
    ensures View(base, fs', queue') == Pumped(old(View(base, fs, Without(queue, k))), random)
    ensures starved || base.inflight >= base.maxInflight || queue' == []
  {
    WithoutMeans(queue, k);
    assert req in Members(queue);
    LeaveQueue(base, rings, live, queue, req, k);
    assert req !in Members(Without(queue, k));
    ghost var n;
    starved, n, rings', live', queue', fs' := Pump(base, rings, live, Without(queue, k), fs, random);
  }

  /** The request at which a bucket begins. */
  lemma FirstOf(heads: seq<Request?>, rings: seq<seq<Request>>, live: set<Request>, i: nat)
    requires TableOk(heads, rings, live) && i < |heads| && heads[i] != null
    ensures rings[i] != [] && Distinct(rings[i]) && rings[i][0] == heads[i] && heads[i] in live && heads[i].transId % |heads| == i
  {
    assert BucketOk(heads, rings, live, i) && rings[i][0] in rings[i];
  }

  /** A request goes from one table to another. */
  method MoveOne(heads: seq<Request?>, ghost rings: seq<seq<Request>>, ghost live: set<Request>, req: Request,
                 newHeads: seq<Request?>, ghost newRings: seq<seq<Request>>, ghost moved: set<Request>)
    returns (heads': seq<Request?>, ghost rings': seq<seq<Request>>, newHeads': seq<Request?>, ghost newRings': seq<seq<Request>>)
    requires TableOk(heads, rings, live) && TableOk(newHeads, newRings, moved) && live !! moved && DistinctIds(live + moved) && req in live
    modifies live`next, live`prev, live`home, moved`next, moved`prev
    ensures TableOk(heads', rings', live - {req}) && TableOk(newHeads', newRings', moved + {req})
    ensures |heads'| == |heads| && rings' == Departed(rings, req)
    ensures forall c :: 0 <= c < |heads| && c != req.transId % |heads| ==> heads'[c] == heads[c]
    ensures |newHeads'| == |newHeads| && newRings' == Entered(newRings, req)
  {
    heads', rings' := RemoveFromTable(heads, rings, live, req);
    assert req in live + moved;
    newHeads', newRings' := InsertInTable(newHeads, newRings, moved, req);
  }

  /** One step of evdns_base_set_max_requests_inflight: the first request of bucket i goes to its new bucket. */
  method Rehash(heads: seq<Request?>, ghost rings: seq<seq<Request>>, ghost live: set<Request>, i: nat,
                newHeads: seq<Request?>, ghost newRings: seq<seq<Request>>, ghost moved: set<Request>)
    returns (heads': seq<Request?>, ghost rings': seq<seq<Request>>, ghost live': set<Request>,
             newHeads': seq<Request?>, ghost newRings': seq<seq<Request>>, ghost moved': set<Request>)
    requires TableOk(heads, rings, live) && TableOk(newHeads, newRings, moved) && live !! moved && DistinctIds(live + moved)
    requires i < |heads| && heads[i] != null
    modifies live`next, live`prev, live`home, moved`next, moved`prev
    ensures TableOk(heads', rings', live') && TableOk(newHeads', newRings', moved') && live' !! moved'
    ensures |heads'| == |heads| && |newHeads'| == |newHeads| && forall c :: 0 <= c < |heads| && c != i ==> heads'[c] == heads[c]
    ensures live' + moved' == live + moved && live' < live
    ensures rings[i] != [] && Distinct(rings[i]) && rings[i][0] == heads[i] && rings' == rings[i := Minus(rings[i], rings[i][0])]
    ensures newRings' == Entered(newRings, rings[i][0]) && moved' == moved + {rings[i][0]}
  {
    FirstOf(heads, rings, live, i);
    live', moved' := live - {heads[i]}, moved + {heads[i]};
    heads', rings', newHeads', newRings' := MoveOne(heads, rings, live, heads[i], newHeads, newRings, moved);
  }

  /** All rings, one after the other. */
  ghost function Joined(rings: seq<seq<Request>>): seq<Request> {
    if rings == [] then [] else Joined(rings[..|rings| - 1]) + rings[|rings| - 1]
  }

  lemma {:induction false} JoinedSplit(rings: seq<seq<Request>>, i: nat)
    requires i < |rings|
    ensures Joined(rings) == Joined(rings[..i]) + rings[i] + Joined(rings[i + 1..])
  {
    var n := |rings| - 1;
    if i == n {
      assert rings[i + 1..] == [];
    } else {
      JoinedSplit(rings[..n], i);
      assert rings[..n][..i] == rings[..i] && rings[..n][i + 1..] == rings[i + 1..n];
      assert rings[i + 1..][..n - i - 1] == rings[i + 1..n];
      var a, b, c, d := Joined(rings[..i]), rings[i], Joined(rings[i + 1..n]), rings[n];
      assert a + b + c + d == a + b + (c + d);
    }
  }

  lemma {:induction false} JoinedEmpty(rings: seq<seq<Request>>)
    requires forall c :: 0 <= c < |rings| ==> rings[c] == []
    ensures Joined(rings) == []
  {
    if rings != [] {
      JoinedEmpty(rings[..|rings| - 1]);
    }
  }

  /** The first of all requests leaves its ring. */
  lemma FirstLeaves(rings: seq<seq<Request>>, i: nat)
    requires i < |rings| && (forall c :: 0 <= c < i ==> rings[c] == []) && rings[i] != [] && Distinct(rings[i])
    ensures Joined(rings) == [rings[i][0]] + Joined(rings[i := Minus(rings[i], rings[i][0])])
  {
    var r := rings[i];
    var left := rings[i := Minus(r, r[0])];
    MinusIsWithout(r, 0);
    assert Without(r, 0) == r[1..] && r == [r[0]] + r[1..];
    JoinedSplit(rings, i);
    JoinedSplit(left, i);
    assert left[..i] == rings[..i] && left[i + 1..] == rings[i + 1..];
    JoinedEmpty(rings[..i]);
    assert [] + r + Joined(rings[i + 1..]) == [r[0]] + ([] + r[1..] + Joined(rings[i + 1..]));
  }

  /** The requests of the old table that have moved, in order, and those that have not. */
  ghost predicate Moving(rings: seq<seq<Request>>, i: nat, newRings: seq<seq<Request>>, moved: set<Request>, ms: seq<Request>, all: seq<Request>)
    reads Members(ms)`transId
  {
    i <= |rings| && (forall c :: 0 <= c < i ==> rings[c] == []) && Listed(newRings, moved, ms) && ms + Joined(rings) == all
  }

  lemma OneMoreMoved(rings: seq<seq<Request>>, i: nat, newRings: seq<seq<Request>>, moved: set<Request>, ms: seq<Request>, all: seq<Request>)
    requires Moving(rings, i, newRings, moved, ms, all) && i < |rings| && rings[i] != [] && Distinct(rings[i]) && rings[i][0] !in moved
    ensures var r := rings[i][0];
      Moving(rings[i := Minus(rings[i], r)], i, Entered(newRings, r), moved + {r}, ms + [r], all)
  {
    var r := rings[i][0];
    FirstLeaves(rings, i);
    Enters(newRings, moved, ms, r);
    assert ms + [r] + Joined(rings[i := Minus(rings[i], r)]) == ms + Joined(rings);
  }

  lemma NothingLeft(heads: seq<Request?>, rings: seq<seq<Request>>, live: set<Request>)
    requires TableOk(heads, rings, live) && forall c :: 0 <= c < |heads| ==> heads[c] == null
    ensures live == {} && Joined(rings) == []
  {
    forall b: nat | b < |heads|
      ensures rings[b] == []
    {
      assert BucketOk(heads, rings, live, b);
    }
    JoinedEmpty(rings);
  }

  /** The loop over one bucket of the old table. */
  method RehashBucket(heads: seq<Request?>, ghost rings: seq<seq<Request>>, ghost live: set<Request>, i: nat,
                      newHeads: seq<Request?>, ghost newRings: seq<seq<Request>>, ghost moved: set<Request>, ghost ms: seq<Request>,
                      ghost all: seq<Request>)
    returns (heads': seq<Request?>, ghost rings': seq<seq<Request>>, ghost live': set<Request>,
             newHeads': seq<Request?>, ghost newRings': seq<seq<Request>>, ghost moved': set<Request>, ghost ms': seq<Request>)
    requires TableOk(heads, rings, live) && TableOk(newHeads, newRings, moved) && live !! moved && DistinctIds(live + moved)
    requires i < |heads| && Moving(rings, i, newRings, moved, ms, all)
    modifies live`next, live`prev, live`home, moved`next, moved`prev
    ensures TableOk(heads', rings', live') && TableOk(newHeads', newRings', moved') && live' !! moved'
    ensures |heads'| == |heads| && |newHeads'| == |newHeads| && heads'[i] == null
    ensures forall c :: 0 <= c < |heads| && c != i ==> heads'[c] == heads[c]
    ensures live' + moved' == live + moved && live' <= live
    ensures Moving(rings', i + 1, newRings', moved', ms', all)
  {
    heads', rings', live', newHeads', newRings', moved', ms' := heads, rings, live, newHeads, newRings, moved, ms;
    while heads'[i] != null
      invariant TableOk(heads', rings', live') && TableOk(newHeads', newRings', moved') && live' !! moved'
      invariant |heads'| == |heads| && |newHeads'| == |newHeads|
      invariant forall c :: 0 <= c < |heads| && c != i ==> heads'[c] == heads[c]
      invariant live' + moved' == live + moved && live' <= live
      invariant Moving(rings', i, newRings', moved', ms', all)
      decreases live'
    {
      assert BucketOk(heads', rings', live', i);
      ghost var r, was, newWas, movedWas := rings'[i][0], rings', newRings', moved';
      OneMoreMoved(was, i, newWas, movedWas, ms', all);
      heads', rings', live', newHeads', newRings', moved' := Rehash(heads', rings', live', i, newHeads', newRings', moved');
      ms' := ms' + [r];
    }
    assert BucketOk(heads', rings', live', i);
  }

  /** The loop over the old table. */
  method RehashAll(heads0: seq<Request?>, ghost rings: seq<seq<Request>>, ghost live: set<Request>, nHeads: nat)
    returns (newHeads: seq<Request?>, ghost newRings: seq<seq<Request>>)
    requires TableOk(heads0, rings, live) && nHeads > 0
    modifies live`next, live`prev, live`home
    ensures TableOk(newHeads, newRings, live) && |newHeads| == nHeads && Listed(newRings, live, Joined(rings))
  {
    var heads := heads0;
    newHeads := seq(nHeads, _ => null);
    newRings := seq(nHeads, _ => []);
    ghost var oldRings, left: set<Request>, moved: set<Request> := rings, live, {};
    ghost var ms: seq<Request> := [];
    assert left + moved == live && ms + Joined(rings) == Joined(rings);
    var i := 0;
    while i < |heads|
      invariant 0 <= i <= |heads| && |newHeads| == nHeads
      invariant TableOk(heads, oldRings, left) && TableOk(newHeads, newRings, moved) && left !! moved && left + moved == live
      invariant forall c :: 0 <= c < i ==> heads[c] == null
      invariant Moving(oldRings, i, newRings, moved, ms, Joined(rings))
      decreases |heads| - i
    {
      heads, oldRings, left, newHeads, newRings, moved, ms :=
        RehashBucket(heads, oldRings, left, i, newHeads, newRings, moved, ms, Joined(rings));
      i := i + 1;
    }
    NothingLeft(heads, oldRings, left);
    assert moved == live && ms + [] == ms;
  }

  lemma {:induction false} FlightsJoin(a: seq<Request>, b: seq<Request>)
    ensures Flights(a + b) == Flights(a) + Flights(b)
  {
    if b == [] {
      assert a + b == a;
    } else {
      var n := |b| - 1;
      assert (a + b)[..|a| + n] == a + b[..n];
      FlightsJoin(a, b[..n]);
    }
  }

  lemma {:induction false} BucketIs(fs: seq<Request>, n: nat, b: nat)
    requires n > 0
    ensures Members(InBucket(fs, n, b)) <= Members(fs)
    ensures Flights(InBucket(fs, n, b)) == Bucket(Flights(fs), n, b)
  {
    if fs != [] {
      var k := |fs| - 1;
      var r, was := fs[k], InBucket(fs[..k], n, b);
      BucketIs(fs[..k], n, b);
      FlightsSnoc(was, r);
      assert Members(fs[..k]) <= Members(fs) && r in Members(fs);
      assert was + [] == was && Flights(was) + [] == Flights(was);
    }
  }

  lemma {:induction false} JoinedIs(rings: seq<seq<Request>>, live: set<Request>, fs: seq<Request>, m: nat)
    requires Listed(rings, live, fs) && m <= |rings|
    ensures Flights(Joined(rings[..m])) == Buckets(Flights(fs), |rings|, m)
  {
    if m > 0 {
      JoinedIs(rings, live, fs, m - 1);
      assert rings[..m][..m - 1] == rings[..m - 1];
      BucketIs(fs, |rings|, m - 1);
      assert rings[m - 1] == InBucket(fs, |rings|, m - 1);
      FlightsJoin(Joined(rings[..m - 1]), rings[m - 1]);
    }
  }

  /** The queue does not notice. */
  method RehashBeside(base: DnsBase, ghost rings: seq<seq<Request>>, ghost live: set<Request>, ghost queue: seq<Request>, nHeads: nat)
    returns (newHeads: seq<Request?>, ghost newRings: seq<seq<Request>>)
    requires Valid(base, rings, live, queue) && nHeads > 0
    modifies live`next, live`prev, live`home
    ensures TableOk(newHeads, newRings, live) && |newHeads| == nHeads && Listed(newRings, live, Joined(rings))
    ensures Ring(base.waitingHead, queue, WAITING)
  {
    QueueApart(base, rings, live, queue);
    newHeads, newRings := RehashAll(base.reqHeads, rings, live, nHeads);
  }

  /** The new table takes the place of the old one. */
  method ChangeTable(base: DnsBase, ghost rings: seq<seq<Request>>, ghost live: set<Request>, ghost queue: seq<Request>, most: int)
    returns (ghost rings': seq<seq<Request>>)
    requires Valid(base, rings, live, queue) && most >= 1
    modifies base`reqHeads, base`maxInflight, live`next, live`prev, live`home
    ensures Valid(base, rings', live, queue) && Listed(rings', live, Joined(rings))
    ensures base.maxInflight == most
  {
    var newHeads;
    newHeads, rings' := RehashBeside(base, rings, live, queue, (most + 4) / 5);
    base.reqHeads := newHeads;
    base.maxInflight := most;
  }

  /** What the model says about a table of another size. */
  lemma ResizedSays(base: DnsBase, rings: seq<seq<Request>>, live: set<Request>, queue: seq<Request>, fs: seq<Request>, maxInflight: int)
    requires Valid(base, rings, live, queue) && Listed(rings, live, fs)
    ensures Resized(View(base, fs, queue), maxInflight) ==
      State(Flights(Joined(rings)), Numbers(queue), if maxInflight < 1 then 1 else maxInflight)
  {
    JoinedIs(rings, live, fs, |rings|);
    assert rings[..|rings|] == rings;
  }

  /** evdns_base_set_max_requests_inflight: the table gets another size, and the requests another bucket. */
  method SetMaxInflight(base: DnsBase, ghost rings: seq<seq<Request>>, ghost live: set<Request>, ghost queue: seq<Request>, ghost fs: seq<Request>,
                        maxInflight: int)
    returns (ghost rings': seq<seq<Request>>, ghost fs': seq<Request>)
    requires Valid(base, rings, live, queue) && Listed(rings, live, fs)
    modifies base`reqHeads, base`maxInflight, live`next, live`prev, live`home
    ensures Valid(base, rings', live, queue) && Listed(rings', live, fs')
    ensures View(base, fs', queue) == Resized(old(View(base, fs, queue)), maxInflight)
    ensures |base.reqHeads| == (base.maxInflight + 4) / 5
  {
    ResizedSays(base, rings, live, queue, fs, maxInflight);
    rings' := ChangeTable(base, rings, live, queue, if maxInflight < 1 then 1 else maxInflight);
    fs' := Joined(rings);
  }

  /** As long as fewer requests than ids are in flight, some id is free, so that drawing one can succeed. */
  lemma {:induction false} SomeIdUnused(live: set<Request>, n: nat) returns (id: nat)
    requires |live| < n && DistinctIds(live)
    ensures id < n && Unused(live, id)
  {
    if Unused(live, n - 1) {
      id := n - 1;
    } else {
      var r :| r in live && r.transId == n - 1;
      id := SomeIdUnused(live - {r}, n - 1);
      forall s | s in live
        ensures s.transId != id
      {
        assert s == r || s in live - {r};
      }
    }
  }

  /** The table without one of its buckets. */
  lemma DropBucket(heads: seq<Request?>, rings: seq<seq<Request>>, live: set<Request>, i: nat)
    requires TableOk(heads, rings, live) && i < |heads|
    ensures TableOk(heads[i := null], rings[i := []], live - Members(rings[i]))
    ensures Members(rings[i]) <= live
  {
    assert BucketOk(heads, rings, live, i);
    var rest, heads', rings' := live - Members(rings[i]), heads[i := null], rings[i := []];
    forall c: nat | c < |heads|
      ensures BucketOk(heads', rings', rest, c)
    {
      assert BucketOk(heads, rings, live, c);
    }
    assert forall r :: r in rest ==> r in live;
  }

  function Reversed(rs: seq<Request>): seq<Request> {
    if rs == [] then [] else Reversed(rs[1..]) + [rs[0]]
  }

  lemma {:induction false} ReversedSnoc(rs: seq<Request>, r: Request)
    ensures Reversed(rs + [r]) == [r] + Reversed(rs)
  {
    if rs != [] {
      assert (rs + [r])[1..] == rs[1..] + [r];
      ReversedSnoc(rs[1..], r);
    }
  }

  /** What is left of a ring from request k on, while its first requests have gone elsewhere. */
  ghost predicate Tail(rs: seq<Request>, k: nat, home: int)
    reads Members(rs)`next, Members(rs)`home
  {
    k <= |rs| && Distinct(rs)
    && forall j {:trigger rs[j]} :: k <= j < |rs| ==> rs[j].home == home && rs[j].next == if j + 1 < |rs| then rs[j + 1] else rs[0]
  }

  lemma TailStart(head: Request?, rs: seq<Request>, home: int)
    requires Ring(head, rs, home)
    ensures Tail(rs, 0, home)
  {
    forall j | 0 <= j < |rs|
      ensures rs[j].home == home && rs[j].next == if j + 1 < |rs| then rs[j + 1] else rs[0]
    {
      assert rs[j] in rs && LinkedAt(rs, j);
    }
  }

  /** One request of evdns_base_clear_nameservers_and_suspend goes to the front of the queue. */
  method Suspend(base: DnsBase, req: Request, ghost rs: seq<Request>, ghost k: nat, ghost b: nat, ghost queue: seq<Request>,
                 ghost done: set<Request>)
    requires Tail(rs, k, b) && k < |rs| && req == rs[k]
    requires Ring(base.waitingHead, queue, WAITING) && base.waiting == |queue|
    modifies base`waitingHead, base`waiting, req`next, req`prev, req`home, req`transId, req`hasServer
    modifies Members(queue)`next, Members(queue)`prev
    ensures Tail(rs, k + 1, b) && (old(Reset(done)) ==> Reset(done + {req}))
    ensures Ring(base.waitingHead, [req] + queue, WAITING) && base.waiting == |queue| + 1
  {
    Alone(rs, k);
    assert req !in queue;
    assert forall j :: k <= j < |rs| ==> rs[j] !in queue;
    req.hasServer := false;
    req.transId := 0;
    base.waiting := base.waiting + 1;
    base.waitingHead := InsertInFront(req, base.waitingHead, queue, WAITING);
  }

  /** Only the last request of a ring is followed by the first. */
  lemma TailNext(rs: seq<Request>, k: nat, home: int)
    requires Tail(rs, k, home) && k < |rs|
    ensures if k + 1 < |rs| then rs[k].next == rs[k + 1] && rs[k].next != rs[0] else rs[k].next == rs[0]
  {
    Alone(rs, 0);
  }

  /** Requests that have no nameserver and no id any more. */
  ghost predicate Reset(some: set<Request>)
    reads some`hasServer, some`transId
  {
    forall r {:trigger r in some} :: r in some ==> !r.hasServer && r.transId == 0
  }

  /** The first k requests of a bucket have gone to the front of the queue, the first of them last. */
  ghost predicate GoneBack(rs: seq<Request>, k: nat, front: seq<Request>) {
    k <= |rs| && front == Reversed(rs[..k]) && Members(front) <= Members(rs) && |front| == k
  }

  lemma OneMoreBack(rs: seq<Request>, k: nat, front: seq<Request>, queue: seq<Request>)
    requires k < |rs| && GoneBack(rs, k, front)
    ensures GoneBack(rs, k + 1, [rs[k]] + front)
    ensures [rs[k]] + (front + queue) == [rs[k]] + front + queue
    ensures Members([rs[k]] + front) == Members(front) + {rs[k]}
  {
    ReversedSnoc(rs[..k], rs[k]);
    assert rs[..k + 1] == rs[..k] + [rs[k]];
  }

  /** The loop over a bucket has come to request k. */
  ghost predicate Suspending(base: DnsBase, rs: seq<Request>, k: nat, b: nat, front: seq<Request>, queue: seq<Request>)
    reads base, Members(rs), Members(front + queue), Members(front)
  {
    && Tail(rs, k, b) && GoneBack(rs, k, front) && Reset(Members(front))
    && Ring(base.waitingHead, front + queue, WAITING) && base.waiting == |front + queue|
  }

  /** One round of the loop over a bucket, and the request that is next in the bucket. */
  method SuspendOne(base: DnsBase, req: Request, ghost rs: seq<Request>, ghost k: nat, ghost b: nat,
                    ghost front: seq<Request>, ghost queue: seq<Request>)
    returns (next: Request?, ghost front': seq<Request>)
    requires Suspending(base, rs, k, b, front, queue) && k < |rs| && req == rs[k]
    modifies base`waitingHead, base`waiting, req`next, req`prev, req`home, req`transId, req`hasServer
    modifies Members(front + queue)`next, Members(front + queue)`prev
    ensures next == (if k + 1 < |rs| then rs[k + 1] else rs[0]) && (next == rs[0] <==> k + 1 == |rs|)
    ensures Suspending(base, rs, k + 1, b, front', queue)
  {
    TailNext(rs, k, b);
    next := req.next;
    Suspend(base, req, rs, k, b, front + queue, Members(front));
    OneMoreBack(rs, k, front, queue);
    front' := [req] + front;
  }

  lemma SuspendStart(base: DnsBase, startedAt: Request?, rs: seq<Request>, b: nat, queue: seq<Request>)
    requires Ring(startedAt, rs, b) && Ring(base.waitingHead, queue, WAITING) && base.waiting == |queue|
    ensures Suspending(base, rs, 0, b, [], queue)
  {
    TailStart(startedAt, rs, b);
    assert [] + queue == queue;
  }

  lemma AllBack(rs: seq<Request>, front: seq<Request>)
    requires GoneBack(rs, |rs|, front)
    ensures front == Reversed(rs) && Members(front) == Members(rs) && |front| == |rs|
  {
    assert rs[..|rs|] == rs;
    ReversedMembers(rs);
  }

  /** The loop of evdns_base_clear_nameservers_and_suspend over one bucket. */
  method SuspendBucket(base: DnsBase, startedAt: Request?, ghost rs: seq<Request>, ghost b: nat, ghost queue: seq<Request>)
    requires Ring(startedAt, rs, b) && Ring(base.waitingHead, queue, WAITING) && base.waiting == |queue|
    modifies base`waitingHead, base`waiting
    modifies Members(rs)`next, Members(rs)`prev, Members(rs)`home, Members(rs)`transId, Members(rs)`hasServer
    modifies Members(queue)`next, Members(queue)`prev
    ensures Ring(base.waitingHead, Reversed(rs) + queue, WAITING) && base.waiting == |rs| + |queue|
    ensures Reset(Members(rs))
  {
    if startedAt == null {
      assert Reversed(rs) + queue == queue;
      return;
    }
    var req: Request := startedAt;
    var more := true;
    ghost var k: nat, front: seq<Request> := 0, [];
    SuspendStart(base, startedAt, rs, b, queue);
    while more
      invariant if more then k < |rs| && req == rs[k] else k == |rs|
      invariant Suspending(base, rs, k, b, front, queue)
      decreases |rs| - k
    {
      var next;
      next, front := SuspendOne(base, req, rs, k, b, front, queue);
      k := k + 1;
      more := next != startedAt;
      if more {
        req := next;
      }
    }
    AllBack(rs, front);
  }

  /** The requests of the buckets, as they come to stand in the queue: the last bucket first, each from its end. */
  function Backlog(rings: seq<seq<Request>>): seq<Request> {
    if rings == [] then [] else Reversed(rings[|rings| - 1]) + Backlog(rings[..|rings| - 1])
  }

  lemma MembersJoin(a: seq<Request>, b: seq<Request>)
    ensures Members(a + b) == Members(a) + Members(b)
  {
  }

  lemma {:induction false} ReversedMembers(rs: seq<Request>)
    ensures Members(Reversed(rs)) == Members(rs) && |Reversed(rs)| == |rs|
  {
    if rs != [] {
      ReversedMembers(rs[1..]);
      MembersJoin([rs[0]], rs[1..]);
      MembersJoin(Reversed(rs[1..]), [rs[0]]);
      assert rs == [rs[0]] + rs[1..];
    }
  }

  /** The first i buckets have been emptied into the queue. */
  ghost predicate Emptied(rings: seq<seq<Request>>, live: set<Request>, queue: seq<Request>, i: nat,
                          rings': seq<seq<Request>>, rest: set<Request>, queue': seq<Request>) {
    && i <= |rings| == |rings'| && (forall c :: i <= c < |rings| ==> rings'[c] == rings[c])
    && queue' == Backlog(rings[..i]) + queue
    && rest + Members(queue') == live + Members(queue) && rest !! Members(queue') && rest <= live
  }

  lemma OneMoreEmptied(rings: seq<seq<Request>>, live: set<Request>, queue: seq<Request>, i: nat,
                       rings': seq<seq<Request>>, rest: set<Request>, queue': seq<Request>)
    requires i < |rings| && Emptied(rings, live, queue, i, rings', rest, queue') && Members(rings[i]) <= rest
    ensures Emptied(rings, live, queue, i + 1, rings'[i := []], rest - Members(rings[i]), Reversed(rings[i]) + queue')
  {
    assert rings[..i + 1][..i] == rings[..i];
    ReversedMembers(rings[i]);
    assert Reversed(rings[i]) + queue' == Backlog(rings[..i + 1]) + queue;
  }

  /** One bucket more is emptied into the queue. */
  method SuspendNext(base: DnsBase, heads: seq<Request?>, i: nat, ghost rings: seq<seq<Request>>, ghost live: set<Request>, ghost queue: seq<Request>,
                     ghost done: set<Request>)
    requires TableOk(heads, rings, live) && i < |heads| && live !! Members(queue)
    requires Reset(done) && done !! live
    requires Ring(base.waitingHead, queue, WAITING) && base.waiting == |queue|
    modifies base`waitingHead, base`waiting
    modifies live`next, live`prev, live`home, live`transId, live`hasServer
    modifies Members(queue)`next, Members(queue)`prev
    ensures TableOk(heads[i := null], rings[i := []], live - Members(rings[i])) && Members(rings[i]) <= live
    ensures Ring(base.waitingHead, Reversed(rings[i]) + queue, WAITING) && base.waiting == |Reversed(rings[i]) + queue|
    ensures Reset(done + Members(rings[i]))
  {
    DropBucket(heads, rings, live, i);
    assert BucketOk(heads, rings, live, i);
    ReversedMembers(rings[i]);
    SuspendBucket(base, heads[i], rings[i], i, queue);
  }

  /** The loop of evdns_base_clear_nameservers_and_suspend over the buckets. */
  method SuspendAll(base: DnsBase, heads0: seq<Request?>, ghost rings: seq<seq<Request>>, ghost live: set<Request>, ghost queue: seq<Request>)
    returns (heads: seq<Request?>, ghost rings': seq<seq<Request>>, ghost queue': seq<Request>)
    requires TableOk(heads0, rings, live) && live !! Members(queue)
    requires Ring(base.waitingHead, queue, WAITING) && base.waiting == |queue|
    modifies base`waitingHead, base`waiting
    modifies live`next, live`prev, live`home, live`transId, live`hasServer
    modifies Members(queue)`next, Members(queue)`prev
    ensures TableOk(heads, rings', {}) && |heads| == |heads0| && Ring(base.waitingHead, queue', WAITING) && base.waiting == |queue'|
    ensures queue' == Backlog(rings) + queue && Members(queue') == live + Members(queue) && Reset(live)
  {
    heads := heads0;
    ghost var rest, done: set<Request> := live, {};
    rings', queue' := rings, queue;
    assert Backlog(rings[..0]) + queue == queue;
    var i := 0;
    while i < |heads|
      invariant 0 <= i <= |heads| && |heads| == |rings|
      invariant TableOk(heads, rings', rest) && Emptied(rings, live, queue, i, rings', rest, queue')
      invariant Reset(done) && done !! rest && live == done + rest
      invariant Ring(base.waitingHead, queue', WAITING) && base.waiting == |queue'|
      invariant forall c :: 0 <= c < i ==> heads[c] == null
      decreases |heads| - i
    {
      SuspendNext(base, heads, i, rings', rest, queue', done);
      OneMoreEmptied(rings, live, queue, i, rings', rest, queue');
      done := done + Members(rings[i]);
      heads, rings', rest, queue' := heads[i := null], rings'[i := []], rest - Members(rings[i]), Reversed(rings[i]) + queue';
      i := i + 1;
    }
    NothingLeft(heads, rings', rest);
    assert rings[..|rings|] == rings;
  }

  lemma {:induction false} ReversedNumbers(rs: seq<Request>)
    ensures Numbers(Reversed(rs)) == Backwards(Flights(rs))
  {
    if rs != [] {
      var n := |rs| - 1;
      ReversedNumbers(rs[..n]);
      ReversedSnoc(rs[..n], rs[n]);
      assert rs == rs[..n] + [rs[n]];
      NumbersJoin([rs[n]], Reversed(rs[..n]));
    }
  }

  lemma NumbersJoin(a: seq<Request>, b: seq<Request>)
    ensures Numbers(a + b) == Numbers(a) + Numbers(b)
  {
  }

  lemma {:induction false} BacklogIs(rings: seq<seq<Request>>, live: set<Request>, fs: seq<Request>, m: nat)
    requires Listed(rings, live, fs) && m <= |rings|
    ensures Numbers(Backlog(rings[..m])) == Backlogged(Flights(fs), |rings|, m)
  {
    if m > 0 {
      BacklogIs(rings, live, fs, m - 1);
      assert rings[..m][..m - 1] == rings[..m - 1];
      BucketIs(fs, |rings|, m - 1);
      assert rings[m - 1] == InBucket(fs, |rings|, m - 1);
      ReversedNumbers(rings[m - 1]);
      NumbersJoin(Reversed(rings[m - 1]), Backlog(rings[..m - 1]));
    }
  }

  /** A table in which nothing is in flight. */
  lemma NothingListed(heads: seq<Request?>, rings: seq<seq<Request>>)
    requires TableOk(heads, rings, {})
    ensures Listed(rings, {}, [])
  {
    forall b: nat | b < |rings|
      ensures rings[b] == InBucket([], |rings|, b)
    {
      assert BucketOk(heads, rings, {}, b);
      DistinctCard(rings[b]);
    }
  }

  /** All buckets go into the queue. */
  method EmptyTable(base: DnsBase, ghost rings: seq<seq<Request>>, ghost live: set<Request>, ghost queue: seq<Request>)
    returns (ghost rings': seq<seq<Request>>, ghost queue': seq<Request>)
    requires Valid(base, rings, live, queue)
    modifies base`reqHeads, base`inflight, base`waitingHead, base`waiting
    modifies live`next, live`prev, live`home, live`transId, live`hasServer
    modifies Members(queue)`next, Members(queue)`prev
    ensures Valid(base, rings', {}, queue') && Reset(live) && Listed(rings', {}, [])
    ensures queue' == Backlog(rings) + queue && Members(queue') == live + Members(queue)
  {
    QueueApart(base, rings, live, queue);
    var heads;
    heads, rings', queue' := SuspendAll(base, base.reqHeads, rings, live, queue);
    NothingListed(heads, rings');
    base.reqHeads := heads;
    base.inflight := 0;
  }

  /**
   * The part of evdns_base_clear_nameservers_and_suspend about requests: every request in flight
   * waits again, in front of those that were waiting already.
   */
  method ClearAndSuspend(base: DnsBase, ghost rings: seq<seq<Request>>, ghost live: set<Request>, ghost queue: seq<Request>, ghost fs: seq<Request>)
    returns (ghost rings': seq<seq<Request>>, ghost queue': seq<Request>)
    requires Valid(base, rings, live, queue) && Listed(rings, live, fs)
    modifies base`reqHeads, base`inflight, base`waitingHead, base`waiting
    modifies live`next, live`prev, live`home, live`transId, live`hasServer
    modifies Members(queue)`next, Members(queue)`prev
    ensures Valid(base, rings', {}, queue') && Reset(live) && Listed(rings', {}, [])
    ensures queue' == Backlog(rings) + queue && Members(queue') == live + Members(queue)
    ensures View(base, [], queue') == Cleared(old(View(base, fs, queue)))
  {
    BacklogIs(rings, live, fs, |rings|);
    assert rings[..|rings|] == rings;
    NumbersJoin(Backlog(rings), queue);
    rings', queue' := EmptyTable(base, rings, live, queue);
  }
}
