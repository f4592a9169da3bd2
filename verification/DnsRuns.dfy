/** Any run of calls on the requests of an evdns base. */
module DnsRuns {
  import opened DnsModel
  import opened DnsRings
  import opened DnsRequests
  import opened Lists

  /** All requests that the base holds. */
  ghost function Held(live: set<Request>, queue: seq<Request>): set<Request> {
    live + Members(queue)
  }

  /** The base is in order, and as plain lists it is what the model says. */
  ghost predicate Agrees(base: DnsBase, rings: seq<seq<Request>>, live: set<Request>, queue: seq<Request>, fs: seq<Request>, s: State)
    reads base, live, Members(queue), Members(fs)
  {
    Valid(base, rings, live, queue) && Listed(rings, live, fs) && View(base, fs, queue) == s
  }

  /** The two counters together count all requests. */
  lemma HeldCounted(base: DnsBase, rings: seq<seq<Request>>, live: set<Request>, queue: seq<Request>)
    requires Valid(base, rings, live, queue)
    ensures base.inflight + base.waiting == |Held(live, queue)|
  {
    QueueApart(base, rings, live, queue);
    DistinctCard(queue);
  }

  lemma HeldWith(live: set<Request>, queue: seq<Request>, r: Request)
    ensures Held(live + {r}, queue) == Held(live, queue) + {r}
    ensures Held(live, queue + [r]) == Held(live, queue) + {r}
  {
    assert Members(queue + [r]) == Members(queue) + {r};
  }

  /** The new request of request_new, with the id it has drawn. */
  method MakeRequest(base: DnsBase, ghost rings: seq<seq<Request>>, ghost live: set<Request>, ghost queue: seq<Request>, ghost fs: seq<Request>,
                     ghost num: nat, id: nat, issuingNow: bool)
    returns (req: Request)
    requires Valid(base, rings, live, queue) && Listed(rings, live, fs) && (issuingNow ==> Unused(live, id))
    ensures fresh(req) && req.home == NOWHERE && req.hasServer == issuingNow && req.transId == id && req.num == num
    ensures Valid(base, rings, live, queue) && Listed(rings, live, fs) && (issuingNow ==> Unused(live, req.transId))
    ensures View(base, fs, queue) == old(View(base, fs, queue))
  {
    req := new Request(id, issuingNow, num);
    forall i | 0 <= i < |queue|
      ensures LinkedAt(queue, i)
    {
      assert old(LinkedAt(queue, i));
    }
  }

  lemma NumbersSnoc(queue: seq<Request>, r: Request)
    ensures Numbers(queue + [r]) == Numbers(queue) + [r.num]
  {
  }

  /** request_submit of a new request that has an id. */
  method SubmitFlying(base: DnsBase, ghost rings: seq<seq<Request>>, ghost live: set<Request>, ghost queue: seq<Request>, ghost fs: seq<Request>,
                      r: Request)
    returns (ghost rings': seq<seq<Request>>, ghost live': set<Request>, ghost queue': seq<Request>, ghost fs': seq<Request>)
    requires Valid(base, rings, live, queue) && Listed(rings, live, fs) && r.home == NOWHERE && r.hasServer && Unused(live, r.transId)
    modifies base, r`next, r`prev, r`home, Held(live, queue)`next, Held(live, queue)`prev
    ensures Valid(base, rings', live', queue') && Listed(rings', live', fs') && base.maxInflight == old(base.maxInflight)
    ensures live' == live + {r} && queue' == queue && fs' == fs + [r]
    ensures Flights(fs') == old(Flights(fs)) + [Flying(r.transId, r.num)]
  {
    FlightsSnoc(fs, r);
    assert r !in fs;
    Enters(rings, live, fs, r);
    fs' := fs + [r];
    rings', live', queue' := Submit(base, rings, live, queue, r);
  }

  /** request_submit of a new request. */
  method SubmitMade(base: DnsBase, ghost rings: seq<seq<Request>>, ghost live: set<Request>, ghost queue: seq<Request>, ghost fs: seq<Request>,
                    r: Request)
    returns (ghost rings': seq<seq<Request>>, ghost live': set<Request>, ghost queue': seq<Request>, ghost fs': seq<Request>)
    requires Valid(base, rings, live, queue) && Listed(rings, live, fs) && r.home == NOWHERE && (r.hasServer ==> Unused(live, r.transId))
    modifies base, r, Held(live, queue)
    ensures Valid(base, rings', live', queue') && Listed(rings', live', fs')
    ensures if old(r.hasServer) then live' == live + {r} && queue' == queue else live' == live && queue' == queue + [r]
    ensures var s := old(View(base, fs, queue));
      View(base, fs', queue') ==
        if old(r.hasServer) then s.(flight := s.flight + [Flying(old(r.transId), r.num)]) else s.(queue := s.queue + [r.num])
  {
    if r.hasServer {
      rings', live', queue', fs' := SubmitFlying(base, rings, live, queue, fs, r);
    } else {
      NumbersSnoc(queue, r);
      rings', live', queue' := Submit(base, rings, live, queue, r);
      fs' := fs;
    }
  }

  /** request_new and request_submit, once the id has been drawn. */
  method SubmitNew(base: DnsBase, ghost rings: seq<seq<Request>>, ghost live: set<Request>, ghost queue: seq<Request>, ghost fs: seq<Request>,
                   ghost num: nat, id: nat, issuingNow: bool)
    returns (ghost req: Request, ghost rings': seq<seq<Request>>, ghost live': set<Request>, ghost queue': seq<Request>, ghost fs': seq<Request>)
    requires Valid(base, rings, live, queue) && Listed(rings, live, fs) && (issuingNow ==> Unused(live, id))
    modifies base, Held(live, queue)
    ensures Valid(base, rings', live', queue') && Listed(rings', live', fs')
    ensures fresh(req) && Held(live', queue') == Held(live, queue) + {req}
    ensures var s := old(View(base, fs, queue));
      View(base, fs', queue') == if issuingNow then s.(flight := s.flight + [Flying(id, num)]) else s.(queue := s.queue + [num])
  {
    var r := MakeRequest(base, rings, live, queue, fs, num, id, issuingNow);
    HeldWith(live, queue, r);
    req := r;
    rings', live', queue', fs' := SubmitMade(base, rings, live, queue, fs, r);
  }

  /** request_new and request_submit, with at least one nameserver. */
  method NewStep(base: DnsBase, ghost rings: seq<seq<Request>>, ghost live: set<Request>, ghost queue: seq<Request>, ghost fs: seq<Request>,
                 ghost m: Model, random: seq<nat>)
    returns (made: bool, ghost req: Request?, ghost rings': seq<seq<Request>>, ghost live': set<Request>, ghost queue': seq<Request>, ghost fs': seq<Request>)
    requires Agrees(base, rings, live, queue, fs, m.s)
    modifies base, Held(live, queue)
    ensures Agrees(base, rings', live', queue', fs', Made(m, random).s)
    ensures made <==> req != null
    ensures if made then fresh(req) && Held(live', queue') == Held(live, queue) + {req} else live' == live && queue' == queue
    ensures Made(m, random).made == m.made + if made then 1 else 0
  {
    Counted(base, rings, live, queue, fs);
    var issuingNow := base.inflight < base.maxInflight;
    var id, left := NO_ID, random;
    made, req := true, null;
    if issuingNow {
      made, id, left := PickFrom(base, rings, live, fs, random);
    }
    rings', live', queue', fs' := rings, live, queue, fs;
    if made {
      req, rings', live', queue', fs' := SubmitNew(base, rings, live, queue, fs, m.made, id, issuingNow);
    }
  }

  /** A request in flight is finished. */
  method FinishFound(base: DnsBase, ghost rings: seq<seq<Request>>, ghost live: set<Request>, ghost queue: seq<Request>, ghost fs: seq<Request>,
                     ghost m: Model, req: Request, random: seq<nat>)
    returns (ghost rings': seq<seq<Request>>, ghost live': set<Request>, ghost queue': seq<Request>, ghost fs': seq<Request>)
    requires Agrees(base, rings, live, queue, fs, m.s) && m.s.most >= 1 && req in live
    modifies base, Held(live, queue)
    ensures Taken(m.s.flight, old(req.transId)) && Agrees(base, rings', live', queue', fs', Step(m, Finish(old(req.transId), random)).s)
    ensures Held(live', queue') == Held(live, queue) - {req}
  {
    LandedSays(base, rings, live, queue, fs, m, req, random);
    var starved;
    starved, rings', live', queue', fs' := FinishInflight(base, rings, live, queue, fs, req, random);
  }

  /** What the model says about a request that is finished. */
  lemma LandedSays(base: DnsBase, rings: seq<seq<Request>>, live: set<Request>, queue: seq<Request>, fs: seq<Request>, m: Model, req: Request,
                   random: seq<nat>)
    requires Agrees(base, rings, live, queue, fs, m.s) && m.s.most >= 1 && req in live
    ensures Taken(m.s.flight, req.transId)
    ensures Step(m, Finish(req.transId, random)).s == Pumped(View(base, Minus(fs, req), queue), random)
    ensures live - {req} + Members(queue) == Held(live, queue) - {req}
  {
    QueueApart(base, rings, live, queue);
    LandedIs(fs, req);
  }

  /** The request with this id has been answered, or given up. */
  method FinishStep(base: DnsBase, ghost rings: seq<seq<Request>>, ghost live: set<Request>, ghost queue: seq<Request>, ghost fs: seq<Request>,
                    ghost m: Model, id: nat, random: seq<nat>)
    returns (done: bool, ghost req: Request?, ghost rings': seq<seq<Request>>, ghost live': set<Request>, ghost queue': seq<Request>, ghost fs': seq<Request>)
    requires Agrees(base, rings, live, queue, fs, m.s) && m.s.most >= 1
    modifies base, Held(live, queue)
    ensures Agrees(base, rings', live', queue', fs', Step(m, Finish(id, random)).s)
    ensures done <==> Taken(m.s.flight, id)
    ensures done <==> req != null
    ensures if done then req in live && old(req.transId) == id && Held(live', queue') == Held(live, queue) - {req}
            else Held(live', queue') == Held(live, queue)
  {
    rings', live', queue', fs' := rings, live, queue, fs;
    FlightsMean(fs, id);
    var found := FindFromTransId(base.reqHeads, rings, live, id);
    req := found;
    done := found != null;
    if done {
      rings', live', queue', fs' := FinishFound(base, rings, live, queue, fs, m, found, random);
    }
  }

  /** Request number k of the queue. */
  method NthWaiting(base: DnsBase, ghost queue: seq<Request>, k: nat) returns (req: Request?)
    requires Ring(base.waitingHead, queue, WAITING) && base.waiting == |queue|
    ensures if k < |queue| then req == queue[k] else req == null
  {
    if k >= base.waiting {
      return null;
    }
    var r: Request := base.waitingHead;
    for i := 0 to k
      invariant k < |queue| && r == queue[i]
    {
      assert LinkedAt(queue, i);
      r := r.next;
    }
    req := r;
  }

  lemma NumbersWithout(queue: seq<Request>, k: nat)
    requires k < |queue|
    ensures Numbers(Without(queue, k)) == Without(Numbers(queue), k)
  {
  }

  lemma QueueLength(base: DnsBase, rings: seq<seq<Request>>, live: set<Request>, queue: seq<Request>, fs: seq<Request>, s: State)
    requires Agrees(base, rings, live, queue, fs, s)
    ensures |s.queue| == |queue| == base.waiting
  {
  }

  /** Request number k of the queue is cancelled. */
  method FinishNth(base: DnsBase, ghost rings: seq<seq<Request>>, ghost live: set<Request>, ghost queue: seq<Request>, ghost fs: seq<Request>,
                   ghost m: Model, req: Request, ghost k: nat, random: seq<nat>)
    returns (ghost rings': seq<seq<Request>>, ghost live': set<Request>, ghost queue': seq<Request>, ghost fs': seq<Request>)
    requires Agrees(base, rings, live, queue, fs, m.s) && m.s.most >= 1 && k < |queue| && req == queue[k]
    modifies base, Held(live, queue)
    ensures Agrees(base, rings', live', queue', fs', Step(m, FinishQueued(k, random)).s)
    ensures Held(live', queue') == Held(live, queue) - {req}
  {
    QueueApart(base, rings, live, queue);
    NumbersWithout(queue, k);
    var starved;
    starved, rings', live', queue', fs' := FinishWaiting(base, rings, live, queue, fs, req, k, random);
    assert req in Members(queue);
  }

  /** A waiting request is cancelled. */
  method FinishQueuedStep(base: DnsBase, ghost rings: seq<seq<Request>>, ghost live: set<Request>, ghost queue: seq<Request>, ghost fs: seq<Request>,
                          ghost m: Model, k: nat, random: seq<nat>)
    returns (done: bool, ghost rings': seq<seq<Request>>, ghost live': set<Request>, ghost queue': seq<Request>, ghost fs': seq<Request>)
    requires Agrees(base, rings, live, queue, fs, m.s) && m.s.most >= 1
    modifies base, Held(live, queue)
    ensures Agrees(base, rings', live', queue', fs', Step(m, FinishQueued(k, random)).s)
    ensures done <==> k < |queue|
    ensures Held(live', queue') == if done then Held(live, queue) - {queue[k]} else Held(live, queue)
  {
    rings', live', queue', fs' := rings, live, queue, fs;
    QueueLength(base, rings, live, queue, fs, m.s);
    var req := NthWaiting(base, queue, k);
    done := req != null;
    if done {
      rings', live', queue', fs' := FinishNth(base, rings, live, queue, fs, m, req, k, random);
    }
  }

  /** A call that holds on to all requests. */
  method OtherStep(base: DnsBase, ghost rings: seq<seq<Request>>, ghost live: set<Request>, ghost queue: seq<Request>, ghost fs: seq<Request>,
                   ghost m: Model, call: Call)
    returns (ghost rings': seq<seq<Request>>, ghost live': set<Request>, ghost queue': seq<Request>, ghost fs': seq<Request>)
    requires Agrees(base, rings, live, queue, fs, m.s) && m.s.most >= 1 && (call.PumpQueue? || call.Resize? || call.Clear?)
    modifies base, Held(live, queue)
    ensures Agrees(base, rings', live', queue', fs', Step(m, call).s) && Held(live', queue') == Held(live, queue)
  {
    rings', live', queue', fs' := rings, live, queue, fs;
    match call {
      case PumpQueue(random) =>
        var starved;
        ghost var n;
        starved, n, rings', live', queue', fs' := Pump(base, rings, live, queue, fs, random);
      case Resize(maxInflight) => rings', fs' := SetMaxInflight(base, rings, live, queue, fs, maxInflight);
      case Clear =>
        rings', queue' := ClearAndSuspend(base, rings, live, queue, fs);
        live', fs' := {}, [];
    }
  }

  /** The call has made and finished so many requests. */
  ghost predicate Did(m: Model, call: Call, was: set<Request>, made: nat, done: nat, held: set<Request>)
    requires m.s.most >= 1
  {
    && Step(m, call).made == m.made + made && |Step(m, call).finished| == |m.finished| + done
    && |held| + done == |was| + made
  }

  method NewCall(base: DnsBase, ghost rings: seq<seq<Request>>, ghost live: set<Request>, ghost queue: seq<Request>, ghost fs: seq<Request>,
                 ghost m: Model, random: seq<nat>)
    returns (made: nat, ghost rings': seq<seq<Request>>, ghost live': set<Request>, ghost queue': seq<Request>, ghost fs': seq<Request>)
    requires Agrees(base, rings, live, queue, fs, m.s) && m.s.most >= 1
    modifies base, Held(live, queue)
    ensures Agrees(base, rings', live', queue', fs', Step(m, New(random)).s) && fresh(Held(live', queue') - Held(live, queue))
    ensures Did(m, New(random), Held(live, queue), made, 0, Held(live', queue'))
  {
    var yes;
    ghost var req;
    yes, req, rings', live', queue', fs' := NewStep(base, rings, live, queue, fs, m, random);
    made := if yes then 1 else 0;
  }

  method FinishCall(base: DnsBase, ghost rings: seq<seq<Request>>, ghost live: set<Request>, ghost queue: seq<Request>, ghost fs: seq<Request>,
                    ghost m: Model, call: Call)
    returns (done: nat, ghost rings': seq<seq<Request>>, ghost live': set<Request>, ghost queue': seq<Request>, ghost fs': seq<Request>)
    requires Agrees(base, rings, live, queue, fs, m.s) && m.s.most >= 1 && (call.Finish? || call.FinishQueued?)
    modifies base, Held(live, queue)
    ensures Agrees(base, rings', live', queue', fs', Step(m, call).s) && Held(live', queue') <= Held(live, queue)
    ensures Did(m, call, Held(live, queue), 0, done, Held(live', queue'))
  {
    var yes;
    QueueLength(base, rings, live, queue, fs, m.s);
    if call.Finish? {
      ghost var req;
      yes, req, rings', live', queue', fs' := FinishStep(base, rings, live, queue, fs, m, call.id, call.random);
    } else {
      yes, rings', live', queue', fs' := FinishQueuedStep(base, rings, live, queue, fs, m, call.k, call.random);
      assert call.k < |queue| ==> queue[call.k] in Members(queue);
    }
    done := if yes then 1 else 0;
  }

  /** One call, and how many requests it has made and finished. */
  method AnyCall(base: DnsBase, ghost rings: seq<seq<Request>>, ghost live: set<Request>, ghost queue: seq<Request>, ghost fs: seq<Request>,
                 ghost m: Model, call: Call)
    returns (made: nat, done: nat, ghost rings': seq<seq<Request>>, ghost live': set<Request>, ghost queue': seq<Request>, ghost fs': seq<Request>)
    requires Agrees(base, rings, live, queue, fs, m.s) && m.s.most >= 1
    modifies base, Held(live, queue)
    ensures Agrees(base, rings', live', queue', fs', Step(m, call).s) && fresh(Held(live', queue') - Held(live, queue))
    ensures Did(m, call, Held(live, queue), made, done, Held(live', queue'))
  {
    made, done := 0, 0;
    match call {
      case New(random) => made, rings', live', queue', fs' := NewCall(base, rings, live, queue, fs, m, random);
      case Finish(_, _) => done, rings', live', queue', fs' := FinishCall(base, rings, live, queue, fs, m, call);
      case FinishQueued(_, _) => done, rings', live', queue', fs' := FinishCall(base, rings, live, queue, fs, m, call);
      case _ => rings', live', queue', fs' := OtherStep(base, rings, live, queue, fs, m, call);
    }
  }

  /** One call: the base goes where the model goes. */
  method OneCall(base: DnsBase, ghost rings: seq<seq<Request>>, ghost live: set<Request>, ghost queue: seq<Request>, ghost fs: seq<Request>,
                 ghost m: Model, call: Call)
    returns (made: nat, done: nat, ghost rings': seq<seq<Request>>, ghost live': set<Request>, ghost queue': seq<Request>, ghost fs': seq<Request>)
    requires Agrees(base, rings, live, queue, fs, m.s) && m.s.most >= 1
    modifies base, Held(live, queue)
    ensures Agrees(base, rings', live', queue', fs', Step(m, call).s) && fresh(Held(live', queue') - Held(live, queue))
    ensures Step(m, call).made == m.made + made && |Step(m, call).finished| == |m.finished| + done
    ensures base.inflight + base.waiting + done == old(base.inflight + base.waiting) + made
  {
    HeldCounted(base, rings, live, queue);
    made, done, rings', live', queue', fs' := AnyCall(base, rings, live, queue, fs, m, call);
    HeldCounted(base, rings', live', queue');
  }

  method NewBase(most: nat) returns (base: DnsBase, ghost rings: seq<seq<Request>>)
    requires most >= 1
    ensures fresh(base) && Agrees(base, rings, {}, [], [], Start(most).s) && base.inflight == base.waiting == 0
  {
    base := new DnsBase(most);
    rings := seq(|base.reqHeads|, _ => []);
    assert forall b :: 0 <= b < |rings| ==> rings[b] == InBucket([], |rings|, b);
  }

  /** The base agrees with the model, and as many requests have been made and finished; all others it holds. */
  ghost predicate Keeps(base: DnsBase, made: nat, done: nat, rings: seq<seq<Request>>, live: set<Request>, queue: seq<Request>, fs: seq<Request>,
                        m: Model)
    reads base, live, Members(queue), Members(fs)
  {
    && Agrees(base, rings, live, queue, fs, m.s)
    && made == m.made && done == |m.finished| && base.inflight + base.waiting + done == made
  }

  method NextCall(base: DnsBase, made: nat, done: nat,
                  ghost rings: seq<seq<Request>>, ghost live: set<Request>, ghost queue: seq<Request>, ghost fs: seq<Request>,
                  ghost m: Model, call: Call)
    returns (made': nat, done': nat, ghost rings': seq<seq<Request>>, ghost live': set<Request>, ghost queue': seq<Request>, ghost fs': seq<Request>)
    requires Keeps(base, made, done, rings, live, queue, fs, m) && m.s.most >= 1
    modifies base, Held(live, queue)
    ensures Keeps(base, made', done', rings', live', queue', fs', Step(m, call)) && fresh(Held(live', queue') - Held(live, queue))
  {
    var more, fewer;
    more, fewer, rings', live', queue', fs' := OneCall(base, rings, live, queue, fs, m, call);
    made', done' := made + more, done + fewer;
  }

  /**
   * Every run of calls on a new base does what it does in the model: the same requests are in flight, under
   * the same ids and in the same order, the same ones wait, and as many have been made and finished.
   */
  method Run(most: nat, calls: seq<Call>)
    returns (base: DnsBase, made: nat, done: nat,
             ghost rings: seq<seq<Request>>, ghost live: set<Request>, ghost queue: seq<Request>, ghost fs: seq<Request>)
    requires most >= 1
    ensures fresh(base) && fresh(Held(live, queue)) && Keeps(base, made, done, rings, live, queue, fs, Ran(most, calls))
    decreases |calls|
  {
    if calls == [] {
      base, rings := NewBase(most);
      made, done, live, queue, fs := 0, 0, {}, [], [];
    } else {
      var n := |calls| - 1;
      base, made, done, rings, live, queue, fs := Run(most, calls[..n]);
      made, done, rings, live, queue, fs := NextCall(base, made, done, rings, live, queue, fs, Ran(most, calls[..n]), calls[n]);
    }
  }
}
