/** The circular lists that hold the requests of an evdns base. */
module DnsRings {
  import opened Lists

  /** struct request: its links, its transaction id, and whether a nameserver has been assigned to it. */
  class Request {
    var next: Request?
    var prev: Request?
    var transId: nat
    var hasServer: bool
    /** The list it is in: a bucket of the table, WAITING, or NOWHERE. */
    ghost var home: int
    /** Its number in the order in which requests have been made. */
    ghost const num: nat

    constructor (transId: nat, hasServer: bool, ghost num: nat)
      ensures this.transId == transId && this.hasServer == hasServer && home == NOWHERE && this.num == num
    {
      next, prev := null, null;
      this.transId, this.hasServer := transId, hasServer;
      home := NOWHERE;
      this.num := num;
    }
  }

  const WAITING := -1
  const NOWHERE := -2

  /** Request number i of a ring is linked to its neighbours. */
  ghost predicate LinkedAt(rs: seq<Request>, i: nat)
    requires i < |rs|
    reads Members(rs)`next, Members(rs)`prev
  {
    && rs[i].next == (if i + 1 < |rs| then rs[i + 1] else rs[0])
    && rs[i].prev == (if i > 0 then rs[i - 1] else rs[|rs| - 1])
  }

  /** The circular list that begins at `head` is `rs`, all its requests are at `home`. */
  ghost predicate Ring(head: Request?, rs: seq<Request>, home: int)
    reads Members(rs)`next, Members(rs)`prev, Members(rs)`home
  {
    && head == (if rs == [] then null else rs[0])
    && Distinct(rs)
    && (forall i :: 0 <= i < |rs| ==> LinkedAt(rs, i))
    && (forall r {:trigger r in rs} :: r in rs ==> r.home == home)
  }

  /** evdns_request_insert: at the end of the ring. */
  method Insert(req: Request, head: Request?, ghost rs: seq<Request>, ghost home: int) returns (head': Request)
    requires Ring(head, rs, home) && req.home != home
    modifies req`next, req`prev, req`home, Members(rs)`next, Members(rs)`prev
    ensures Ring(head', rs + [req], home) && req.home == home
  {
    assert req !in rs;
    DistinctSnoc(rs, req);
    ghost var all, n := rs + [req], |rs|;
    if head == null {
      req.next, req.prev := req, req;
      req.home := home;
      assert LinkedAt(all, 0);
      return req;
    }
    assert LinkedAt(rs, 0) && LinkedAt(rs, n - 1);
    Alone(rs, 0);
    Alone(rs, n - 1);
    head' := head;
    req.prev := head.prev;
    req.prev.next := req;
    req.next := head;
    head.prev := req;
    req.home := home;
    forall i | 0 <= i <= n
      ensures LinkedAt(all, i)
    {
      assert i < n ==> old(LinkedAt(rs, i));
    }
  }

  /** evdns_request_remove of request number k. */
  method Remove(req: Request, head: Request?, ghost rs: seq<Request>, ghost k: nat, ghost home: int) returns (head': Request?)
    requires Ring(head, rs, home) && home != NOWHERE && k < |rs| && req == rs[k]
    modifies req`home, Members(rs)`next, Members(rs)`prev
    ensures Ring(head', Without(rs, k), home) && req.home == NOWHERE
    ensures req.next == null && req.prev == null
  {
    ghost var n, left := |rs|, Without(rs, k);
    ghost var before, after := if k > 0 then k - 1 else n - 1, if k + 1 < n then k + 1 else 0;
    assert LinkedAt(rs, k) && LinkedAt(rs, before) && LinkedAt(rs, after);
    WithoutMeans(rs, k);
    Alone(rs, k);
    Alone(rs, before);
    Alone(rs, after);
    Alone(rs, 0);
    head' := head;
    if req.next == req {
      head' := null;
    } else {
      req.next.prev := req.prev;
      req.prev.next := req.next;
      if head == req {
        head' := req.next;
      }
    }
    req.next, req.prev := null, null;
    req.home := NOWHERE;
    forall i | 0 <= i < |left|
      ensures LinkedAt(left, i)
    {
      assert old(LinkedAt(rs, if i < k then i else i + 1));
    }
    forall r | r in left
      ensures r.home == home
    {
      assert r in Members(left) && r in rs;
    }
  }

  /** A ring begun at its last request instead. */
  lemma Rotate(head: Request?, rs: seq<Request>, last: Request, home: int)
    requires Ring(head, rs + [last], home)
    ensures head.prev == last && Ring(last, [last] + rs, home)
  {
    var old', all, n := rs + [last], [last] + rs, |rs|;
    assert LinkedAt(old', 0) && LinkedAt(old', n);
    forall i, j | 0 <= i < j < |all|
      ensures Apart(all, i, j)
    {
      assert if i > 0 then Apart(old', i - 1, j - 1) else Apart(old', j - 1, n);
    }
    forall i | 0 <= i <= n
      ensures LinkedAt(all, i)
    {
      assert LinkedAt(old', if i > 0 then i - 1 else n);
    }
    forall r | r in all
      ensures r.home == home
    {
      assert r in old';
    }
  }

  /** evdns_request_insert, and the start of the ring moved back by one: the request is then the first. */
  method InsertInFront(req: Request, head: Request?, ghost rs: seq<Request>, ghost home: int) returns (head': Request)
    requires Ring(head, rs, home) && req.home != home
    modifies req`next, req`prev, req`home, Members(rs)`next, Members(rs)`prev
    ensures Ring(head', [req] + rs, home) && req.home == home
  {
    head' := Insert(req, head, rs, home);
    Rotate(head', rs, req, home);
    head' := head'.prev;
  }
}
