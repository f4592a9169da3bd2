/** The ring of nameservers of an evdns base, and how one is picked for a request. */
module Nameservers {
  import opened Lists

  /** struct nameserver: its links, and whether it is thought to be up. */
  class Nameserver {
    var next: Nameserver?
    var prev: Nameserver?
    var state: bool
    var failedTimes: nat
    /** Its number in the order in which nameservers have been added. */
    ghost const num: nat

    constructor (ghost num: nat)
      ensures state && fresh(this) && this.num == num
    {
      next, prev, state, failedTimes := null, null, true, 0;
      this.num := num;
    }
  }

  class ServerBase {
    var serverHead: Nameserver?
    var good: int

    constructor ()
      ensures Valid(this, [])
    {
      serverHead, good := null, 0;
    }
  }

  ghost predicate LinkedAt(ns: seq<Nameserver>, i: nat)
    requires i < |ns|
    reads Members(ns)`next, Members(ns)`prev
  {
    && ns[i].next == (if i + 1 < |ns| then ns[i + 1] else ns[0])
    && ns[i].prev == (if i > 0 then ns[i - 1] else ns[|ns| - 1])
  }

  /** The circular list of nameservers, from the one that is next in turn. */
  ghost predicate Ring(head: Nameserver?, ns: seq<Nameserver>)
    reads Members(ns)`next, Members(ns)`prev
  {
    && head == (if ns == [] then null else ns[0])
    && Distinct(ns) && forall i :: 0 <= i < |ns| ==> LinkedAt(ns, i)
  }

  /** The nameservers that are up, in order. */
  ghost function Ups(ns: seq<Nameserver>): seq<Nameserver>
    reads Members(ns)`state
  {
    if ns == [] then []
    else Ups(ns[..|ns| - 1]) + if ns[|ns| - 1].state then [ns[|ns| - 1]] else []
  }

  /** The ring is `ns`, and global_good_nameservers counts those that are up. */
  ghost predicate Valid(base: ServerBase, ns: seq<Nameserver>)
    reads base, Members(ns)
  {
    Ring(base.serverHead, ns) && base.good == |Ups(ns)|
  }

  lemma {:induction false} UpsJoin(a: seq<Nameserver>, b: seq<Nameserver>)
    ensures Ups(a + b) == Ups(a) + Ups(b)
  {
    if b == [] {
      assert a + b == a;
    } else {
      var n := |a + b| - 1;
      assert (a + b)[..n] == a + b[..|b| - 1];
      UpsJoin(a, b[..|b| - 1]);
    }
  }

  lemma UpsOne(s: Nameserver)
    ensures Ups([s]) == if s.state then [s] else []
  {
    assert [s][..0] == [];
  }

  lemma {:induction false} UpIn(ns: seq<Nameserver>, s: Nameserver)
    ensures s in Ups(ns) <==> s in ns && s.state
  {
    if ns != [] {
      var n := |ns| - 1;
      UpIn(ns[..n], s);
      assert s in ns <==> s in ns[..n] || s == ns[n];
    }
  }

  lemma {:induction false} UpsDistinct(ns: seq<Nameserver>)
    requires Distinct(ns)
    ensures Distinct(Ups(ns))
  {
    if ns != [] {
      var n := |ns| - 1;
      DistinctPrefix(ns, n);
      UpsDistinct(ns[..n]);
      UpIn(ns[..n], ns[n]);
      if ns[n].state {
        DistinctSnoc(Ups(ns[..n]), ns[n]);
      } else {
        assert Ups(ns) == Ups(ns[..n]);
      }
    }
  }

  /** The ring begun i places further on. */
  function Turned<T>(ns: seq<T>, i: nat): seq<T>
    requires i <= |ns|
  {
    ns[i..] + ns[..i]
  }

  lemma TurnedOnce(head: Nameserver, ns: seq<Nameserver>)
    requires Ring(head, ns)
    ensures Ring(head.next, Turned(ns, 1)) && Members(Turned(ns, 1)) == Members(ns)
  {
    var t := Turned(ns, 1);
    assert LinkedAt(ns, 0);
    forall i | 0 <= i < |t|
      ensures LinkedAt(t, i)
    {
      assert LinkedAt(ns, if i + 1 < |ns| then i + 1 else 0);
    }
    forall i, j | 0 <= i < j < |t|
      ensures Apart(t, i, j)
    {
      assert if j + 1 < |ns| then Apart(ns, i + 1, j + 1) else Apart(ns, 0, i + 1);
    }
    assert ns == [ns[0]] + ns[1..];
  }

  /** Turning the ring past a first nameserver turns the list of those that are up, if that one is. */
  lemma UpsTurned(ns: seq<Nameserver>)
    requires ns != []
    ensures Ups(ns) == (if ns[0].state then [ns[0]] else []) + Ups(ns[1..])
    ensures Ups(Turned(ns, 1)) == Ups(ns[1..]) + if ns[0].state then [ns[0]] else []
  {
    UpsOne(ns[0]);
    UpsJoin([ns[0]], ns[1..]);
    UpsJoin(ns[1..], [ns[0]]);
    assert ns == [ns[0]] + ns[1..] && ns[..1] == [ns[0]];
  }

  /** server_head goes on to the next nameserver. */
  method Advance(base: ServerBase, ghost ns: seq<Nameserver>) returns (was: Nameserver)
    requires Valid(base, ns) && ns != []
    modifies base`serverHead
    ensures was == ns[0] && Valid(base, Turned(ns, 1)) && Members(Turned(ns, 1)) == Members(ns)
    ensures Ups(Turned(ns, 1)) == if was.state then Ups(ns)[1..] + [was] else Ups(ns)
    ensures was.state ==> Ups(ns) != [] && was == Ups(ns)[0]
  {
    was := base.serverHead;
    TurnedOnce(was, ns);
    UpsTurned(ns);
    base.serverHead := base.serverHead.next;
  }

  lemma TurnedMore(ns: seq<Nameserver>, i: nat)
    requires i < |ns|
    ensures Turned(Turned(ns, i), 1) == Turned(ns, i + 1) && Turned(ns, i)[0] == ns[i]
    ensures i + 1 < |ns| ==> Turned(ns, i + 1)[0] == ns[i + 1]
  {
  }

  /** The first i nameservers are down. */
  ghost predicate Down(ns: seq<Nameserver>, i: nat)
    reads Members(ns)`state
  {
    i <= |ns| && forall j {:trigger ns[j].state} :: 0 <= j < i ==> !ns[j].state
  }

  lemma NotAllDown(ns: seq<Nameserver>, i: nat)
    requires Down(ns, i) && Ups(ns) != []
    ensures i < |ns|
  {
    var s := Ups(ns)[0];
    UpIn(ns, s);
    var j :| 0 <= j < |ns| && ns[j] == s;
    assert ns[j].state;
  }

  /** A round of the scan, at nameserver number i. The ring does not come round, so its last test never holds. */
  method PickOn(base: ServerBase, ghost ns: seq<Nameserver>, ghost i: nat) returns (picked: Nameserver)
    requires i < |ns| && Valid(base, Turned(ns, i)) && Members(Turned(ns, i)) == Members(ns)
    requires Ups(ns) != [] && Ups(Turned(ns, i)) == Ups(ns) && Down(ns, i) && Distinct(ns)
    modifies base`serverHead
    ensures Valid(base, Turned(ns, i + 1)) && Members(Turned(ns, i + 1)) == Members(ns)
    ensures picked == ns[i]
    ensures picked.state ==> picked == Ups(ns)[0] && Ups(Turned(ns, i + 1)) == Ups(ns)[1..] + [picked]
    ensures !picked.state ==> i + 1 < |ns| && Ups(Turned(ns, i + 1)) == Ups(ns) && Down(ns, i + 1)
    ensures !picked.state ==> base.serverHead != ns[0]
  {
    TurnedMore(ns, i);
    picked := Advance(base, Turned(ns, i));
    if !picked.state {
      NotAllDown(ns, i + 1);
      Alone(ns, 0);
    }
  }

  /** The scan of nameserver_pick, when some nameserver is up. */
  method PickUp(base: ServerBase, ghost ns: seq<Nameserver>) returns (picked: Nameserver, ghost i: nat, ghost ns': seq<Nameserver>)
    requires Valid(base, ns) && Ups(ns) != []
    modifies base`serverHead
    ensures Valid(base, ns') && Members(ns') == Members(ns)
    ensures picked == Ups(ns)[0] && Ups(ns') == Ups(ns)[1..] + [picked]
    ensures i < |ns| && Down(ns, i) && ns[i] == picked && picked.state && ns' == Turned(ns, i + 1)
  {
    var startedAt := base.serverHead;
    i := 0;
    NotAllDown(ns, 0);
    assert Turned(ns, 0) == ns;
    while true
      invariant 0 <= i < |ns| && Valid(base, Turned(ns, i)) && Members(Turned(ns, i)) == Members(ns)
      invariant Ups(Turned(ns, i)) == Ups(ns) && Down(ns, i)
      decreases |ns| - i
    {
      picked := PickOn(base, ns, i);
      if picked.state {
        ns' := Turned(ns, i + 1);
        return;
      }
      i := i + 1;
      assert base.serverHead != startedAt;
    }
  }

  /**
   * nameserver_pick. With a nameserver up it returns the next one that is, and that one goes to the
   * end of the line. With none up it returns the second in turn, whatever its state. No link changes.
   */
  method Pick(base: ServerBase, ghost ns: seq<Nameserver>) returns (picked: Nameserver?, ghost i: nat, ghost ns': seq<Nameserver>)
    requires Valid(base, ns)
    modifies base`serverHead
    ensures Valid(base, ns') && Members(ns') == Members(ns)
    ensures picked == null <==> ns == []
    ensures ns == [] ==> ns' == ns
    ensures Ups(ns) != [] ==> picked == Ups(ns)[0] && Ups(ns') == Ups(ns)[1..] + [picked]
    ensures Ups(ns) != [] ==> i < |ns| && Down(ns, i) && ns[i] == picked && picked.state && ns' == Turned(ns, i + 1)
    ensures Ups(ns) == [] && ns != [] ==> picked == ns[if |ns| == 1 then 0 else 1] && ns' == Turned(ns, 1)
  {
    i := 0;
    if base.serverHead == null {
      picked, ns' := null, ns;
    } else if base.good == 0 {
      var was := Advance(base, ns);
      picked, ns' := base.serverHead, Turned(ns, 1);
    } else {
      picked, i, ns' := PickUp(base, ns);
    }
  }

  /** i, counted round and round up to k. */
  ghost function Phase(i: nat, k: nat): (r: nat)
    requires k > 0
    ensures r < k
  {
    if i < k then i else Phase(i - k, k)
  }

  lemma {:induction false} PhaseStep(i: nat, k: nat)
    requires k > 0
    ensures Phase(i + 1, k) == if Phase(i, k) + 1 == k then 0 else Phase(i, k) + 1
  {
    if i >= k {
      PhaseStep(i - k, k);
    }
  }

  lemma {:induction false} PhaseAhead(i: nat, j: nat, k: nat)
    requires j < k
    ensures Phase(i + j, k) == if Phase(i, k) + j < k then Phase(i, k) + j else Phase(i, k) + j - k
  {
    if j > 0 {
      PhaseAhead(i, j - 1, k);
      PhaseStep(i + j - 1, k);
    }
  }

  lemma TurnedAgain(u: seq<Nameserver>, r: nat)
    requires r < |u|
    ensures Turned(u, r) != [] && Turned(u, r)[0] == u[r]
    ensures Turned(u, r)[1..] + [u[r]] == Turned(u, if r + 1 == |u| then 0 else r + 1)
  {
  }

  /** The first m picks, going round the nameservers that are up. */
  ghost function RoundRobin(ups: seq<Nameserver>, m: nat): seq<Nameserver>
    requires ups != []
  {
    if m == 0 then [] else RoundRobin(ups, m - 1) + [ups[Phase(m - 1, |ups|)]]
  }

  lemma {:induction false} RoundRobinAt(ups: seq<Nameserver>, m: nat, j: nat)
    requires ups != []
    ensures |RoundRobin(ups, m)| == m && (j < m ==> RoundRobin(ups, m)[j] == ups[Phase(j, |ups|)])
  {
    if m > 0 {
      RoundRobinAt(ups, m - 1, j);
    }
  }

  /** One pick, when the ring stands before up server number r of `ups`. */
  method PickAt(base: ServerBase, ghost ns: seq<Nameserver>, ghost ups: seq<Nameserver>, ghost r: nat)
    returns (picked: Nameserver, ghost ns': seq<Nameserver>)
    requires Valid(base, ns) && r < |ups| && Ups(ns) == Turned(ups, r)
    modifies base`serverHead
    ensures Valid(base, ns') && Members(ns') == Members(ns) && picked == ups[r]
    ensures Ups(ns') == Turned(ups, if r + 1 == |ups| then 0 else r + 1)
  {
    TurnedAgain(ups, r);
    var found;
    ghost var i;
    found, i, ns' := Pick(base, ns);
    picked := found;
  }

  /** Consecutive picks go round the nameservers that are up, whatever number m of them. */
  method PickMany(base: ServerBase, ghost ns: seq<Nameserver>, m: nat) returns (picks: seq<Nameserver>, ghost ns': seq<Nameserver>)
    requires Valid(base, ns) && Ups(ns) != []
    modifies base`serverHead
    ensures Valid(base, ns') && Members(ns') == Members(ns)
    ensures picks == RoundRobin(Ups(ns), m)
  {
    picks, ns' := [], ns;
    ghost var ups := Ups(ns);
    assert Turned(ups, 0) == ups;
    for i := 0 to m
      invariant Valid(base, ns') && Members(ns') == Members(ns)
      invariant Ups(ns') == Turned(ups, Phase(i, |ups|)) && picks == RoundRobin(ups, i)
    {
      PhaseStep(i, |ups|);
      var picked;
      picked, ns' := PickAt(base, ns', ups, Phase(i, |ups|));
      picks := picks + [picked];
    }
  }

  /** So in any k consecutive picks, when k are up, each of them is picked exactly once. */
  lemma FairWindow(ups: seq<Nameserver>, m: nat, i: nat)
    requires ups != [] && i + |ups| <= m && Distinct(ups)
    ensures |RoundRobin(ups, m)| == m
    ensures Distinct(RoundRobin(ups, m)[i..i + |ups|])
    ensures Members(RoundRobin(ups, m)[i..i + |ups|]) == Members(ups)
  {
    var k, picks := |ups|, RoundRobin(ups, m);
    RoundRobinAt(ups, m, 0);
    var window := picks[i..i + k];
    var r := Phase(i, k);
    forall j | 0 <= j < k
      ensures window[j] == ups[if r + j < k then r + j else r + j - k]
    {
      RoundRobinAt(ups, m, i + j);
      PhaseAhead(i, j, k);
    }
    forall a, b | 0 <= a < b < |window|
      ensures Apart(window, a, b)
    {
      var x, y: nat := if r + a < k then r + a else r + a - k, if r + b < k then r + b else r + b - k;
      assert if x < y then Apart(ups, x, y) else Apart(ups, y, x);
    }
    forall s | s in ups
      ensures s in window
    {
      var u :| 0 <= u < k && ups[u] == s;
      assert window[if u >= r then u - r else u - r + k] == s;
    }
  }

  /** How many are up, and which. */
  lemma UpsCounted(ns: seq<Nameserver>)
    requires Distinct(ns)
    ensures |Ups(ns)| == |Members(Ups(ns))|
    ensures forall s :: s in Members(Ups(ns)) <==> s in ns && s.state
  {
    UpsDistinct(ns);
    DistinctCard(Ups(ns));
    forall s: Nameserver
      ensures s in Members(Ups(ns)) <==> s in ns && s.state
    {
      UpIn(ns, s);
    }
  }

  /** nameserver_failed, as far as the ring goes. */
  method Failed(base: ServerBase, ghost ns: seq<Nameserver>, s: Nameserver)
    requires Valid(base, ns) && s in ns
    modifies base`good, s`state, s`failedTimes
    ensures Valid(base, ns) && !s.state && base.good >= 0
    ensures s.failedTimes == if old(s.state) then 1 else old(s.failedTimes)
    ensures Members(Ups(ns)) == old(Members(Ups(ns))) - {s}
  {
    UpsCounted(ns);
    if !s.state {
      return;
    }
    ghost var ups := Members(Ups(ns));
    base.good := base.good - 1;
    s.state := false;
    s.failedTimes := 1;
    UpsCounted(ns);
    assert Members(Ups(ns)) == ups - {s};
    assert Ring(base.serverHead, ns);
  }

  /** nameserver_up, as far as the ring goes. */
  method Up(base: ServerBase, ghost ns: seq<Nameserver>, s: Nameserver)
    requires Valid(base, ns) && s in ns
    modifies base`good, s`state, s`failedTimes
    ensures Valid(base, ns) && s.state
    ensures s.failedTimes == if old(s.state) then old(s.failedTimes) else 0
    ensures Members(Ups(ns)) == old(Members(Ups(ns))) + {s}
  {
    UpsCounted(ns);
    if s.state {
      return;
    }
    ghost var ups := Members(Ups(ns));
    s.state := true;
    s.failedTimes := 0;
    base.good := base.good + 1;
    assert Ring(base.serverHead, ns);
    UpsCounted(ns);
    assert Members(Ups(ns)) == ups + {s};
  }

  /** The end of _evdns_nameserver_add_impl: a new nameserver goes in behind the one that is next in turn. */
  method Add(base: ServerBase, ghost ns: seq<Nameserver>) returns (s: Nameserver, ghost ns': seq<Nameserver>)
    requires Valid(base, ns)
    modifies base, Members(ns)`next, Members(ns)`prev
    ensures fresh(s) && s.state && s.num == |ns| && Valid(base, ns')
    ensures ns' == if ns == [] then [s] else [ns[0], s] + ns[1..]
  {
    s := new Nameserver(|ns|);
    if base.serverHead == null {
      ns' := [s];
      AddFirst(base, s);
    } else {
      ns' := [ns[0], s] + ns[1..];
      SplicedUps(ns, s);
      LinkIn(base.serverHead, ns, s);
      base.good := base.good + 1;
    }
  }

  /** The first nameserver of all. */
  method AddFirst(base: ServerBase, s: Nameserver)
    requires Valid(base, []) && s.state
    modifies base, s`next, s`prev
    ensures Valid(base, [s])
  {
    s.next, s.prev := s, s;
    base.serverHead := s;
    base.good := base.good + 1;
    assert LinkedAt([s], 0);
    assert Ring(s, [s]);
    UpsOne(s);
  }

  lemma SplicedUps(ns: seq<Nameserver>, s: Nameserver)
    requires ns != [] && s.state
    ensures |Ups([ns[0], s] + ns[1..])| == |Ups(ns)| + 1
  {
    UpsOne(s);
    UpsJoin([ns[0]], ns[1..]);
    UpsJoin([ns[0], s], ns[1..]);
    UpsJoin([ns[0]], [s]);
    assert ns == [ns[0]] + ns[1..] && [ns[0], s] == [ns[0]] + [s];
  }

  /** The links of the new nameserver and of its two neighbours. */
  method LinkIn(head: Nameserver, ghost ns: seq<Nameserver>, s: Nameserver)
    requires Ring(head, ns) && s !in ns
    modifies s`next, s`prev, Members(ns)`next, Members(ns)`prev
    ensures Ring(head, [ns[0], s] + ns[1..])
    ensures Ups([ns[0], s] + ns[1..]) == old(Ups([ns[0], s] + ns[1..]))
  {
    ghost var all := [ns[0], s] + ns[1..];
    assert LinkedAt(ns, 0) && (|ns| > 1 ==> LinkedAt(ns, 1));
    forall i, j | 0 <= i < j < |all|
      ensures Apart(all, i, j)
    {
      assert i != 1 && j != 1 ==> Apart(ns, if i == 0 then 0 else i - 1, j - 1);
    }
    Alone(ns, 0);
    if |ns| > 1 {
      Alone(ns, 1);
    }
    s.next := head.next;
    s.prev := head;
    head.next := s;
    s.next.prev := s;
    forall i | 0 <= i < |all|
      ensures LinkedAt(all, i)
    {
      assert i != 1 ==> old(LinkedAt(ns, if i == 0 then 0 else i - 1));
    }
  }

  /** Nameserver number k in turn, counted round and round. */
  method NthInTurn(base: ServerBase, ghost ns: seq<Nameserver>, k: nat) returns (s: Nameserver?)
    requires Ring(base.serverHead, ns)
    ensures if ns == [] then s == null else s == ns[Phase(k, |ns|)]
  {
    s := base.serverHead;
    if s != null {
      var r: Nameserver := s;
      for i := 0 to k
        invariant Ring(base.serverHead, ns) && r == ns[Phase(i, |ns|)]
      {
        PhaseStep(i, |ns|);
        assert LinkedAt(ns, Phase(i, |ns|));
        r := r.next;
      }
      s := r;
    }
  }
}
