/** Any run of picks, failures, recoveries and additions on the ring of nameservers. */
module NameserverRuns {
  import opened Lists
  import opened Division
  import opened Nameservers

  /** A nameserver as a plain value: its number, and whether it is thought to be up. */
  datatype Server = Server(num: nat, up: bool)

  datatype Choice = Nobody | Chosen(num: nat)

  /** What happens to the ring; a nameserver is named by its turn. */
  datatype Call = PickOne | Fail(k: nat) | Recover(k: nat) | AddOne

  /** The nameservers, from the one that is next in turn; and all that have been picked. */
  datatype History = History(line: seq<Server>, picks: seq<Choice>)

  /** How many servers stand before the first one that is up. */
  ghost function FirstUp(line: seq<Server>): (i: nat)
    ensures i <= |line| && (forall j :: 0 <= j < i ==> !line[j].up) && (i < |line| ==> line[i].up)
  {
    if line == [] || line[0].up then 0 else 1 + FirstUp(line[1..])
  }

  /** The first server that is up; with none up, the second in turn. The line begins behind it, or is moved by one. */
  ghost function Pick1(line: seq<Server>): (Choice, seq<Server>) {
    if line == [] then (Nobody, line)
    else
      var i := FirstUp(line);
      if i < |line| then (Chosen(line[i].num), Turned(line, i + 1))
      else (Chosen(line[if |line| == 1 then 0 else 1].num), Turned(line, 1))
  }

  ghost function Switched(line: seq<Server>, k: nat, up: bool): seq<Server> {
    if line == [] then line
    else
      var i := Phase(k, |line|);
      line[i := line[i].(up := up)]
  }

  ghost function Step(h: History, call: Call): History {
    match call
    case PickOne => History(Pick1(h.line).1, h.picks + [Pick1(h.line).0])
    case Fail(k) => h.(line := Switched(h.line, k, false))
    case Recover(k) => h.(line := Switched(h.line, k, true))
    case AddOne =>
      var s := Server(|h.line|, true);
      h.(line := if h.line == [] then [s] else [h.line[0], s] + h.line[1..])
  }

  ghost function Ran(calls: seq<Call>): History {
    if calls == [] then History([], []) else Step(Ran(calls[..|calls| - 1]), calls[|calls| - 1])
  }

  /** The ring as plain values. */
  ghost function View(ns: seq<Nameserver>): seq<Server>
    reads Members(ns)
  {
    seq(|ns|, i requires 0 <= i < |ns| reads Members(ns) => Server(ns[i].num, ns[i].state))
  }

  lemma ViewTurned(ns: seq<Nameserver>, i: nat)
    requires i <= |ns|
    ensures View(Turned(ns, i)) == Turned(View(ns), i)
  {
  }

  /** The first that is up, as the list of those that are up has it. */
  lemma FirstUpIs(ns: seq<Nameserver>, i: nat)
    requires i < |ns| && Down(ns, i) && ns[i].state
    ensures FirstUp(View(ns)) == i
  {
    var v := View(ns);
    assert v[i].up && forall j :: 0 <= j < i ==> !v[j].up by {
      assert forall j :: 0 <= j < i ==> !ns[j].state;
    }
  }

  lemma NoneUp(ns: seq<Nameserver>)
    requires Ups(ns) == []
    ensures FirstUp(View(ns)) == |ns|
  {
    forall j | 0 <= j < |ns|
      ensures !View(ns)[j].up
    {
      UpIn(ns, ns[j]);
    }
  }

  /** nameserver_pick does what it does to the plain line. */
  method PickCall(base: ServerBase, ghost ns: seq<Nameserver>) returns (picked: Nameserver?, ghost ns': seq<Nameserver>)
    requires Valid(base, ns)
    modifies base`serverHead
    ensures Valid(base, ns') && Members(ns') == Members(ns)
    ensures View(ns') == Pick1(View(ns)).1
    ensures Pick1(View(ns)).0 == if picked == null then Nobody else Chosen(picked.num)
  {
    ghost var i;
    picked, i, ns' := Pick(base, ns);
    if Ups(ns) != [] {
      FirstUpIs(ns, i);
      ViewTurned(ns, i + 1);
    } else {
      NoneUp(ns);
      if ns != [] {
        ViewTurned(ns, 1);
      }
    }
  }

  /** nameserver_failed or nameserver_up of a nameserver. */
  method SwitchCall(base: ServerBase, ghost ns: seq<Nameserver>, k: nat, up: bool)
    requires Valid(base, ns)
    modifies base`good, Members(ns)`state, Members(ns)`failedTimes
    ensures Valid(base, ns) && View(ns) == Switched(old(View(ns)), k, up)
  {
    var s := NthInTurn(base, ns, k);
    if s != null {
      Alone(ns, Phase(k, |ns|));
      if up {
        Up(base, ns, s);
      } else {
        Failed(base, ns, s);
      }
    }
  }

  method AddCall(base: ServerBase, ghost ns: seq<Nameserver>) returns (ghost ns': seq<Nameserver>)
    requires Valid(base, ns)
    modifies base, Members(ns)`next, Members(ns)`prev
    ensures Valid(base, ns') && fresh(Members(ns') - Members(ns))
    ensures var s := Server(|ns|, true); View(ns') == if ns == [] then [s] else [old(View(ns))[0], s] + old(View(ns))[1..]
  {
    var s;
    ghost var was := View(ns);
    s, ns' := Add(base, ns);
    ghost var one := Server(|ns|, true);
    ghost var to := if ns == [] then [one] else [was[0], one] + was[1..];
    assert |View(ns')| == |to| && forall i :: 0 <= i < |to| ==> View(ns')[i] == to[i];
  }

  /** One call, and the nameserver it has picked. */
  method OneCall(base: ServerBase, ghost ns: seq<Nameserver>, call: Call, ghost h: History)
    returns (picks: seq<Nameserver?>, ghost ns': seq<Nameserver>)
    requires Valid(base, ns) && View(ns) == h.line
    modifies base, Members(ns)
    ensures Valid(base, ns') && fresh(Members(ns') - Members(ns)) && View(ns') == Step(h, call).line
    ensures Step(h, call).picks == h.picks + Choices(picks)
  {
    picks, ns' := [], ns;
    assert h.picks + [] == h.picks;
    match call {
      case PickOne =>
        var picked;
        picked, ns' := PickCall(base, ns);
        picks := [picked];
      case Fail(k) => SwitchCall(base, ns, k, false);
      case Recover(k) => SwitchCall(base, ns, k, true);
      case AddOne => ns' := AddCall(base, ns);
    }
  }

  ghost function Choices(picks: seq<Nameserver?>): seq<Choice> {
    seq(|picks|, i requires 0 <= i < |picks| => if picks[i] == null then Nobody else Chosen(picks[i].num))
  }

  /**
   * Every run of calls on a new base does to the ring what it does to a plain line of servers, and picks the same ones.
   */
  method Run(calls: seq<Call>) returns (base: ServerBase, picks: seq<Nameserver?>, ghost ns: seq<Nameserver>)
    ensures fresh(base) && fresh(Members(ns)) && Valid(base, ns)
    ensures Ran(calls) == History(View(ns), Choices(picks))
    decreases |calls|
  {
    if calls == [] {
      base := new ServerBase();
      picks, ns := [], [];
    } else {
      var n := |calls| - 1;
      base, picks, ns := Run(calls[..n]);
      var more;
      ghost var was := ns;
      more, ns := OneCall(base, ns, calls[n], Ran(calls[..n]));
      assert Members(ns) <= Members(was) + (Members(ns) - Members(was));
      assert Choices(picks + more) == Choices(picks) + Choices(more);
      picks := picks + more;
    }
  }

  /** No pick gives out a server that is down while one is up; and it is nobody only when there is no server. */
  lemma PickIsUp(calls: seq<Call>)
    requires calls != [] && calls[|calls| - 1].PickOne?
    ensures var line, picks := Ran(calls[..|calls| - 1]).line, Ran(calls).picks;
      && picks != []
      && (picks[|picks| - 1] == Nobody <==> line == [])
      && ((exists s :: s in line && s.up) ==> exists s :: s in line && s.up && picks[|picks| - 1] == Chosen(s.num))
  {
    var line := Ran(calls[..|calls| - 1]).line;
    var i := FirstUp(line);
    if i < |line| {
      assert line[i] in line && Pick1(line).0 == Chosen(line[i].num);
    }
  }

  ghost function Adds(calls: seq<Call>): nat {
    if calls == [] then 0 else Adds(calls[..|calls| - 1]) + if calls[|calls| - 1].AddOne? then 1 else 0
  }

  /** How often a number stands in the line. */
  ghost function Stands(line: seq<Server>, num: nat): nat {
    if line == [] then 0 else (if line[0].num == num then 1 else 0) + Stands(line[1..], num)
  }

  lemma {:induction false} StandsJoin(a: seq<Server>, b: seq<Server>, num: nat)
    ensures Stands(a + b, num) == Stands(a, num) + Stands(b, num)
  {
    if a == [] {
      assert a + b == b;
    } else {
      assert (a + b)[1..] == a[1..] + b;
      StandsJoin(a[1..], b, num);
    }
  }

  /** Turning the line, and switching a server, moves nobody in or out. */
  lemma TurnedStands(line: seq<Server>, i: nat, num: nat)
    requires i <= |line|
    ensures Stands(Turned(line, i), num) == Stands(line, num)
  {
    StandsJoin(line[i..], line[..i], num);
    StandsJoin(line[..i], line[i..], num);
    assert line == line[..i] + line[i..];
  }

  lemma SwitchedStands(line: seq<Server>, k: nat, up: bool, num: nat)
    ensures Stands(Switched(line, k, up), num) == Stands(line, num)
  {
    if line != [] {
      var i := Phase(k, |line|);
      var a, b, s := line[..i], line[i + 1..], line[i];
      assert line == a + ([s] + b) && Switched(line, k, up) == a + ([s.(up := up)] + b);
      StandsJoin(a, [s] + b, num);
      StandsJoin(a, [s.(up := up)] + b, num);
      StandsJoin([s], b, num);
      StandsJoin([s.(up := up)], b, num);
    }
  }

  lemma AddedStands(line: seq<Server>, s: Server, num: nat)
    requires line != []
    ensures Stands([line[0], s] + line[1..], num) == Stands(line, num) + if s.num == num then 1 else 0
  {
    var a, b, c := [line[0]], [s], line[1..];
    assert [line[0], s] + c == a + (b + c) && line == a + c;
    StandsJoin(a, b + c, num);
    StandsJoin(b, c, num);
    StandsJoin(a, c, num);
    assert Stands(b, num) == if s.num == num then 1 else 0 by {
      assert b[1..] == [];
    }
  }

  /** Each server that has been added stands in the line once, and nobody else does. */
  ghost predicate AllStand(line: seq<Server>) {
    forall num: nat :: Stands(line, num) == if num < |line| then 1 else 0
  }

  lemma StepStands(h: History, call: Call)
    requires AllStand(h.line)
    ensures AllStand(Step(h, call).line) && |Step(h, call).line| == |h.line| + if call.AddOne? then 1 else 0
  {
    forall num: nat
      ensures Stands(Step(h, call).line, num) == Stands(h.line, num) + if call.AddOne? && num == |h.line| then 1 else 0
    {
      match call {
        case PickOne =>
          if h.line != [] {
            var i := FirstUp(h.line);
            TurnedStands(h.line, if i < |h.line| then i + 1 else 1, num);
          }
        case Fail(k) => SwitchedStands(h.line, k, false, num);
        case Recover(k) => SwitchedStands(h.line, k, true, num);
        case AddOne =>
          if h.line != [] {
            AddedStands(h.line, Server(|h.line|, true), num);
          }
      }
    }
  }

  /** After any run every server that has been added stands in the line once. */
  lemma {:induction false} RunStands(calls: seq<Call>)
    ensures AllStand(Ran(calls).line) && |Ran(calls).line| == Adds(calls)
  {
    if calls != [] {
      RunStands(calls[..|calls| - 1]);
      StepStands(Ran(calls[..|calls| - 1]), calls[|calls| - 1]);
    }
  }

  /** The line after n picks. */
  ghost function Onward(line: seq<Server>, n: nat): seq<Server>
    decreases n
  {
    if n == 0 then line else Onward(Pick1(line).1, n - 1)
  }

  /** Who is picked is the first in turn that is up; who was passed over was down; nobody's state changes. */
  lemma PickMeans(line: seq<Server>, i: nat)
    requires i < |line| && line[i].up && forall j :: 0 <= j < i ==> !line[j].up
    ensures Pick1(line) == (Chosen(line[i].num), line[i + 1..] + line[..i + 1])
  {
    assert FirstUp(line) == i;
  }

  /** With nobody up the second in turn is tried, and the turn moves on by one. */
  lemma PickBlind(line: seq<Server>)
    requires |line| >= 2 && forall j :: 0 <= j < |line| ==> !line[j].up
    ensures Pick1(line) == (Chosen(line[1].num), line[1..] + [line[0]])
  {
    assert line[..1] == [line[0]];
  }

  /** Nobody starves: a server that is up is picked, at the latest, when all before it have had their turn. */
  lemma {:induction false} PickedWithin(line: seq<Server>, p: nat) returns (k: nat)
    requires p < |line| && line[p].up
    ensures k <= p && Pick1(Onward(line, k)).0 == Chosen(line[p].num)
    decreases p
  {
    var i := FirstUp(line);
    k := 0;
    if i < p {
      var next := Pick1(line).1;
      assert next[p - i - 1] == line[p];
      k := PickedWithin(next, p - i - 1);
      k := k + 1;
    }
  }

  lemma {:induction false} PhaseIsMod(i: nat, k: nat)
    requires k > 0
    ensures Phase(i, k) == i % k
  {
    if i >= k {
      PhaseIsMod(i - k, k);
      assert i % k == (i - k) % k by {
        var q := (i - k) / k;
        assert i - k == k * q + (i - k) % k;
        assert i == k * (q + 1) + (i - k) % k;
        ModUnique(q + 1, (i - k) % k, k);
      }
    }
  }

  /** Failing and coming up change the state of that server, counted round and round, and nothing else; a new one is up and second. */
  lemma SwitchMeans(h: History, k: nat, up: bool, j: nat)
    requires j < |h.line|
    ensures var next := Step(h, if up then Recover(k) else Fail(k));
      && next.picks == h.picks && |next.line| == |h.line| && next.line[j].num == h.line[j].num
      && next.line[j].up == if j == k % |h.line| then up else h.line[j].up
    ensures var next := Step(h, AddOne);
      next.picks == h.picks && next.line == [h.line[0], Server(|h.line|, true)] + h.line[1..]
  {
    PhaseIsMod(k, |h.line|);
  }
}
