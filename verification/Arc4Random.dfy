/** The arc4 generator's state, and uniform random numbers below a bound. */
module Arc4Random {
  import opened Bytes
  import opened Division

  const WORD: nat := 0x1_0000_0000

  ghost predicate Differ(s: seq<byte>, a: nat, b: nat)
    requires a < |s| && b < |s|
  {
    s[a] != s[b]
  }

  /** The table holds no byte twice. */
  ghost predicate Permutation(s: seq<byte>) {
    |s| == 256 && forall a, b :: 0 <= a < b < 256 ==> Differ(s, a, b)
  }

  function Swapped(s: seq<byte>, a: byte, b: byte): seq<byte>
    requires |s| == 256
  {
    s[a := s[b]][b := s[a]]
  }

  lemma SwapKeeps(s: seq<byte>, a: byte, b: byte)
    requires Permutation(s)
    ensures Permutation(Swapped(s, a, b))
  {
    var t := Swapped(s, a, b);
    forall x, y | 0 <= x < y < 256
      ensures Differ(t, x, y)
    {
      var x', y': nat := From(a, b, x), From(a, b, y);
      assert t[x] == s[x'] && t[y] == s[y'] && x' != y';
      assert if x' < y' then Differ(s, x', y') else Differ(s, y', x');
    }
  }

  /** Where the entry at x stood before a swap. */
  function From(a: byte, b: byte, x: nat): nat {
    if x == b then a else if x == a then b else x
  }

  lemma {:induction false} Range(n: nat) returns (r: set<int>)
    ensures |r| == n && forall x :: x in r <==> 0 <= x < n
  {
    if n == 0 {
      r := {};
    } else {
      r := Range(n - 1);
      r := r + {n - 1};
    }
  }

  lemma {:induction false} ManyBytes(s: seq<byte>) returns (r: set<int>)
    requires forall a, b :: 0 <= a < b < |s| ==> Differ(s, a, b)
    ensures |r| == |s| && forall x :: x in r <==> exists k :: 0 <= k < |s| && s[k] == x
  {
    if s == [] {
      r := {};
    } else {
      var n := |s| - 1;
      forall a, b | 0 <= a < b < n
        ensures Differ(s[..n], a, b)
      {
        assert Differ(s, a, b);
      }
      r := ManyBytes(s[..n]);
      assert forall k :: 0 <= k < n ==> Differ(s, k, n) && s[..n][k] == s[k];
      var x: int := s[n];
      r := r + {x};
    }
  }

  lemma Subset(a: set<int>, b: set<int>)
    requires a <= b && |a| == |b|
    ensures a == b
  {
    assert b == a + (b - a) && |b| == |a| + |b - a|;
  }

  /** A table of 256 bytes that holds none twice holds them all. */
  lemma EveryByte(s: seq<byte>, x: byte)
    requires Permutation(s)
    ensures exists k :: 0 <= k < 256 && s[k] == x
  {
    var r := ManyBytes(s);
    var all := Range(256);
    forall z | z in r
      ensures z in all
    {
      var k :| 0 <= k < 256 && s[k] == z;
    }
    Subset(r, all);
    var y: int := x;
    assert y in r;
  }

  function Sum(a: byte, b: byte): byte {
    var x: int, y: int := a, b;
    (x + y) % 256
  }

  function Cyclic(dat: seq<byte>, n: nat): byte
    requires dat != []
  {
    dat[n % |dat|]
  }

  /** The state of the generator as a value. */
  datatype Arc4 = Arc4(i: byte, j: byte, s: seq<byte>)

  type Arc4State = st: Arc4 | |st.s| == 256 witness Arc4(0, 0, seq(256, _ => 0 as byte))

  /** One step of the cipher, and the byte that the state reached gives out. */
  function Stepped(st: Arc4State): Arc4State {
    var i := Sum(st.i, 1);
    var j := Sum(st.j, st.s[i]);
    Arc4(i, j, Swapped(st.s, i, j))
  }

  function Output(st: Arc4State): byte {
    st.s[Sum(st.s[st.i], st.s[st.j])]
  }

  /** Of two states with one table, the byte given out tells where it stood. */
  lemma OutputTells(a: Arc4State, b: Arc4State)
    requires a.s == b.s && Permutation(a.s) && Output(a) == Output(b)
    ensures Sum(a.s[a.i], a.s[a.j]) == Sum(b.s[b.i], b.s[b.j])
  {
    var p, q := Sum(a.s[a.i], a.s[a.j]), Sum(b.s[b.i], b.s[b.j]);
    assert p < q ==> Differ(a.s, p, q);
    assert q < p ==> Differ(a.s, q, p);
  }

  function Minus(a: byte, b: byte): byte {
    var x: int, y: int := a, b;
    (x - y) % 256
  }

  lemma MinusSum(a: byte, b: byte)
    ensures Minus(Sum(a, b), b) == a && Sum(Minus(a, b), b) == a
  {
  }

  /** The step before. */
  function Back(st: Arc4State): Arc4State {
    var s := Swapped(st.s, st.i, st.j);
    Arc4(Minus(st.i, 1), Minus(st.j, s[st.i]), s)
  }

  lemma SwapTwice(s: seq<byte>, a: byte, b: byte)
    requires |s| == 256
    ensures Swapped(Swapped(s, a, b), a, b) == s
  {
  }

  /** Steps can be taken back: no two states step to the same one. */
  lemma StepBack(st: Arc4State)
    ensures Back(Stepped(st)) == st && Stepped(Back(st)) == st
  {
    var t, u := Stepped(st), Back(st);
    SwapTwice(st.s, t.i, t.j);
    SwapTwice(st.s, st.i, st.j);
    MinusSum(st.i, 1);
    MinusSum(st.j, st.s[t.i]);
    MinusSum(st.j, u.s[st.i]);
  }

  /** A swap that also uses a byte of the data. */
  function Stirred(st: Arc4State, d: byte): Arc4State {
    var i := Sum(st.i, 1);
    var j := Sum(Sum(st.j, st.s[i]), d);
    Arc4(i, j, Swapped(st.s, i, j))
  }

  /** The swap before, with the same byte. */
  function Unstirred(st: Arc4State, d: byte): Arc4State {
    var s := Swapped(st.s, st.i, st.j);
    Arc4(Minus(st.i, 1), Minus(Minus(st.j, d), s[st.i]), s)
  }

  /** A swap with a byte that is known can be taken back... */
  lemma StirBack(st: Arc4State, d: byte)
    ensures Unstirred(Stirred(st, d), d) == st && Stirred(Unstirred(st, d), d) == st
  {
    var t, u := Stirred(st, d), Unstirred(st, d);
    SwapTwice(st.s, t.i, t.j);
    SwapTwice(st.s, st.i, st.j);
    MinusSum(st.i, 1);
    MinusSum(Sum(st.j, st.s[t.i]), d);
    MinusSum(st.j, st.s[t.i]);
    MinusSum(st.j, d);
    MinusSum(Minus(st.j, d), u.s[st.i]);
  }

  /** ...and the state tells which byte it was; with the byte 0 it is a step of the cipher. */
  lemma StirTells(st: Arc4State, d: byte, e: byte)
    ensures Stirred(st, d) == Stirred(st, e) ==> d == e
    ensures Stirred(st, 0) == Stepped(st)
  {
    var x := Sum(st.j, st.s[Sum(st.i, 1)]);
    var z: int, a: int, b: int := x, d, e;
    if Stirred(st, d) == Stirred(st, e) {
      assert (z + a) % 256 == (z + b) % 256;
      assert a == b;
    }
    assert Sum(x, 0) == x;
  }

  /** The state after n such swaps; the data is gone through again and again. */
  ghost function Keyed(st: Arc4State, dat: seq<byte>, n: nat): Arc4State
    requires dat != []
  {
    if n == 0 then st else Stirred(Keyed(st, dat, n - 1), Cyclic(dat, n - 1))
  }

  lemma CyclicAt(dat: seq<byte>, n: nat)
    requires n < |dat|
    ensures Cyclic(dat, n) == dat[n]
  {
  }

  lemma KeyedLast(st: Arc4State, dat: seq<byte>, n: nat)
    requires 0 < n <= |dat|
    ensures Keyed(st, dat, n) == Stirred(Keyed(st, dat, n - 1), dat[n - 1])
  {
    CyclicAt(dat, n - 1);
  }

  /** The same bytes have the same effect. */
  lemma {:induction false} KeyedAlike(st: Arc4State, a: seq<byte>, b: seq<byte>, n: nat)
    requires a != [] && b != [] && forall i: nat :: i < n ==> Cyclic(a, i) == Cyclic(b, i)
    ensures Keyed(st, a, n) == Keyed(st, b, n)
  {
    if n > 0 {
      KeyedAlike(st, a, b, n - 1);
    }
  }

  lemma KeyedPrefix(st: Arc4State, a: seq<byte>, b: seq<byte>, n: nat)
    requires |a| == |b| && n < |a| && forall i :: 0 <= i < n ==> a[i] == b[i]
    ensures Keyed(st, a, n) == Keyed(st, b, n)
  {
    forall i: nat | i < n
      ensures Cyclic(a, i) == Cyclic(b, i)
    {
      CyclicAt(a, i);
      CyclicAt(b, i);
    }
    KeyedAlike(st, a, b, n);
  }

  lemma StirredApart(st: Arc4State, d: byte, e: byte, t: Arc4State, u: Arc4State)
    requires t == Stirred(st, d) && u == Stirred(st, e) && d != e
    ensures t != u
  {
    StirTells(st, d, e);
  }

  /** Two strings that differ in the byte that is used last lead to different states. */
  lemma KeyedApart(st: Arc4State, a: seq<byte>, b: seq<byte>, n: nat)
    requires |a| == |b| && 0 < n <= |a| && (forall i :: 0 <= i < n - 1 ==> a[i] == b[i]) && a[n - 1] != b[n - 1]
    ensures Keyed(st, a, n) != Keyed(st, b, n)
  {
    KeyedPrefix(st, a, b, n - 1);
    KeyedLast(st, a, n);
    KeyedLast(st, b, n);
    StirredApart(Keyed(st, a, n - 1), a[n - 1], b[n - 1], Keyed(st, a, n), Keyed(st, b, n));
  }

  /** Data that is used up begins again: it does the same as data written out as often as needed. */
  lemma KeyedRepeats(st: Arc4State, dat: seq<byte>, long: seq<byte>, n: nat)
    requires dat != [] && long != [] && n <= |long| && forall i :: 0 <= i < |long| ==> long[i] == dat[i % |dat|]
    ensures Keyed(st, dat, n) == Keyed(st, long, n)
  {
    forall i: nat | i < n
      ensures Cyclic(dat, i) == Cyclic(long, i)
    {
      CyclicAt(long, i);
    }
    KeyedAlike(st, dat, long, n);
  }

  /** n places on from i, round the table. */
  ghost function Place(i: byte, n: nat): int {
    var x: int := i;
    (x + n) % 256
  }

  lemma NextPlace(k: byte, i: byte, n: nat)
    requires k == Place(i, n)
    ensures Sum(k, 1) == Place(i, n + 1)
  {
  }

  /** 256 of them go all round the table. */
  lemma {:induction false} KeyedAround(st: Arc4State, dat: seq<byte>, n: nat)
    requires dat != []
    ensures Keyed(st, dat, n).i == Place(st.i, n)
  {
    if n > 0 {
      KeyedAround(st, dat, n - 1);
      NextPlace(Keyed(st, dat, n - 1).i, st.i, n - 1);
    }
  }

  function BigEndian(bs: seq<byte>): nat {
    if bs == [] then 0 else 256 * BigEndian(bs[..|bs| - 1]) + bs[|bs| - 1]
  }

  lemma FourBytes(b0: byte, b1: byte, b2: byte, b3: byte)
    ensures BigEndian([b0, b1, b2, b3]) == b0 * 0x100_0000 + b1 * 0x1_0000 + b2 * 0x100 + b3
  {
    var s1: seq<byte>, s2: seq<byte>, s3: seq<byte>, s4: seq<byte> := [b0], [b0, b1], [b0, b1, b2], [b0, b1, b2, b3];
    assert s2[..1] == s1 && s3[..2] == s2 && s4[..3] == s3;
    assert BigEndian(s1) == b0;
    assert BigEndian(s2) == 256 * b0 + b1;
  }

  /** struct arc4_stream. */
  class Arc4Stream {
    var i: byte
    var j: byte
    var s: seq<byte>

    constructor ()
      ensures Permutation(s) && i == 0 && j == 0
      ensures forall n :: 0 <= n < 256 ==> s[n] == n
    {
      i, j, s := 0, 0, seq(256, n requires 0 <= n < 256 => n as byte);
    }

    function State(): Arc4State
      requires |s| == 256
      reads this
    {
      Arc4(i, j, s)
    }

    /** A swap of two entries. */
    method Swap(a: byte, b: byte)
      requires Permutation(s)
      modifies this`s
      ensures Permutation(s) && s == Swapped(old(s), a, b)
    {
      SwapKeeps(s, a, b);
      var sa := s[a];
      s := s[a := s[b]];
      s := s[b := sa];
    }

    /** The loop body of arc4_addrandom. */
    method Stir(d: byte)
      requires Permutation(s)
      modifies this
      ensures Permutation(s) && State() == Stirred(old(State()), d)
    {
      i := Sum(i, 1);
      j := Sum(Sum(j, s[i]), d);
      Swap(i, j);
    }

    /** arc4_addrandom: 256 swaps, driven by the data, all round the table. */
    method AddRandom(dat: seq<byte>)
      requires Permutation(s) && dat != []
      modifies this
      ensures Permutation(s) && i == Sum(old(i), 255) && j == i
      ensures s == Keyed(old(State()).(i := i), dat, 256).s
    {
      i := Sum(i, 255);
      ghost var start := State();
      KeyedAround(start, dat, 256);
      for n := 0 to 256
        invariant Permutation(s) && State() == Keyed(start, dat, n)
      {
        Stir(Cyclic(dat, n));
      }
      j := i;
    }

    /** arc4_getbyte. */
    method GetByte() returns (r: byte)
      requires Permutation(s)
      modifies this
      ensures Permutation(s) && State() == Stepped(old(State())) && r == Output(State())
    {
      i := Sum(i, 1);
      var si := s[i];
      j := Sum(j, si);
      var sj := s[j];
      Swap(i, j);
      r := s[Sum(si, sj)];
    }

    /** arc4_getword: the next four bytes, the first in the highest place. */
    method GetWord() returns (val: nat)
      requires Permutation(s)
      modifies this
      ensures Permutation(s) && val < WORD
      ensures var st1 := Stepped(old(State()));
        var st2 := Stepped(st1);
        var st3 := Stepped(st2);
        var st4 := Stepped(st3);
        State() == st4 && val == BigEndian([Output(st1), Output(st2), Output(st3), Output(st4)])
    {
      var b0: int := GetByte();
      var b1: int := GetByte();
      var b2: int := GetByte();
      var b3: int := GetByte();
      val := b0 * 0x100_0000 + b1 * 0x1_0000 + b2 * 0x100 + b3;
      FourBytes(b0, b1, b2, b3);
    }
  }

  /** A generator that has not been seeded yet gives out 2, 5, 7 and 13, the first of them in the highest place. */
  method FirstWord() returns (val: nat)
    ensures val == 0x0205070d
  {
    var rs := new Arc4Stream();
    ghost var st0 := rs.State();
    ghost var st1 := Stepped(st0);
    assert st1.i == 1 && st1.j == 1 && st1.s == st0.s;
    ghost var st2 := Stepped(st1);
    assert st2.i == 2 && st2.j == 3 && st2.s == st0.s[2 := 3][3 := 2];
    ghost var st3 := Stepped(st2);
    assert st3.i == 3 && st3.j == 5 && st3.s == st0.s[2 := 3][3 := 5][5 := 2];
    ghost var st4 := Stepped(st3);
    assert st4.i == 4 && st4.j == 9 && st4.s == st0.s[2 := 3][3 := 5][5 := 2][4 := 9][9 := 4];
    assert Output(st1) == 2 && Output(st2) == 5 && Output(st3) == 7 && Output(st4) == 13;
    val := rs.GetWord();
    FourBytes(2, 5, 7, 13);
  }

  lemma LargeBound(u: nat)
    requires 0x8000_0000 < u < WORD
    ensures WORD - u == WORD % u
  {
    assert WORD == u * 1 + (WORD - u);
    ModUnique(1, WORD - u, u);
  }

  /** The 32-bit expression is 2^32 - 2u, which has the remainder of 2^32. */
  lemma SmallBound(u: nat)
    requires 2 <= u <= 0x8000_0000
    ensures ((0xffff_ffff - u * 2 % WORD) + 1) % WORD % u == WORD % u
  {
    if u == 0x8000_0000 {
      assert u * 2 % WORD == 0;
    } else {
      var room := WORD - u * 2;
      assert u * 2 % WORD == u * 2;
      assert ((0xffff_ffff - u * 2) + 1) % WORD == room;
      assert room == WORD + u * (-2);
      ModAdd(WORD, u, -2);
    }
  }

  /** The 32-bit computation of the smallest number that is accepted: no 64-bit arithmetic. */
  method SmallestAccepted(upperBound: nat) returns (min: nat)
    requires 2 <= upperBound < WORD
    ensures min == WORD % upperBound
  {
    if upperBound > 0x8000_0000 {
      min := (1 + (0xffff_ffff - upperBound)) % WORD;
      LargeBound(upperBound);
    } else {
      SmallBound(upperBound);
      min := ((0xffff_ffff - upperBound * 2 % WORD) + 1) % WORD % upperBound;
    }
  }

  /** arc4random_uniform, on the numbers that arc4random will give. The model stops when it has no more of them. */
  method Uniform(upperBound: nat, random: seq<nat>) returns (done: bool, value: nat)
    requires upperBound < WORD && forall k :: 0 <= k < |random| ==> random[k] < WORD
    ensures upperBound < 2 ==> done && value == 0
    ensures upperBound >= 2 && done ==> exists k :: 0 <= k < |random| && FirstAccepted(random, upperBound, k) && value == random[k] % upperBound
    ensures upperBound >= 2 && !done ==> forall k :: 0 <= k < |random| ==> random[k] < WORD % upperBound
  {
    if upperBound < 2 {
      return true, 0;
    }
    var min := SmallestAccepted(upperBound);
    for k := 0 to |random|
      invariant forall m :: 0 <= m < k ==> random[m] < min
    {
      var r := random[k];
      if r >= min {
        assert FirstAccepted(random, upperBound, k);
        return true, r % upperBound;
      }
    }
    done, value := false, 0;
  }

  ghost predicate FirstAccepted(random: seq<nat>, upperBound: nat, k: nat)
    requires upperBound > 0 && k < |random|
  {
    random[k] >= WORD % upperBound && forall m :: 0 <= m < k ==> random[m] < WORD % upperBound
  }

  /** The numbers of q runs of u numbers, from m on, that have remainder v. */
  ghost function Preimages(m: int, u: nat, q: nat, v: nat): set<int>
    requires u > 0
  {
    set r | m <= r < m + q * u && r % u == v
  }

  /** The number with remainder v among u successive ones. */
  lemma OneInARow(base: int, u: nat, v: nat) returns (w: int)
    requires v < u
    ensures base <= w < base + u && w % u == v
    ensures forall r :: base <= r < base + u && r % u == v ==> r == w
  {
    w := base + (v - base) % u;
    var t := (v - base) / u;
    assert v - base == u * t + (v - base) % u;
    assert w == u * (-t) + v;
    ModUnique(-t, v, u);
    forall r | base <= r < base + u && r % u == v
      ensures r == w
    {
      assert r == u * (r / u) + v;
      assert u * (r / u + t) == r - w;
      Scaled(u, r / u + t);
    }
  }

  lemma {:induction false} PreimageCount(m: int, u: nat, q: nat, v: nat)
    requires v < u
    ensures |Preimages(m, u, q, v)| == q
  {
    if q == 0 {
      assert Preimages(m, u, q, v) == {};
    } else {
      PreimageCount(m, u, q - 1, v);
      assert q * u == (q - 1) * u + u;
      var w := OneInARow(m + (q - 1) * u, u, v);
      assert (q - 1) * u >= 0;
      assert Preimages(m, u, q, v) == Preimages(m, u, q - 1, v) + {w};
    }
  }

  /** arc4random_uniform has no bias: every result has the same number of accepted numbers behind it. */
  lemma Unbiased(upperBound: nat, v: nat)
    requires 2 <= upperBound < WORD && v < upperBound
    ensures var min := WORD % upperBound;
      |set r | min <= r < WORD && r % upperBound == v| == (WORD - min) / upperBound
  {
    var min, q := WORD % upperBound, WORD / upperBound;
    assert WORD == upperBound * q + min && q * upperBound == upperBound * q;
    PreimageCount(min, upperBound, q, v);
    assert Preimages(min, upperBound, q, v) == set r | min <= r < WORD && r % upperBound == v;
    assert WORD - min == upperBound * q + 0;
    DivisionUnique(upperBound, q, 0, (WORD - min) / upperBound, (WORD - min) % upperBound);
  }

  /** And more than half of all numbers are accepted. */
  lemma MoreThanHalf(upperBound: nat)
    requires 2 <= upperBound < WORD
    ensures WORD - WORD % upperBound > WORD / 2
  {
    if upperBound > WORD / 2 {
      assert WORD == upperBound * 1 + (WORD - upperBound);
      ModUnique(1, WORD - upperBound, upperBound);
    }
  }
}
