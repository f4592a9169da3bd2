/** Lists of distinct things. */
module Lists {

  ghost predicate Apart<T>(s: seq<T>, i: nat, j: nat)
    requires i < |s| && j < |s|
  {
    s[i] != s[j]
  }

  ghost predicate Distinct<T>(s: seq<T>) {
    forall i, j :: 0 <= i < j < |s| ==> Apart(s, i, j)
  }

  ghost function Members<T>(s: seq<T>): set<T> {
    set x <- s
  }

  /** The list without its member number k. */
  function Without<T>(s: seq<T>, k: nat): seq<T>
    requires k < |s|
  {
    s[..k] + s[k + 1..]
  }

  lemma Alone<T>(s: seq<T>, k: nat)
    requires Distinct(s) && k < |s|
    ensures forall i :: 0 <= i < |s| && i != k ==> s[i] != s[k]
  {
    forall i | 0 <= i < |s| && i != k
      ensures s[i] != s[k]
    {
      assert if i < k then Apart(s, i, k) else Apart(s, k, i);
    }
  }

  /** Distinctness of a list made of parts of two that share nothing. */
  lemma DistinctJoin<T>(a: seq<T>, b: seq<T>)
    requires Distinct(a) && Distinct(b) && Members(a) !! Members(b)
    ensures Distinct(a + b)
  {
    forall i, j | 0 <= i < j < |a + b|
      ensures Apart(a + b, i, j)
    {
      if j < |a| {
        assert Apart(a, i, j);
      } else if i >= |a| {
        assert Apart(b, i - |a|, j - |a|);
      } else {
        assert a[i] in Members(a) && b[j - |a|] in Members(b);
      }
    }
  }

  lemma DistinctSlice<T>(a: seq<T>, lo: nat, hi: nat)
    requires Distinct(a) && lo <= hi <= |a|
    ensures Distinct(a[lo..hi])
  {
    forall i, j | 0 <= i < j < hi - lo
      ensures Apart(a[lo..hi], i, j)
    {
      assert Apart(a, lo + i, lo + j);
    }
  }

  lemma DistinctDrop<T>(a: seq<T>, k: nat)
    requires Distinct(a) && k <= |a|
    ensures Distinct(a[k..])
  {
    DistinctSlice(a, k, |a|);
    assert a[k..|a|] == a[k..];
  }

  lemma DistinctPrefix<T>(s: seq<T>, n: nat)
    requires Distinct(s) && n <= |s|
    ensures Distinct(s[..n]) && (n < |s| ==> s[n] !in s[..n])
  {
    DistinctSlice(s, 0, n);
    assert s[0..n] == s[..n];
    if n < |s| {
      Alone(s, n);
    }
  }

  lemma DistinctSnoc<T>(s: seq<T>, x: T)
    requires Distinct(s) && x !in s
    ensures Distinct(s + [x])
  {
    forall i, j | 0 <= i < j <= |s|
      ensures Apart(s + [x], i, j)
    {
      assert j < |s| ==> Apart(s, i, j);
    }
  }

  /** A member that is taken out is gone, and no other; the order stays. */
  lemma WithoutMeans<T>(s: seq<T>, k: nat)
    requires Distinct(s) && k < |s|
    ensures Distinct(Without(s, k)) && Members(Without(s, k)) == Members(s) - {s[k]}
    ensures forall i :: 0 <= i < k ==> Without(s, k)[i] == s[i]
    ensures forall i :: k <= i < |s| - 1 ==> Without(s, k)[i] == s[i + 1]
  {
    Alone(s, k);
    var r := Without(s, k);
    forall i, j | 0 <= i < j < |r|
      ensures Apart(r, i, j)
    {
      assert Apart(s, if i < k then i else i + 1, if j < k then j else j + 1);
    }
    assert s == s[..k] + [s[k]] + s[k + 1..];
  }

  /** The same, said member by member. */
  lemma WithoutHolds<T>(s: seq<T>, k: nat)
    requires Distinct(s) && k < |s|
    ensures Distinct(Without(s, k))
    ensures forall x :: x in Without(s, k) <==> x in s && x != s[k]
  {
    WithoutMeans(s, k);
    assert forall x :: x in Without(s, k) <==> x in Members(Without(s, k));
  }

  /** The list without a member, said by its value. */
  ghost function Minus<T>(s: seq<T>, x: T): seq<T> {
    if s == [] then [] else Minus(s[..|s| - 1], x) + if s[|s| - 1] == x then [] else [s[|s| - 1]]
  }

  lemma MinusSnoc<T>(s: seq<T>, y: T, x: T)
    ensures Minus(s + [y], x) == if y == x then Minus(s, x) else Minus(s, x) + [y]
  {
    assert (s + [y])[..|s|] == s && Minus(s, x) + [] == Minus(s, x);
  }

  lemma {:induction false} MinusSubset<T>(s: seq<T>, x: T)
    ensures Members(Minus(s, x)) <= Members(s)
  {
    if s != [] {
      var n := |s| - 1;
      MinusSubset(s[..n], x);
      assert Members(s[..n]) <= Members(s) && s[n] in Members(s);
    }
  }

  lemma {:induction false} MinusAt<T>(s: seq<T>, x: T, y: T)
    ensures y in Minus(s, x) <==> y in s && y != x
  {
    if s != [] {
      var n := |s| - 1;
      MinusAt(s[..n], x, y);
      assert y in s <==> y in s[..n] || y == s[n];
    }
  }

  lemma {:induction false} MinusAbsent<T>(s: seq<T>, x: T)
    requires x !in s
    ensures Minus(s, x) == s
  {
    if s != [] {
      MinusAbsent(s[..|s| - 1], x);
    }
  }

  lemma {:induction false} MinusIsWithout<T>(s: seq<T>, k: nat)
    requires Distinct(s) && k < |s|
    ensures Minus(s, s[k]) == Without(s, k)
  {
    var n := |s| - 1;
    DistinctPrefix(s, n);
    if k == n {
      MinusAbsent(s[..n], s[n]);
    } else {
      Alone(s, k);
      MinusIsWithout(s[..n], k);
    }
  }

  lemma {:induction false} DistinctCard<T>(s: seq<T>)
    requires Distinct(s)
    ensures |Members(s)| == |s|
  {
    if s != [] {
      var n := |s| - 1;
      DistinctPrefix(s, n);
      DistinctCard(s[..n]);
      assert s == s[..n] + [s[n]];
      assert Members(s) == Members(s[..n]) + {s[n]};
    }
  }
}
