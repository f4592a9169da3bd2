/** Bytes, the pieces a chained buffer stores, and the flat content they stand for. */
module Bytes {

  type byte = x: int | 0 <= x < 256

  datatype Option<T> = None | Some(value: T)

  lemma Assoc<T>(a: seq<T>, b: seq<T>, c: seq<T>)
    ensures a + b + c == a + (b + c)
  {
  }

  lemma SubSlice<T>(a: seq<T>, lo: nat, hi: nat, p: nat, q: nat)
    requires lo <= hi <= |a| && p <= q <= hi - lo
    ensures a[lo..hi][p..q] == a[lo + p..lo + q]
  {
    forall i | 0 <= i < q - p
      ensures a[lo..hi][p..q][i] == a[lo + p..lo + q][i]
    {
      assert a[lo..hi][p + i] == a[lo + p + i];
    }
  }

  /** The flat byte string that a list of pieces stands for. */
  function Flatten(pieces: seq<seq<byte>>): seq<byte> {
    if pieces == [] then [] else pieces[0] + Flatten(pieces[1..])
  }

  lemma {:induction false} FlattenConcat(a: seq<seq<byte>>, b: seq<seq<byte>>)
    ensures Flatten(a + b) == Flatten(a) + Flatten(b)
  {
    if a == [] {
      assert a + b == b;
    } else {
      assert (a + b)[1..] == a[1..] + b;
      FlattenConcat(a[1..], b);
    }
  }

  /** Pieces up to k, piece k, and the pieces after it. */
  lemma FlattenSplit(a: seq<seq<byte>>, k: nat)
    requires k < |a|
    ensures Flatten(a) == Flatten(a[..k]) + a[k] + Flatten(a[k + 1..])
  {
    assert a == a[..k] + a[k..];
    FlattenConcat(a[..k], a[k..]);
    assert a[k..][1..] == a[k + 1..];
  }

  /** Replacing piece k replaces exactly its bytes. */
  lemma FlattenUpdate(a: seq<seq<byte>>, k: nat, piece: seq<byte>)
    requires k < |a|
    ensures Flatten(a[k := piece]) == Flatten(a[..k]) + piece + Flatten(a[k + 1..])
  {
    var b := a[k := piece];
    FlattenSplit(b, k);
    assert b[..k] == a[..k] && b[k + 1..] == a[k + 1..];
  }

  lemma {:induction false} FlattenEmpties(a: seq<seq<byte>>)
    requires forall i :: 0 <= i < |a| ==> a[i] == []
    ensures Flatten(a) == []
  {
    if a != [] {
      FlattenEmpties(a[1..]);
    }
  }

  lemma FlattenOne(p: seq<byte>)
    ensures Flatten([p]) == p
  {
    assert Flatten([p]) == p + Flatten([]);
  }

  /** More bytes in the last piece are more bytes at the end. */
  lemma FlattenExtendLast(a: seq<seq<byte>>, data: seq<byte>)
    requires |a| > 0
    ensures Flatten(a[|a| - 1 := a[|a| - 1] + data]) == Flatten(a) + data
  {
    var n := |a| - 1;
    FlattenSplit(a, n);
    FlattenUpdate(a, n, a[n] + data);
    assert a[n + 1..] == [];
  }

  /** Empty pieces at the end stand for nothing. */
  lemma FlattenCut(a: seq<seq<byte>>, k: nat)
    requires k <= |a| && forall i :: k <= i < |a| ==> a[i] == []
    ensures Flatten(a) == Flatten(a[..k])
  {
    assert a == a[..k] + a[k..];
    FlattenConcat(a[..k], a[k..]);
    FlattenEmpties(a[k..]);
  }

  lemma FlattenAppend(a: seq<seq<byte>>, p: seq<byte>)
    ensures Flatten(a + [p]) == Flatten(a) + p
  {
    FlattenConcat(a, [p]);
    FlattenOne(p);
  }
}
