/** Reading and removing bytes at the front of an evbuffer. */
module EvbufferDrain {
  import opened Bytes
  import opened Chains
  import opened Lists

  function Min(a: nat, b: nat): nat {
    if a < b then a else b
  }

  /** Pieces from k on, without the first `r` bytes of piece k. */
  ghost function From(vs: seq<seq<byte>>, k: nat, r: nat): seq<seq<byte>>
    requires k < |vs| && r <= |vs[k]|
  {
    [vs[k][r..]] + vs[k + 1..]
  }

  lemma FromContent(vs: seq<seq<byte>>, k: nat, r: nat)
    requires k < |vs| && r < |vs[k]|
    ensures Flatten(vs) == Flatten(vs[..k]) + vs[k][..r] + Flatten(From(vs, k, r))
    ensures |Flatten(vs[..k])| + r < |Flatten(vs)|
  {
    FlattenSplit(vs, k);
    assert vs[k] == vs[k][..r] + vs[k][r..];
    assert From(vs, k, r)[1..] == vs[k + 1..];
    Assoc(Flatten(vs[..k]), vs[k][..r], vs[k][r..]);
    Assoc(Flatten(vs[..k]) + vs[k][..r], vs[k][r..], Flatten(vs[k + 1..]));
  }

  lemma FromMeans(vs: seq<seq<byte>>, k: nat, r: nat)
    requires k < |vs| && r < |vs[k]|
    ensures Flatten(vs) == Flatten(vs[..k]) + vs[k][..r] + Flatten(From(vs, k, r))
    ensures |Flatten(vs[..k])| + r < |Flatten(vs)|
    ensures LastData(From(vs, k, r)) == LastData(vs) - k
    ensures IsTight(vs) ==> IsTight(From(vs, k, r))
    ensures NoSpare(vs) ==> NoSpare(From(vs, k, r))
  {
    FromContent(vs, k, r);
    LastDataIsLast(vs);
    assert forall i :: 0 < i < |vs| - k ==> From(vs, k, r)[i] == vs[k + i];
    LastDataIs(From(vs, k, r), LastData(vs) - k);
  }

  /** The bytes of one more piece. */
  lemma TakeOneMore(vs: seq<seq<byte>>, k: nat)
    requires k < |vs|
    ensures Flatten(vs[..k + 1]) == Flatten(vs[..k]) + vs[k]
    ensures |Flatten(vs[..k + 1])| <= |Flatten(vs)|
  {
    assert vs[..k + 1] == vs[..k] + [vs[k]];
    FlattenAppend(vs[..k], vs[k]);
    FlattenSplit(vs, k);
  }

  /** While less has been dropped than is stored, there is data at or behind chunk k. */
  lemma DataAhead(vs: seq<seq<byte>>, k: nat)
    requires k <= |vs| && |Flatten(vs[..k])| < |Flatten(vs)|
    ensures k <= LastData(vs) < |vs|
  {
    LastDataIsLast(vs);
    var d := LastData(vs);
    if |vs| == 0 || d < k {
      FlattenCut(vs, k);
    }
  }

  /** The chunks before number k are freed; what was last_with_datap stays, or falls back to `&first`. */
  method FreeChunks(buf: Evbuffer, ghost cs: seq<Chain>, ghost vs: seq<seq<byte>>, len: nat)
    returns (chain: Chain, remaining: nat, ghost k: nat)
    requires Rep(buf, cs, vs) && len < |Flatten(vs)|
    modifies buf`lastWithDataPrev
    ensures k < |cs| && chain == cs[k] && remaining < |vs[k]|
    ensures |Flatten(vs[..k])| + remaining == len
    ensures buf.lastWithDataPrev == if LastData(vs) <= k then null else cs[LastData(vs) - 1]
  {
    ghost var d := LastData(vs);
    k := 0;
    DataAhead(vs, 0);
    chain, remaining := buf.first, len;
    assert Stores(chain, vs[0]);
    while remaining >= chain.off
      invariant k <= d < |cs| && chain == cs[k] && chain.off == |vs[k]|
      invariant |Flatten(vs[..k])| + remaining == len
      invariant buf.lastWithDataPrev == if d <= k then null else cs[d - 1]
      decreases |cs| - k
    {
      TakeOneMore(vs, k);
      DataAhead(vs, k + 1);
      var next := chain.next;
      remaining := remaining - chain.off;
      Alone(cs, k);
      // The first test, chain == *last_with_datap, never succeeds: data remains behind this chunk.
      assert chain != LastWithData(buf);
      if chain == buf.lastWithDataPrev {
        buf.lastWithDataPrev := null;
      }
      chain, k := next, k + 1;
      assert Stores(cs[k], vs[k]);
    }
  }

  /** `buf->first = chain`: the chunks before number k are no longer listed. */
  method CutFront(buf: Evbuffer, ghost cs: seq<Chain>, ghost k: nat, chain: Chain)
    requires Linked(buf, cs) && k < |cs| && chain == cs[k]
    modifies buf`first
    ensures Linked(buf, cs[k..])
  {
    DistinctDrop(cs, k);
    buf.first := chain;
  }

  /** Chunk number 0 loses its first `n` bytes. */
  method DropBytes(chain: Chain, n: nat, ghost cs: seq<Chain>, ghost vs: seq<seq<byte>>, ghost k: nat)
    requires Holds(cs, vs) && Distinct(cs) && k < |cs| && chain == cs[k] && n <= |vs[k]|
    modifies chain`misalign, chain`off
    ensures Holds(cs[k..], From(vs, k, n))
  {
    assert Stores(chain, vs[k]);
    HoldsDrop(cs, vs, k + 1);
    Alone(cs, k);
    chain.misalign := chain.misalign + n;
    chain.off := chain.off - n;
    assert Stores(chain, vs[k][n..]);
    HoldsOne(chain, vs[k][n..]);
    HoldsJoin([chain], [vs[k][n..]], cs[k + 1..], vs[k + 1..]);
    assert cs[k..] == [chain] + cs[k + 1..];
  }

  /** Draining less than everything. */
  method DrainSome(buf: Evbuffer, ghost cs: seq<Chain>, ghost vs: seq<seq<byte>>, len: nat)
    returns (ghost cs': seq<Chain>, ghost vs': seq<seq<byte>>)
    requires Rep(buf, cs, vs) && len < |Flatten(vs)|
    modifies buf, Members(cs)
    ensures Rep(buf, cs', vs') && Members(cs') <= Members(cs)
    ensures Flatten(vs') == Flatten(vs)[len..]
    ensures IsTight(vs) ==> IsTight(vs')
    ensures NoSpare(vs) ==> NoSpare(vs')
  {
    ghost var k;
    var chain, remaining;
    chain, remaining, k := FreeChunks(buf, cs, vs, len);
    FromMeans(vs, k, remaining);
    buf.totalLen := buf.totalLen - len;
    CutFront(buf, cs, k, chain);
    DropBytes(chain, remaining, cs, vs, k);
    cs', vs' := cs[k..], From(vs, k, remaining);
    LastDataIsLast(vs);
  }

  /** evbuffer_drain. */
  method Drain(buf: Evbuffer, ghost cs: seq<Chain>, ghost vs: seq<seq<byte>>, len: nat)
    returns (ghost cs': seq<Chain>, ghost vs': seq<seq<byte>>)
    requires Rep(buf, cs, vs)
    modifies buf, Members(cs)
    ensures Rep(buf, cs', vs') && Members(cs') <= Members(cs)
    ensures Flatten(vs') == Flatten(vs)[Min(len, |Flatten(vs)|)..]
    ensures IsTight(vs) ==> IsTight(vs')
    ensures NoSpare(vs) ==> NoSpare(vs')
  {
    cs', vs' := cs, vs;
    if buf.totalLen == 0 {
      return;
    }
    if len >= buf.totalLen {
      buf.first, buf.last, buf.lastWithDataPrev, buf.totalLen := null, null, null, 0;
      cs', vs' := [], [];
    } else {
      cs', vs' := DrainSome(buf, cs, vs, len);
    }
  }

  /** evbuffer_copyout: the copy loop, one chunk after the other. */
  method Copyout(buf: Evbuffer, ghost cs: seq<Chain>, ghost vs: seq<seq<byte>>, dataOut: array<byte>, datlen: nat)
    returns (n: nat)
    requires Rep(buf, cs, vs) && datlen <= dataOut.Length
    modifies dataOut
    ensures n == Min(datlen, |Flatten(vs)|)
    ensures dataOut[..n] == Flatten(vs)[..n] && dataOut[n..] == old(dataOut[n..])
  {
    n := Min(datlen, buf.totalLen);
    if n == 0 {
      return;
    }
    var chain := buf.first;
    var left: nat, at: nat := n, 0;
    ghost var k: nat := 0;
    ghost var rest := dataOut[n..];
    while left > 0 && left >= chain.off
      invariant k <= |cs| && chain == Nth(cs, k) && (left > 0 ==> k < |cs|)
      invariant at + left == n && at == |Flatten(vs[..k])|
      invariant dataOut[..at] == Flatten(vs[..k])
      invariant dataOut[n..] == rest
      decreases |cs| - k
    {
      assert Stores(chain, vs[k]);
      CopyWhole(vs, k, chain, dataOut, at, n);
      at, left := at + chain.off, left - chain.off;
      if left > 0 {
        DataAhead(vs, k + 1);
      }
      chain, k := chain.next, k + 1;
    }
    ghost var done := dataOut[..at];
    if left > 0 {
      assert Stores(chain, vs[k]);
      CopyFrom(chain, vs[k], left, dataOut, at, n);
      assert dataOut[..n] == done + vs[k][..left];
    }
    CopiedPrefix(vs, k, left, n, dataOut[..n]);
  }

  /** The copy of the first m bytes of a chunk. */
  method CopyFrom(chain: Chain, ghost v: seq<byte>, m: nat, dst: array<byte>, at: nat, ghost limit: nat)
    requires Stores(chain, v) && m <= |v| && at + m <= limit <= dst.Length
    modifies dst
    ensures dst[..at + m] == old(dst[..at]) + v[..m] && dst[limit..] == old(dst[limit..])
  {
    SubSlice(chain.buffer, chain.misalign, chain.misalign + chain.off, 0, m);
    CopyOut(dst, at, chain.buffer[chain.misalign..chain.misalign + m], limit);
  }

  /** All of chunk k, behind what the chunks before it store. */
  method CopyWhole(ghost vs: seq<seq<byte>>, ghost k: nat, chain: Chain, dst: array<byte>, at: nat, ghost limit: nat)
    requires k < |vs| && Stores(chain, vs[k]) && at + chain.off <= limit <= dst.Length
    requires at == |Flatten(vs[..k])| && dst[..at] == Flatten(vs[..k])
    modifies dst
    ensures at + chain.off == |Flatten(vs[..k + 1])| && dst[..at + chain.off] == Flatten(vs[..k + 1])
    ensures dst[limit..] == old(dst[limit..])
  {
    TakeOneMore(vs, k);
    CopyFrom(chain, vs[k], chain.off, dst, at, limit);
  }

  /** memcpy into the caller's memory, of which the first `limit` bytes may be written. */
  method CopyOut(dst: array<byte>, at: nat, src: seq<byte>, ghost limit: nat)
    requires at + |src| <= limit <= dst.Length
    modifies dst
    ensures dst[..at + |src|] == old(dst[..at]) + src
    ensures dst[limit..] == old(dst[limit..])
  {
    forall i | 0 <= i < |src| {
      dst[at + i] := src[i];
    }
  }

  lemma CopiedPrefix(vs: seq<seq<byte>>, k: nat, left: nat, n: nat, got: seq<byte>)
    requires k <= |vs| && n == |Flatten(vs[..k])| + left
    requires left > 0 ==> k < |vs| && left <= |vs[k]|
    requires got == if left > 0 then Flatten(vs[..k]) + vs[k][..left] else Flatten(vs[..k])
    ensures n <= |Flatten(vs)| && got == Flatten(vs)[..n]
  {
    if k < |vs| {
      FlattenSplit(vs, k);
      assert left > 0 ==> vs[k] == vs[k][..left] + vs[k][left..];
    } else {
      assert vs[..k] == vs;
    }
  }

  /** evbuffer_remove. */
  method Remove(buf: Evbuffer, ghost cs: seq<Chain>, ghost vs: seq<seq<byte>>, dataOut: array<byte>, datlen: nat)
    returns (n: nat, ghost cs': seq<Chain>, ghost vs': seq<seq<byte>>)
    requires Rep(buf, cs, vs) && datlen <= dataOut.Length
    modifies buf, Members(cs), dataOut
    ensures Rep(buf, cs', vs') && Members(cs') <= Members(cs)
    ensures n == Min(datlen, |Flatten(vs)|)
    ensures dataOut[..n] + Flatten(vs') == Flatten(vs) && dataOut[n..] == old(dataOut[n..])
    ensures IsTight(vs) ==> IsTight(vs')
    ensures NoSpare(vs) ==> NoSpare(vs')
  {
    n := Copyout(buf, cs, vs, dataOut, datlen);
    cs', vs' := cs, vs;
    if n > 0 {
      cs', vs' := Drain(buf, cs, vs, n);
    }
    assert Flatten(vs) == Flatten(vs)[..n] + Flatten(vs)[n..];
  }

  /** evbuffer_remove into memory of its own. */
  method TakeBytes(x: Evbuffer, ghost cs: seq<Chain>, ghost vs: seq<seq<byte>>, n: nat)
    returns (out: seq<byte>, ghost cs': seq<Chain>, ghost vs': seq<seq<byte>>)
    requires Rep(x, cs, vs)
    modifies x, Members(cs)
    ensures Rep(x, cs', vs') && Members(cs') <= Members(cs) && (IsTight(vs) ==> IsTight(vs'))
    ensures out == Flatten(vs)[..Min(n, |Flatten(vs)|)] && out + Flatten(vs') == Flatten(vs)
  {
    var mem := new byte[n];
    var got;
    got, cs', vs' := Remove(x, cs, vs, mem, n);
    out := mem[..got];
    assert |out| == got;
    assert out == (out + Flatten(vs'))[..got];
  }
}
