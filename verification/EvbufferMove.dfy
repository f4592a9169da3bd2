/** Moving bytes between two evbuffers, whole chunks at a time. */
module EvbufferMove {
  import opened Bytes
  import opened Chains
  import opened Lists
  import opened EvbufferAppend
  import opened EvbufferDrain

  lemma LastDataJoin(a: seq<seq<byte>>, b: seq<seq<byte>>)
    requires Flatten(b) != []
    ensures Flatten(a + b) == Flatten(a) + Flatten(b)
    ensures LastData(a + b) == |a| + LastData(b)
  {
    FlattenConcat(a, b);
    LastDataIsLast(b);
    assert |b| > 0;
    NoDataIffFirstEmpty(b);
    LastDataIs(a + b, |a| + LastData(b));
  }

  lemma BeforeJoin(a: seq<Chain>, b: seq<Chain>, k: nat)
    requires k <= |b|
    ensures Before(a + b, |a| + k) == if k > 0 then Before(b, k) else Before(a, |a|)
  {
  }

  /** Two lists are one when the `next` slot of the first one's last chunk points at the second. */
  lemma ChainedJoin(a: seq<Chain>, b: seq<Chain>)
    requires |a| > 0 && |b| > 0 && Chained(b)
    requires forall i {:trigger a[i].next} :: 0 <= i < |a| - 1 ==> a[i].next == a[i + 1]
    requires a[|a| - 1].next == b[0]
    ensures Chained(a + b)
  {
    var c := a + b;
    forall i | 0 <= i < |c|
      ensures c[i].next == Nth(c, i + 1)
    {
      if i < |a| {
        assert a[i].next == c[i + 1];
      } else {
        assert b[i - |a|].next == Nth(b, i - |a| + 1);
      }
    }
  }

  /** `last->next = first`: the list `a`, which `last` ends, goes on with `b`, which `first` begins. */
  method Join(ghost a: seq<Chain>, last: Chain, ghost b: seq<Chain>, first: Chain)
    requires Distinct(a) && Distinct(b) && Members(a) !! Members(b) && Chained(a) && Chained(b)
    requires |a| > 0 && last == a[|a| - 1] && |b| > 0 && first == b[0]
    modifies last`next
    ensures Distinct(a + b) && Chained(a + b)
  {
    Alone(a, |a| - 1);
    assert last in Members(a);
    last.next := first;
    ChainedJoin(a, b);
    DistinctJoin(a, b);
  }

  /** COPY_CHAIN. */
  method CopyChain(dst: Evbuffer, src: Evbuffer, ghost cs: seq<Chain>, ghost vs: seq<seq<byte>>)
    requires dst != src && Rep(src, cs, vs)
    modifies dst
    ensures Rep(dst, cs, vs)
  {
    dst.first, dst.lastWithDataPrev, dst.last, dst.totalLen := src.first, src.lastWithDataPrev, src.last, src.totalLen;
  }

  /** APPEND_CHAIN. */
  method AppendChain(dst: Evbuffer, ghost csd: seq<Chain>, ghost vsd: seq<seq<byte>>,
                     src: Evbuffer, ghost css: seq<Chain>, ghost vss: seq<seq<byte>>)
    requires dst != src && Rep(dst, csd, vsd) && Rep(src, css, vss)
    requires Members(csd) !! Members(css) && Flatten(vsd) != [] && Flatten(vss) != []
    modifies dst, dst.last`next
    ensures Rep(dst, csd + css, vsd + vss)
  {
    LastDataJoin(vsd, vss);
    BeforeJoin(csd, css, LastData(vss));
    HoldsJoin(csd, vsd, css, vss);
    Join(csd, dst.last, css, src.first);
    dst.lastWithDataPrev := if src.lastWithDataPrev == null then dst.last else src.lastWithDataPrev;
    dst.last := src.last;
    dst.totalLen := dst.totalLen + src.totalLen;
  }

  /** PREPEND_CHAIN. Its first test, *dst->last_with_datap == NULL, needs a `dst` without chunks. */
  method PrependChain(dst: Evbuffer, ghost csd: seq<Chain>, ghost vsd: seq<seq<byte>>,
                      src: Evbuffer, ghost css: seq<Chain>, ghost vss: seq<seq<byte>>)
    requires dst != src && Rep(dst, csd, vsd) && Rep(src, css, vss)
    requires Members(csd) !! Members(css) && Flatten(vsd) != [] && Flatten(vss) != []
    modifies dst, src.last`next
    ensures Rep(dst, css + csd, vss + vsd)
  {
    LastDataJoin(vss, vsd);
    BeforeJoin(css, csd, LastData(vsd));
    HoldsJoin(css, vss, csd, vsd);
    assert LastWithData(dst) != null by {
      LastDataIsLast(vsd);
    }
    Join(css, src.last, csd, dst.first);
    dst.first := src.first;
    dst.totalLen := dst.totalLen + src.totalLen;
    if dst.lastWithDataPrev == null {
      dst.lastWithDataPrev := src.last;
    }
  }

  /** ZERO_CHAIN. */
  method ZeroChain(buf: Evbuffer)
    modifies buf
    ensures Rep(buf, [], [])
  {
    buf.first, buf.last, buf.lastWithDataPrev, buf.totalLen := null, null, null, 0;
  }

  /** evbuffer_add_buffer. */
  method AddBuffer(outbuf: Evbuffer, ghost cso: seq<Chain>, ghost vso: seq<seq<byte>>,
                   inbuf: Evbuffer, ghost csi: seq<Chain>, ghost vsi: seq<seq<byte>>)
    returns (ghost cso': seq<Chain>, ghost vso': seq<seq<byte>>, ghost csi': seq<Chain>, ghost vsi': seq<seq<byte>>)
    requires Rep(outbuf, cso, vso) && Rep(inbuf, csi, vsi)
    requires outbuf != inbuf ==> Members(cso) !! Members(csi)
    modifies outbuf, inbuf, Members(cso)`next
    ensures outbuf == inbuf ==> unchanged(outbuf) && cso' == cso && vso' == vso
    ensures outbuf != inbuf ==>
      && Rep(outbuf, cso', vso') && Flatten(vso') == Flatten(vso) + Flatten(vsi)
      && Rep(inbuf, csi', vsi') && Flatten(vsi') == []
      && Members(cso') + Members(csi') <= Members(cso) + Members(csi) && Members(cso') !! Members(csi')
      && (IsTight(vso) && IsTight(vsi) ==> IsTight(vso') && IsTight(vsi'))
      && (NoSpare(vsi) && (Flatten(vsi) == [] ==> NoSpare(vso)) ==> NoSpare(vso'))
  {
    cso', vso', csi', vsi' := cso, vso, csi, vsi;
    if inbuf.totalLen == 0 || outbuf == inbuf {
      return;
    }
    if outbuf.totalLen == 0 {
      CopyChain(outbuf, inbuf, csi, vsi);
      cso', vso' := csi, vsi;
    } else {
      AppendChain(outbuf, cso, vso, inbuf, csi, vsi);
      cso', vso' := cso + csi, vso + vsi;
      JoinMeans(cso, vso, csi, vsi);
    }
    ZeroChain(inbuf);
    csi', vsi' := [], [];
  }

  lemma JoinMeans(ca: seq<Chain>, a: seq<seq<byte>>, cb: seq<Chain>, b: seq<seq<byte>>)
    requires Flatten(a) != [] && Flatten(b) != []
    ensures Members(ca + cb) == Members(ca) + Members(cb)
    ensures Flatten(a + b) == Flatten(a) + Flatten(b)
    ensures IsTight(a) && IsTight(b) ==> IsTight(a + b)
    ensures NoSpare(b) ==> NoSpare(a + b)
  {
    LastDataJoin(a, b);
    DataMeansChunk(a);
    DataMeansChunk(b);
  }

  /** A tight buffer with data has no empty chunk at all. */
  lemma DataMeansChunk(a: seq<seq<byte>>)
    requires Flatten(a) != []
    ensures |a| > 0
    ensures IsTight(a) ==> forall i :: 0 <= i < |a| ==> a[i] != []
  {
    if |a| == 1 {
      FlattenOne(a[0]);
    }
  }

  /** evbuffer_prepend_buffer. */
  method PrependBuffer(outbuf: Evbuffer, ghost cso: seq<Chain>, ghost vso: seq<seq<byte>>,
                       inbuf: Evbuffer, ghost csi: seq<Chain>, ghost vsi: seq<seq<byte>>)
    returns (ghost cso': seq<Chain>, ghost vso': seq<seq<byte>>, ghost csi': seq<Chain>, ghost vsi': seq<seq<byte>>)
    requires Rep(outbuf, cso, vso) && Rep(inbuf, csi, vsi)
    requires outbuf != inbuf ==> Members(cso) !! Members(csi)
    modifies outbuf, inbuf, Members(csi)`next
    ensures outbuf == inbuf ==> unchanged(outbuf) && cso' == cso && vso' == vso
    ensures outbuf != inbuf ==>
      && Rep(outbuf, cso', vso') && Flatten(vso') == Flatten(vsi) + Flatten(vso)
      && Rep(inbuf, csi', vsi') && Flatten(vsi') == []
      && Members(cso') + Members(csi') <= Members(cso) + Members(csi) && Members(cso') !! Members(csi')
      && (IsTight(vso) && IsTight(vsi) ==> IsTight(vso') && IsTight(vsi'))
      && (NoSpare(vso) && (Flatten(vso) == [] ==> NoSpare(vsi)) ==> NoSpare(vso'))
  {
    cso', vso', csi', vsi' := cso, vso, csi, vsi;
    if inbuf.totalLen == 0 || inbuf == outbuf {
      return;
    }
    if outbuf.totalLen == 0 {
      CopyChain(outbuf, inbuf, csi, vsi);
      cso', vso' := csi, vsi;
    } else {
      PrependChain(outbuf, cso, vso, inbuf, csi, vsi);
      cso', vso' := csi + cso, vsi + vso;
      JoinMeans(csi, vsi, cso, vso);
    }
    ZeroChain(inbuf);
    csi', vsi' := [], [];
  }

  /** evbuffer_free_trailing_empty_chains: the slot at which the next chunk goes. */
  method FreeTrailingEmpty(buf: Evbuffer, ghost cs: seq<Chain>, ghost vs: seq<seq<byte>>)
    returns (prev: Chain?, ghost m: nat)
    requires Rep(buf, cs, vs)
    modifies buf`first, Members(cs)`next
    ensures m == FirstVictim(vs, LastData(vs)) && prev == Before(cs, m)
    ensures Chained(cs[..m]) && buf.first == Nth(cs[..m], 0)
  {
    var ch;
    LastDataIsLast(vs);
    prev, ch, m := FindVictim(buf, cs, vs, LastData(vs));
    FirstVictimIsFirst(vs, LastData(vs));
    if ch != null {
      var empty := ChainsAllEmpty(ch, cs, vs, m);
      assert empty;
      if prev == null {
        buf.first := null;
      } else {
        Alone(cs, m - 1);
        prev.next := null;
      }
    } else {
      assert cs[..m] == cs;
    }
  }

  /** Where advance_last_with_data stops when it starts at chunk d. */
  ghost function AdvanceTo(vs: seq<seq<byte>>, d: nat): (e: nat)
    ensures d <= e && (d < |vs| ==> e < |vs|)
    decreases |vs| - d
  {
    if d + 1 < |vs| && vs[d + 1] != [] then AdvanceTo(vs, d + 1) else d
  }

  /** advance_last_with_data. */
  method AdvanceLastWithData(buf: Evbuffer, ghost cs: seq<Chain>, ghost vs: seq<seq<byte>>, ghost d: nat)
    requires Linked(buf, cs) && Holds(cs, vs) && SlotAt(buf, cs, d) && d < |cs|
    modifies buf`lastWithDataPrev
    ensures SlotAt(buf, cs, AdvanceTo(vs, d))
  {
    ghost var e := d;
    var c := LastWithData(buf);
    assert e + 1 < |cs| ==> Stores(cs[e + 1], vs[e + 1]);
    while c.next != null && c.next.off != 0
      invariant d <= e < |cs| && c == cs[e] && SlotAt(buf, cs, e)
      invariant AdvanceTo(vs, e) == AdvanceTo(vs, d)
      invariant e + 1 < |cs| ==> Stores(cs[e + 1], vs[e + 1])
      decreases |cs| - e
    {
      buf.lastWithDataPrev := c;
      c, e := c.next, e + 1;
      assert e + 1 < |cs| ==> Stores(cs[e + 1], vs[e + 1]);
    }
  }
}
