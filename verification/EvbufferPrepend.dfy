/** Adding bytes at the front of an evbuffer. */
module EvbufferPrepend {
  import opened Bytes
  import opened Chains
  import opened Lists
  import opened EvbufferAppend

  /** The first piece with `data` in front of it. */
  ghost function Fronted(vs: seq<seq<byte>>, data: seq<byte>): seq<seq<byte>>
    requires |vs| > 0
  {
    [data + vs[0]] + vs[1..]
  }

  lemma FrontedMeans(vs: seq<seq<byte>>, data: seq<byte>)
    requires |vs| > 0
    ensures Flatten(Fronted(vs, data)) == data + Flatten(vs)
    ensures LastData(Fronted(vs, data)) == LastData(vs)
    ensures IsTight(vs) ==> IsTight(Fronted(vs, data))
  {
    assert Fronted(vs, data)[1..] == vs[1..];
    Assoc(data, vs[0], Flatten(vs[1..]));
    LastDataIsLast(vs);
    LastDataIs(Fronted(vs, data), LastData(vs));
  }

  lemma NewHeadMeans(vs: seq<seq<byte>>, head: seq<byte>)
    requires |vs| > 0 && vs[0] != []
    ensures Flatten([head] + vs) == head + Flatten(vs)
    ensures LastData([head] + vs) == LastData(vs) + 1
    ensures IsTight(vs) && head != [] ==> IsTight([head] + vs)
  {
    assert ([head] + vs)[1..] == vs;
    LastDataIsLast(vs);
    LastDataIs([head] + vs, LastData(vs) + 1);
  }

  /** The part of the data that the first chunk takes. */
  method StoreInFront(buf: Evbuffer, ghost cs: seq<Chain>, ghost vs: seq<seq<byte>>, chain: Chain, data: seq<byte>)
    requires Rep(buf, cs, vs) && |cs| > 0 && chain == cs[0] && |data| <= chain.misalign
    modifies buf`totalLen, chain`off, chain`misalign, chain`buffer
    ensures Rep(buf, cs, Fronted(vs, data))
    ensures chain.misalign == old(chain.misalign) - |data|
  {
    assert Stores(chain, vs[0]);
    FrontedMeans(vs, data);
    Alone(cs, 0);
    StoreBefore(chain, data, vs[0]);
    buf.totalLen := buf.totalLen + |data|;
  }

  /** A new chunk filled up to the end of its memory. */
  method NewHead(data: seq<byte>) returns (tmp: Chain)
    ensures fresh(tmp) && tmp.next == null && Stores(tmp, data)
  {
    tmp := ChainNew(|data|);
    tmp.misalign := |tmp.buffer|;
    StoreBefore(tmp, data, []);
    assert data + [] == data;
  }

  /** `tmp` becomes the first chunk. */
  method Link(buf: Evbuffer, ghost cs: seq<Chain>, tmp: Chain)
    requires Linked(buf, cs) && |cs| > 0 && tmp !in cs
    modifies buf`first, tmp`next
    ensures Linked(buf, [tmp] + cs)
  {
    DistinctJoin([tmp], cs);
    tmp.next := buf.first;
    buf.first := tmp;
  }

  /** A last_with_datap that was `&first` moves to the `next` slot of the new first chunk. */
  method PutFirst(buf: Evbuffer, ghost cs: seq<Chain>, ghost vs: seq<seq<byte>>, tmp: Chain, ghost v: seq<byte>)
    requires Rep(buf, cs, vs) && |cs| > 0 && vs[0] != []
    requires tmp !in cs && Stores(tmp, v)
    modifies buf`first, buf`lastWithDataPrev, buf`totalLen, tmp`next
    ensures Rep(buf, [tmp] + cs, [v] + vs)
  {
    NewHeadMeans(vs, v);
    assert |Flatten([v] + vs)| == |v| + |Flatten(vs)|;
    BeforeCons(tmp, cs, LastData(vs));
    if buf.lastWithDataPrev == null {
      buf.lastWithDataPrev := tmp;
    }
    buf.totalLen := buf.totalLen + tmp.off;
    Link(buf, cs, tmp);
    HoldsOne(tmp, v);
    HoldsJoin([tmp], [v], cs, vs);
  }

  /** A chunk that stores nothing counts as empty at its beginning rather than at its end. */
  method MakeRoomInFront(buf: Evbuffer, ghost cs: seq<Chain>, ghost vs: seq<seq<byte>>, chain: Chain)
    requires Rep(buf, cs, vs) && |cs| > 0 && chain == cs[0]
    modifies chain`misalign
    ensures Rep(buf, cs, vs)
    ensures chain.misalign > 0 || vs[0] != []
  {
    assert Stores(chain, vs[0]);
    Alone(cs, 0);
    if chain.off == 0 {
      chain.misalign := |chain.buffer|;
      assert forall i :: 0 <= i < |cs| ==> old(Stores(cs[i], vs[i])) && Stores(cs[i], vs[i]);
    }
  }

  method PrependSplit(buf: Evbuffer, ghost cs: seq<Chain>, ghost vs: seq<seq<byte>>, chain: Chain, data: seq<byte>)
    returns (tmp: Chain, ghost part: seq<byte>)
    requires Rep(buf, cs, vs) && |cs| > 0 && chain == cs[0]
    requires chain.misalign < |data| && (chain.misalign > 0 || vs[0] != [])
    modifies buf`first, buf`lastWithDataPrev, buf`totalLen, chain`off, chain`misalign, chain`buffer
    ensures part == data[|data| - old(chain.misalign)..]
    ensures fresh(tmp) && Rep(buf, [tmp] + cs, [data[..|data| - old(chain.misalign)]] + Fronted(vs, part))
  {
    var m := chain.misalign;
    part := data[|data| - m..];
    if m > 0 {
      StoreInFront(buf, cs, vs, chain, data[|data| - m..]);
    } else {
      assert part + vs[0] == vs[0];
      assert Fronted(vs, part) == vs;
    }
    tmp := NewHead(data[..|data| - m]);
    PutFirst(buf, cs, Fronted(vs, part), tmp, data[..|data| - m]);
  }

  method PrependTo(buf: Evbuffer, ghost cs: seq<Chain>, ghost vs: seq<seq<byte>>, data: seq<byte>)
    returns (ghost cs': seq<Chain>, ghost vs': seq<seq<byte>>)
    requires Rep(buf, cs, vs) && |cs| > 0
    modifies buf`first, buf`lastWithDataPrev, buf`totalLen, Members(cs)
    ensures Rep(buf, cs', vs') && Flatten(vs') == data + Flatten(vs)
    ensures IsTight(vs) ==> IsTight(vs')
    ensures NoSpare(vs) ==> NoSpare(vs')
    ensures fresh(Members(cs') - Members(cs))
  {
    var chain := buf.first;
    MakeRoomInFront(buf, cs, vs, chain);
    if chain.misalign >= |data| {
      StoreInFront(buf, cs, vs, chain, data);
      FrontedMeans(vs, data);
      cs', vs' := cs, Fronted(vs, data);
    } else {
      ghost var n := |data| - chain.misalign;
      var tmp;
      ghost var part;
      tmp, part := PrependSplit(buf, cs, vs, chain, data);
      cs', vs' := [tmp] + cs, [data[..n]] + Fronted(vs, part);
      PrependMeans(vs, data[..n], part);
      assert data == data[..n] + part;
      assert Members(cs') == {tmp} + Members(cs);
    }
  }

  /** evbuffer_prepend. */
  method Prepend(buf: Evbuffer, ghost cs: seq<Chain>, ghost vs: seq<seq<byte>>, data: seq<byte>)
    returns (ghost cs': seq<Chain>, ghost vs': seq<seq<byte>>)
    requires Rep(buf, cs, vs)
    modifies buf`first, buf`last, buf`lastWithDataPrev, buf`totalLen, Members(cs)
    ensures Rep(buf, cs', vs') && Flatten(vs') == data + Flatten(vs)
    ensures IsTight(vs) ==> IsTight(vs')
    ensures NoSpare(vs) ==> NoSpare(vs')
    ensures fresh(Members(cs') - Members(cs))
  {
    if buf.first == null {
      var chain := FirstChain(buf, |data|);
      cs', vs' := PrependTo(buf, [chain], [[]], data);
    } else {
      cs', vs' := PrependTo(buf, cs, vs, data);
    }
  }

  lemma PrependMeans(vs: seq<seq<byte>>, head: seq<byte>, part: seq<byte>)
    requires |vs| > 0 && head != [] && part + vs[0] != []
    ensures var vs' := [head] + Fronted(vs, part);
      && Flatten(vs') == head + part + Flatten(vs)
      && (IsTight(vs) ==> IsTight(vs'))
      && (NoSpare(vs) ==> NoSpare(vs'))
  {
    FrontedMeans(vs, part);
    NewHeadMeans(Fronted(vs, part), head);
    Assoc(head, part, Flatten(vs));
    NoDataIffFirstEmpty(vs);
  }
}
