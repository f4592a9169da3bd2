/** Room for a number of bytes in a single chunk, and its reservation. */
module EvbufferExpand {
  import opened Bytes
  import opened Chains
  import opened Lists
  import opened EvbufferAppend
  import opened EvbufferDrain
  import opened EvbufferReserve
  import opened EvbufferRemove

  const MAX_TO_COPY_IN_EXPAND: nat := 4096

  /** evbuffer_chain_insert_new. The empty chunk replaces those behind the data; the assertion cannot fire. */
  method InsertNew(buf: Evbuffer, ghost cs: seq<Chain>, ghost vs: seq<seq<byte>>, datlen: nat)
    returns (tmp: Chain, ghost k: nat)
    requires Rep(buf, cs, vs)
    modifies buf`first, buf`last, buf`lastWithDataPrev, buf`totalLen, Members(cs)`next
    ensures k == FirstVictim(vs, LastData(vs)) <= |cs| && fresh(tmp) && datlen <= tmp.SpaceLen()
    ensures Rep(buf, cs[..k] + [tmp], vs[..k] + [[]])
    ensures Flatten(vs[..k] + [[]]) == Flatten(vs) && LastData(vs[..k] + [[]]) == LastData(vs) && k <= LastData(vs) + 1
  {
    tmp := ChainNew(datlen);
    assert Stores(tmp, []);
    BehindData(vs);
    ghost var d := LastData(vs);
    BeforeCut(cs, FirstVictim(vs, d), [tmp], d);
    var halted;
    halted, k := ChainInsert(buf, cs, vs, d, tmp, []);
  }

  /** An empty piece in the place of those behind the data. */
  lemma BehindData(vs: seq<seq<byte>>)
    ensures var k := FirstVictim(vs, LastData(vs));
      && AllEmptyFrom(vs, k) && k <= LastData(vs) + 1 && (|vs| > 0 ==> LastData(vs) < |vs|)
      && Flatten(vs[..k] + [[]]) == Flatten(vs) && LastData(vs[..k] + [[]]) == LastData(vs)
  {
    LastDataIsLast(vs);
    CutPieces(vs);
    PutSpareMeans(vs, FirstVictim(vs, LastData(vs)));
  }

  /** The bytes of a chunk, in a new one with room for `datlen` more. */
  method CopyOver(chain: Chain, ghost v: seq<byte>, datlen: nat) returns (tmp: Chain)
    requires Stores(chain, v)
    ensures fresh(tmp) && Stores(tmp, v) && datlen <= tmp.SpaceLen()
  {
    tmp := ChainNew(chain.off + datlen);
    tmp.buffer := Overwrite(tmp.buffer, 0, chain.buffer[chain.misalign..chain.misalign + chain.off]);
    tmp.off := chain.off;
  }

  lemma HoldsSwap(cs: seq<Chain>, vs: seq<seq<byte>>, d: nat, tmp: Chain)
    requires Holds(cs, vs) && d < |cs| && Stores(tmp, vs[d])
    ensures Holds(cs[d := tmp], vs)
  {
    forall i | 0 <= i < |cs|
      ensures Stores(cs[d := tmp][i], vs[i])
    {
      assert Stores(cs[i], vs[i]);
    }
  }

  lemma DistinctSwap(cs: seq<Chain>, d: nat, tmp: Chain)
    requires Distinct(cs) && d < |cs| && tmp !in cs
    ensures Distinct(cs[d := tmp])
  {
    var r := cs[d := tmp];
    forall i, j | 0 <= i < j < |r|
      ensures Apart(r, i, j)
    {
      assert Apart(cs, i, j);
    }
  }

  /** `tmp` takes the place of chunk d in the list. */
  method Swap(buf: Evbuffer, ghost cs: seq<Chain>, ghost d: nat, prev: Chain?, chain: Chain, tmp: Chain)
    requires Linked(buf, cs) && d < |cs| && chain == cs[d] && prev == Before(cs, d) && tmp !in cs
    modifies buf`first, buf`last, tmp`next, (if prev == null then {} else {prev})`next
    ensures Linked(buf, cs[d := tmp])
  {
    Alone(cs, d);
    DistinctSwap(cs, d, tmp);
    if d > 0 {
      Alone(cs, d - 1);
    }
    tmp.next := chain.next;
    if prev == null {
      buf.first := tmp;
    } else {
      prev.next := tmp;
    }
    if buf.last == chain {
      buf.last := tmp;
    }
  }

  /** A larger chunk with the same bytes takes the place of the last one with data. */
  method Resize(buf: Evbuffer, ghost cs: seq<Chain>, ghost vs: seq<seq<byte>>, chain: Chain, datlen: nat)
    returns (tmp: Chain)
    requires Rep(buf, cs, vs) && LastData(vs) < |cs| && chain == cs[LastData(vs)]
    modifies buf`first, buf`last, Members(cs)`next
    ensures fresh(tmp) && datlen <= tmp.SpaceLen() && Rep(buf, cs[LastData(vs) := tmp], vs)
  {
    ghost var d := LastData(vs);
    assert Stores(chain, vs[d]);
    tmp := CopyOver(chain, vs[d], datlen);
    HoldsSwap(cs, vs, d, tmp);
    assert buf.lastWithDataPrev != null ==> buf.lastWithDataPrev in Members(cs);
    Swap(buf, cs, d, buf.lastWithDataPrev, chain, tmp);
    assert Before(cs[d := tmp], d) == Before(cs, d);
  }

  /** It is not worth resizing a chunk with so little room, or so much to copy. */
  predicate NotWorth(chain: Chain)
    reads chain`misalign, chain`off, chain`buffer
  {
    chain.SpaceLen() < |chain.buffer| / 8 || chain.off > MAX_TO_COPY_IN_EXPAND
  }

  /** The chunk behind the last one with data is used, although that one has some room. */
  ghost predicate UsesNext(cs: seq<Chain>, vs: seq<seq<byte>>, datlen: nat)
    reads Members(cs)`misalign, Members(cs)`off, Members(cs)`buffer
  {
    var d := LastData(vs);
    && d + 1 < |cs| && cs[d].off > 0 && 0 < cs[d].SpaceLen() < datlen <= cs[d + 1].SpaceLen()
    && !ShouldRealign(cs[d], datlen) && (cs[d].SpaceLen() < |cs[d].buffer| / 8 || cs[d].off > 4096)
  }

  /** Where the room is: it is taken up again by the commit if it is the first, or the last of the list. */
  ghost predicate Found(cs: seq<Chain>, vs: seq<seq<byte>>, t: nat, result: Chain, datlen: nat)
    reads Members(cs)
  {
    LastData(vs) <= t <= LastData(vs) + 1 && t < |cs| && result == cs[t] && datlen <= result.SpaceLen()
  }

  /** The stored bytes go to the front of the chunk. */
  method Realign(buf: Evbuffer, ghost cs: seq<Chain>, ghost vs: seq<seq<byte>>, chain: Chain)
    requires Rep(buf, cs, vs) && LastData(vs) < |cs| && chain == cs[LastData(vs)]
    modifies chain`misalign, chain`buffer
    ensures Rep(buf, cs, vs) && chain.SpaceLen() == |chain.buffer| - chain.off && |chain.buffer| == old(|chain.buffer|)
  {
    ghost var d := LastData(vs);
    assert Stores(chain, vs[d]) && chain in Members(cs);
    Alone(cs, d);
    ChainAlign(chain, vs[d]);
    forall i | 0 <= i < |cs|
      ensures Stores(cs[i], vs[i])
    {
      assert i != d ==> old(Stores(cs[i], vs[i]));
    }
  }

  /** A new chunk at the end. */
  method ExpandNew(buf: Evbuffer, ghost cs: seq<Chain>, ghost vs: seq<seq<byte>>, datlen: nat)
    returns (result: Chain, ghost t: nat, ghost cs': seq<Chain>, ghost vs': seq<seq<byte>>)
    requires Rep(buf, cs, vs)
    modifies buf`first, buf`last, buf`lastWithDataPrev, buf`totalLen, Members(cs)`next
    ensures Rep(buf, cs', vs') && Flatten(vs') == Flatten(vs) && fresh(Members(cs') - Members(cs))
    ensures Found(cs', vs', t, result, datlen) && t == |cs'| - 1
  {
    LastDataIsLast(vs);
    result, t := InsertNew(buf, cs, vs, datlen);
    cs', vs' := cs[..t] + [result], vs[..t] + [[]];
    MembersCut(cs, t, result);
  }

  /** The end of evbuffer_expand_singlechain: the last chunk with data has room, but too little. */
  method ExpandLast(buf: Evbuffer, ghost cs: seq<Chain>, ghost vs: seq<seq<byte>>, chain: Chain, datlen: nat)
    returns (result: Chain, ghost t: nat, ghost cs': seq<Chain>, ghost vs': seq<seq<byte>>)
    requires Rep(buf, cs, vs) && LastData(vs) < |cs| && chain == cs[LastData(vs)]
    requires vs[LastData(vs)] != [] && 0 < chain.SpaceLen() < datlen
    modifies buf, Members(cs)
    ensures Rep(buf, cs', vs') && Flatten(vs') == Flatten(vs) && fresh(Members(cs') - Members(cs))
    ensures Found(cs', vs', t, result, datlen)
    ensures if old(UsesNext(cs, vs, datlen)) then unchanged(Members(cs)) && cs' == cs && vs' == vs && t == LastData(vs) + 1
            else t == |cs'| - 1 || t == FirstSpace(cs', vs')
  {
    ghost var d := LastData(vs);
    LastDataIsLast(vs);
    assert Stores(chain, vs[d]);
    cs', vs', t := cs, vs, d;
    if ShouldRealign(chain, datlen) {
      result := chain;
      Realign(buf, cs, vs, chain);
    } else if NotWorth(chain) {
      if chain.next != null && chain.next.SpaceLen() >= datlen {
        result, t := chain.next, d + 1;
      } else {
        result, t, cs', vs' := ExpandNew(buf, cs, vs, datlen);
      }
    } else {
      result := Resize(buf, cs, vs, chain, datlen);
      cs' := cs[d := result];
      assert Members(cs') <= Members(cs) + {result};
    }
  }

  /** The first chunk with room, if there is one. */
  method FirstRoom(buf: Evbuffer, ghost cs: seq<Chain>, ghost vs: seq<seq<byte>>) returns (chain: Chain?)
    requires Rep(buf, cs, vs)
    ensures |cs| > 0 ==> LastData(vs) < |cs|
    ensures chain == if |cs| > 0 then Nth(cs, FirstSpace(cs, vs)) else null
    ensures chain != null ==> Stores(chain, vs[FirstSpace(cs, vs)])
    ensures chain != null && chain.off > 0 ==> chain.SpaceLen() > 0 && FirstSpace(cs, vs) == LastData(vs) && vs[LastData(vs)] != []
  {
    LastDataIsLast(vs);
    chain := null;
    if buf.first != null {
      var prev;
      prev, chain := FindSpace(buf, cs, vs);
      assert chain != null ==> Stores(chain, vs[FirstSpace(cs, vs)]);
    }
  }

  /** evbuffer_expand_singlechain, and evbuffer_expand, which gives out no chunk. */
  method ExpandSingle(buf: Evbuffer, ghost cs: seq<Chain>, ghost vs: seq<seq<byte>>, datlen: nat)
    returns (result: Chain, ghost t: nat, ghost cs': seq<Chain>, ghost vs': seq<seq<byte>>)
    requires Rep(buf, cs, vs)
    modifies buf, Members(cs)
    ensures Rep(buf, cs', vs') && Flatten(vs') == Flatten(vs) && fresh(Members(cs') - Members(cs))
    ensures Found(cs', vs', t, result, datlen)
    ensures if old(UsesNext(cs, vs, datlen)) then unchanged(Members(cs)) && cs' == cs && vs' == vs && t == LastData(vs) + 1
            else t == |cs'| - 1 || t == FirstSpace(cs', vs')
  {
    var chain := FirstRoom(buf, cs, vs);
    if chain != null && chain.SpaceLen() >= datlen {
      result, t, cs', vs' := chain, FirstSpace(cs, vs), cs, vs;
    } else if chain == null || chain.off == 0 {
      result, t, cs', vs' := ExpandNew(buf, cs, vs, datlen);
    } else {
      result, t, cs', vs' := ExpandLast(buf, cs, vs, chain, datlen);
    }
  }

  /**
   * evbuffer_reserve_space for one vector. What it gives out, or less of it, will be committed unless it
   * is in the chunk behind one with some room, and that is not the last chunk.
   */
  method ReserveOne(buf: Evbuffer, ghost cs: seq<Chain>, ghost vs: seq<seq<byte>>, size: nat)
    returns (v: Iovec, ghost t: nat, ghost cs': seq<Chain>, ghost vs': seq<seq<byte>>)
    requires Rep(buf, cs, vs)
    modifies buf, Members(cs)
    ensures Rep(buf, cs', vs') && Flatten(vs') == Flatten(vs) && fresh(Members(cs') - Members(cs))
    ensures t < |cs'| && SpaceOf(v, cs'[t]) && size <= v.len && LastData(vs') <= t <= LastData(vs') + 1
    ensures forall len: nat :: len <= v.len ==>
      (Accepted(buf, cs', vs', [v.(len := len)]) <==> !(old(UsesNext(cs, vs, size)) && LastData(vs) + 2 < |cs|))
  {
    var chain;
    chain, t, cs', vs' := ExpandSingle(buf, cs, vs, size);
    assert Stores(chain, vs'[t]);
    v := Iovec(chain, chain.misalign + chain.off, chain.SpaceLen());
    AcceptedOne(buf, cs', vs', t, v);
  }

  /** A single vector is accepted if it is the space of the last chunk, or of the first one with room. */
  lemma AcceptedOne(buf: Evbuffer, cs: seq<Chain>, vs: seq<seq<byte>>, t: nat, v: Iovec)
    requires Linked(buf, cs) && LastData(vs) < |cs| && t < |cs| && SpaceOf(v, cs[t])
    ensures forall len: nat :: len <= v.len ==>
      (Accepted(buf, cs, vs, [v.(len := len)]) <==> t == |cs| - 1 || t == FirstSpace(cs, vs))
  {
    Alone(cs, t);
    forall len: nat | len <= v.len
      ensures Accepted(buf, cs, vs, [v.(len := len)]) <==> t == |cs| - 1 || t == FirstSpace(cs, vs)
    {
      var vecs := [v.(len := len)];
      assert InLast(buf, vecs) <==> t == |cs| - 1;
      assert VecsAt(cs, FirstSpace(cs, vs), vecs) ==> SpaceOf(vecs[0], cs[FirstSpace(cs, vs) + 0]);
    }
  }
}
