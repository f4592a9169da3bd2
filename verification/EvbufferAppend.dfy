/** Adding bytes at either end of an evbuffer. */
module EvbufferAppend {
  import opened Bytes
  import opened Chains
  import opened Lists

  const EVBUFFER_CHAIN_MAX_AUTO_SIZE: nat := 4096
  const MAX_TO_REALIGN_IN_EXPAND: nat := 2048

  /** evbuffer_chain_new: the smallest power of two that holds header and data. */
  method ChainNew(size: nat) returns (chain: Chain)
    ensures fresh(chain) && chain.next == null && chain.misalign == 0 && chain.off == 0
    ensures size <= |chain.buffer| && MIN_BUFFER_SIZE - EVBUFFER_CHAIN_SIZE <= |chain.buffer|
    ensures |chain.buffer| <= MIN_BUFFER_SIZE - EVBUFFER_CHAIN_SIZE || |chain.buffer| < 2 * size + EVBUFFER_CHAIN_SIZE
  {
    var wanted := size + EVBUFFER_CHAIN_SIZE;
    var toAlloc := MIN_BUFFER_SIZE;
    while toAlloc < wanted
      invariant MIN_BUFFER_SIZE <= toAlloc
      invariant toAlloc == MIN_BUFFER_SIZE || toAlloc < 2 * wanted
    {
      toAlloc := 2 * toAlloc;
    }
    chain := new Chain(toAlloc - EVBUFFER_CHAIN_SIZE);
  }

  /** memcpy to CHAIN_SPACE_PTR of a chunk, which then stores that much more. */
  method StoreAfter(chain: Chain, data: seq<byte>, ghost v: seq<byte>)
    requires Stores(chain, v) && |data| <= chain.SpaceLen()
    modifies chain`off, chain`buffer
    ensures Stores(chain, v + data)
    ensures |chain.buffer| == old(|chain.buffer|)
  {
    chain.buffer := Overwrite(chain.buffer, chain.misalign + chain.off, data);
    assert chain.buffer[chain.misalign..chain.misalign + chain.off] == v by {
      assert chain.buffer[..chain.misalign + chain.off] == old(chain.buffer)[..chain.misalign + chain.off];
    }
    chain.off := chain.off + |data|;
  }

  /** memcpy to just before the stored bytes of a chunk. */
  method StoreBefore(chain: Chain, data: seq<byte>, ghost v: seq<byte>)
    requires Stores(chain, v) && |data| <= chain.misalign
    modifies chain`off, chain`misalign, chain`buffer
    ensures Stores(chain, data + v)
    ensures chain.misalign == old(chain.misalign) - |data| && |chain.buffer| == old(|chain.buffer|)
  {
    chain.buffer := Overwrite(chain.buffer, chain.misalign - |data|, data);
    assert chain.buffer[chain.misalign..] == old(chain.buffer[chain.misalign..]);
    assert chain.buffer[chain.misalign..chain.misalign + chain.off] == v by {
      assert v == old(chain.buffer[chain.misalign..])[..chain.off];
    }
    chain.off := chain.off + |data|;
    chain.misalign := chain.misalign - |data|;
  }

  /** evbuffer_chain_align: slides the stored bytes to the front of the chunk's memory. */
  method ChainAlign(chain: Chain, ghost v: seq<byte>)
    requires Stores(chain, v)
    modifies chain`misalign, chain`buffer
    ensures Stores(chain, v)
    ensures chain.misalign == 0 && |chain.buffer| == old(|chain.buffer|)
  {
    chain.buffer := Overwrite(chain.buffer, 0, chain.buffer[chain.misalign..chain.misalign + chain.off]);
    chain.misalign := 0;
  }

  predicate ShouldRealign(chain: Chain, datlen: nat)
    reads chain`off, chain`buffer
  {
    && |chain.buffer| - chain.off >= datlen
    && chain.off < |chain.buffer| / 2
    && chain.off <= MAX_TO_REALIGN_IN_EXPAND
  }

  /** The first chunk at or after k that stores nothing: where a new chunk goes. */
  ghost function FirstVictim(views: seq<seq<byte>>, k: nat): (v: nat)
    requires k <= |views|
    ensures k <= v <= |views|
    decreases |views| - k
  {
    if k < |views| && views[k] != [] then FirstVictim(views, k + 1) else k
  }

  lemma {:induction false} FirstVictimIsFirst(views: seq<seq<byte>>, k: nat)
    requires k <= |views|
    ensures var v := FirstVictim(views, k);
      && (forall i :: k <= i < v ==> views[i] != [])
      && (v < |views| ==> views[v] == [])
    decreases |views| - k
  {
    if k < |views| && views[k] != [] {
      FirstVictimIsFirst(views, k + 1);
    }
  }

  ghost predicate AllEmptyFrom(views: seq<seq<byte>>, k: nat) {
    forall i :: k <= i < |views| ==> views[i] == []
  }

  /** evbuffer_chains_all_empty. */
  method ChainsAllEmpty(chain: Chain?, ghost cs: seq<Chain>, ghost vs: seq<seq<byte>>, ghost k: nat) returns (r: bool)
    requires Holds(cs, vs) && k <= |cs| && chain == Nth(cs, k)
    requires Chained(cs)
    ensures r <==> AllEmptyFrom(vs, k)
  {
    var ch := chain;
    ghost var i := k;
    while ch != null
      invariant k <= i <= |cs| && ch == Nth(cs, i)
      invariant forall j :: k <= j < i ==> vs[j] == []
      decreases |cs| - i
    {
      assert Stores(cs[i], vs[i]);
      if ch.off != 0 {
        return false;
      }
      ch, i := ch.next, i + 1;
    }
    return true;
  }

  /** `*slot = chain`, `last = chain`, `total_len += off`: chunk k and all that follow give way to `chain`. */
  method PutAt(buf: Evbuffer, ghost cs: seq<Chain>, ghost vs: seq<seq<byte>>, ghost k: nat,
               prev: Chain?, chain: Chain, ghost v: seq<byte>)
    requires Linked(buf, cs) && Holds(cs, vs) && k <= |cs| && prev == Before(cs, k)
    requires chain !in cs && chain.next == null && Stores(chain, v)
    modifies buf`first, buf`last, buf`totalLen, (if prev == null then {} else {prev})`next
    ensures Linked(buf, cs[..k] + [chain])
    ensures Holds(cs[..k] + [chain], vs[..k] + [v])
    ensures buf.totalLen == old(buf.totalLen) + |v|
  {
    if k > 0 {
      Alone(cs, k - 1);
    }
    DistinctSlice(cs, 0, k);
    DistinctJoin(cs[..k], [chain]);
    HoldsSlice(cs, vs, 0, k);
    HoldsOne(chain, v);
    HoldsJoin(cs[..k], vs[..k], [chain], [v]);
    if prev == null {
      buf.first := chain;
    } else {
      prev.next := chain;
    }
    buf.last := chain;
    buf.totalLen := buf.totalLen + chain.off;
  }

  /** The walk from last_with_datap to the first chunk that stores nothing. */
  method FindVictim(buf: Evbuffer, ghost cs: seq<Chain>, ghost vs: seq<seq<byte>>, ghost d: nat)
    returns (prev: Chain?, ch: Chain?, ghost k: nat)
    requires Linked(buf, cs) && Holds(cs, vs) && SlotAt(buf, cs, d)
    ensures k == FirstVictim(vs, d)
    ensures prev == Before(cs, k) && ch == Nth(cs, k)
  {
    k := d;
    prev, ch := buf.lastWithDataPrev, LastWithData(buf);
    while ch != null && ch.off != 0
      invariant k <= |cs| && FirstVictim(vs, k) == FirstVictim(vs, d)
      invariant prev == Before(cs, k) && ch == Nth(cs, k)
      decreases |cs| - k
    {
      assert Stores(cs[k], vs[k]);
      prev, ch, k := ch, ch.next, k + 1;
    }
    assert k < |cs| ==> Stores(cs[k], vs[k]);
  }

  /**
   * evbuffer_chain_insert. `halted` is its assertion that every chunk it frees is empty;
   * nothing has changed then.
   */
  method ChainInsert(buf: Evbuffer, ghost cs: seq<Chain>, ghost vs: seq<seq<byte>>, ghost d: nat,
                     chain: Chain, ghost v: seq<byte>)
    returns (halted: bool, ghost k: nat)
    requires Linked(buf, cs) && Holds(cs, vs) && SlotAt(buf, cs, d) && (|cs| > 0 ==> d < |cs|)
    requires chain !in cs && chain.next == null && Stores(chain, v)
    modifies buf`first, buf`last, buf`lastWithDataPrev, buf`totalLen, Members(cs)`next
    ensures k == FirstVictim(vs, d)
    ensures halted <==> !AllEmptyFrom(vs, k)
    ensures !halted ==> Linked(buf, cs[..k] + [chain]) && Holds(cs[..k] + [chain], vs[..k] + [v])
    ensures !halted ==> SlotAt(buf, cs[..k] + [chain], if k == |cs| && v != [] then k else d)
    ensures !halted ==> buf.totalLen == old(buf.totalLen) + |v|
  {
    halted := false;
    LastWithDataIsNth(buf, cs, d);
    if LastWithData(buf) == null {
      k := 0;
      PutAt(buf, cs, vs, 0, null, chain, v);
    } else {
      var prev, ch;
      prev, ch, k := FindVictim(buf, cs, vs, d);
      if ch == null {
        if chain.off > 0 {
          buf.lastWithDataPrev := prev;
        }
      } else {
        var empty := ChainsAllEmpty(ch, cs, vs, k);
        if !empty {
          return true, k;
        }
      }
      PutAt(buf, cs, vs, k, prev, chain, v);
    }
  }

  /** The last piece topped up with `part`. */
  ghost function Filled(vs: seq<seq<byte>>, part: seq<byte>): (f: seq<seq<byte>>)
    requires |vs| > 0
    ensures |f| == |vs| && f[|vs| - 1] == vs[|vs| - 1] + part
    ensures forall i :: 0 <= i < |vs| - 1 ==> f[i] == vs[i]
  {
    vs[|vs| - 1 := vs[|vs| - 1] + part]
  }

  /** The last chunk can take `n` more bytes, perhaps after realigning. */
  predicate RoomIn(chain: Chain, n: nat)
    reads chain`misalign, chain`off, chain`buffer
  {
    chain.SpaceLen() >= n || ShouldRealign(chain, n)
  }

  /** A chunk of `size` bytes of memory can store the last piece from `misalign` on. */
  ghost predicate LastFits(vs: seq<seq<byte>>, size: nat, misalign: nat) {
    |vs| > 0 && misalign + |vs[|vs| - 1]| <= size && MIN_BUFFER_SIZE - EVBUFFER_CHAIN_SIZE <= size
  }

  /** RoomIn, for such a chunk. */
  ghost predicate RoomFor(vs: seq<seq<byte>>, size: nat, misalign: nat, n: nat)
    requires |vs| > 0
  {
    var off := |vs[|vs| - 1]|;
    size - misalign - off >= n || (size - off >= n && off < size / 2 && off <= MAX_TO_REALIGN_IN_EXPAND)
  }

  /** What evbuffer_add does to the last chunk when no second one is needed. */
  method AddInPlace(buf: Evbuffer, chain: Chain, data: seq<byte>, ghost v: seq<byte>) returns (done: bool)
    requires Stores(chain, v)
    modifies chain`misalign, chain`off, chain`buffer, buf`totalLen
    ensures done == old(RoomIn(chain, |data|))
    ensures done ==> Stores(chain, v + data) && buf.totalLen == old(buf.totalLen) + |data|
    ensures !done ==> unchanged(chain, buf)
  {
    if chain.SpaceLen() >= |data| {
      StoreAfter(chain, data, v);
    } else if ShouldRealign(chain, |data|) {
      ChainAlign(chain, v);
      StoreAfter(chain, data, v);
    } else {
      return false;
    }
    buf.totalLen := buf.totalLen + |data|;
    return true;
  }

  /** A new chunk of at least `size` bytes that stores `data`. */
  method ChainNewHolding(size: nat, data: seq<byte>) returns (chain: Chain)
    requires |data| <= size
    ensures fresh(chain) && chain.next == null && Stores(chain, data)
  {
    chain := ChainNew(size);
    StoreAfter(chain, data, []);
    assert [] + data == data;
  }

  /** Tops the last chunk up with the first `remain` bytes. */
  method FillUp(buf: Evbuffer, chain: Chain, data: seq<byte>, ghost cs: seq<Chain>, ghost vs: seq<seq<byte>>)
    requires Holds(cs, vs) && |cs| > 0 && chain == cs[|cs| - 1] && chain !in cs[..|cs| - 1]
    requires Stores(chain, vs[|cs| - 1]) && |data| <= chain.SpaceLen()
    modifies chain`off, chain`buffer, buf`totalLen
    ensures Holds(cs, Filled(vs, data))
    ensures buf.totalLen == old(buf.totalLen) + |data|
  {
    if |data| > 0 {
      StoreAfter(chain, data, vs[|cs| - 1]);
      buf.totalLen := buf.totalLen + |data|;
    }
  }

  /** The second chunk: twice as large as the last one while that is small, and large enough for all the data. */
  method NewTail(chain: Chain, data: seq<byte>, remain: nat) returns (tmp: Chain)
    requires remain <= |data|
    ensures fresh(tmp) && tmp.next == null && Stores(tmp, data[remain..])
  {
    var toAlloc := |chain.buffer|;
    if toAlloc <= EVBUFFER_CHAIN_MAX_AUTO_SIZE / 2 {
      toAlloc := 2 * toAlloc;
    }
    if |data| > toAlloc {
      toAlloc := |data|;
    }
    tmp := ChainNewHolding(toAlloc, data[remain..]);
  }

  /** What evbuffer_add does when the last chunk can only take the first `remain` bytes. */
  method AddGrowing(buf: Evbuffer, ghost cs: seq<Chain>, ghost vs: seq<seq<byte>>, ghost d: nat,
                    chain: Chain, data: seq<byte>, remain: nat)
    returns (halted: bool, tmp: Chain, ghost k: nat)
    requires Linked(buf, cs) && Holds(cs, vs) && SlotAt(buf, cs, d) && d < |cs|
    requires chain == cs[|cs| - 1] && Stores(chain, vs[|cs| - 1]) && remain == chain.SpaceLen() < |data|
    modifies buf`first, buf`last, buf`lastWithDataPrev, buf`totalLen, Members(cs)
    ensures var filled := Filled(vs, data[..remain]);
      && k == FirstVictim(filled, d)
      && (halted <==> !AllEmptyFrom(filled, k))
      && fresh(tmp)
      && (!halted ==>
            && Linked(buf, cs[..k] + [tmp])
            && Holds(cs[..k] + [tmp], filled[..k] + [data[remain..]])
            && SlotAt(buf, cs[..k] + [tmp], if k == |cs| then k else d)
            && buf.totalLen == old(buf.totalLen) + |data|)
  {
    Alone(cs, |cs| - 1);
    tmp := NewTail(chain, data, remain);
    FillUp(buf, chain, data[..remain], cs, vs);
    halted, k := ChainInsert(buf, cs, Filled(vs, data[..remain]), d, tmp, data[remain..]);
  }

  /**
   * What evbuffer_add makes of the stored pieces: in place when the last chunk has room, else
   * `remain` bytes there and the rest in a new chunk that replaces the victims.
   */
  datatype AddResult = Halts | Adds(views: seq<seq<byte>>, lwd: nat)

  /** The last chunk has `size` bytes of memory and stores its piece from `misalign` on; last_with_datap is at chunk d. */
  ghost function AddSpec(vs: seq<seq<byte>>, d: nat, data: seq<byte>, size: nat, misalign: nat): AddResult
    requires d < |vs| && LastFits(vs, size, misalign)
  {
    if RoomFor(vs, size, misalign, |data|) then Adds(Filled(vs, data), d)
    else
      var remain := size - misalign - |vs[|vs| - 1]|;
      var filled := Filled(vs, data[..remain]);
      var k := FirstVictim(filled, d);
      LastDataIsLast(vs);
      FirstVictimIsFirst(filled, d);
      if AllEmptyFrom(filled, k)
      then Adds(filled[..k] + [data[remain..]], if k == |vs| then k else d)
      else Halts
  }

  /** The last chunk is a spare one, and it is not the only one behind data. */
  ghost predicate SparesBehind(vs: seq<seq<byte>>) {
    |vs| > 0 && LastData(vs) < |vs| - 1 && !(LastData(vs) == |vs| - 2 && Flatten(vs) != [])
  }

  /**
   * evbuffer_add runs into the assertion of evbuffer_chain_insert: n bytes are more than the memory
   * of the spare last chunk, which is not all misalignment, so that it takes some of them.
   */
  ghost predicate AddHalts(vs: seq<seq<byte>>, n: nat, size: nat, misalign: nat) {
    SparesBehind(vs) && n > size && misalign < size
  }

  /** evbuffer_add leaves last_with_datap on the last chunk with data. */
  ghost predicate AddKeepsSlot(vs: seq<seq<byte>>, n: nat, size: nat, misalign: nat) {
    || n == 0
    || |vs| == 0
    || LastData(vs) == |vs| - 1
    || (n > size && (misalign < size || Flatten(vs) == []))
  }

  lemma NoDataIffFirstEmpty(vs: seq<seq<byte>>)
    requires |vs| > 0
    ensures Flatten(vs) == [] <==> vs[LastData(vs)] == []
  {
    var d := LastData(vs);
    LastDataIsLast(vs);
    FlattenSplit(vs, d);
    if vs[d] == [] {
      FlattenEmpties(vs);
    }
  }

  lemma AddInPlaceMeans(vs: seq<seq<byte>>, data: seq<byte>)
    requires |vs| > 0
    ensures var vs' := Filled(vs, data);
      && Flatten(vs') == Flatten(vs) + data
      && (LastData(vs') == LastData(vs) <==> data == [] || LastData(vs) == |vs| - 1)
      && (IsTight(vs) ==> IsTight(vs'))
  {
    var n := |vs| - 1;
    var vs' := Filled(vs, data);
    LastDataIsLast(vs);
    FlattenExtendLast(vs, data);
    if data == [] {
      assert vs[n] + data == vs[n];
      assert vs' == vs;
    } else {
      assert vs'[n] != [];
      LastDataIs(vs', n);
    }
  }

  lemma AddGrowingHalts(vs: seq<seq<byte>>, part: seq<byte>)
    requires |vs| > 0
    ensures AllEmptyFrom(Filled(vs, part), FirstVictim(Filled(vs, part), LastData(vs))) <==> !(SparesBehind(vs) && part != [])
  {
    var n, d, filled := |vs| - 1, LastData(vs), Filled(vs, part);
    var k := FirstVictim(filled, d);
    LastDataIsLast(vs);
    FirstVictimIsFirst(filled, d);
    NoDataIffFirstEmpty(vs);
    if part == [] {
      assert vs[n] + part == vs[n];
      assert forall i :: k <= i < |filled| ==> filled[i] == vs[i];
    } else {
      assert filled[n] != [];
      assert AllEmptyFrom(filled, k) <==> k == |vs|;
      assert d < n - 1 ==> filled[n - 1] == [];
    }
  }

  lemma AddGrowingContent(vs: seq<seq<byte>>, part: seq<byte>, rest: seq<byte>, k: nat)
    requires |vs| > 0 && k <= |vs| && AllEmptyFrom(Filled(vs, part), k)
    ensures Flatten(Filled(vs, part)[..k] + [rest]) == Flatten(vs) + (part + rest)
  {
    calc {
      Flatten(Filled(vs, part)[..k] + [rest]);
      { FlattenAppend(Filled(vs, part)[..k], rest); }
      Flatten(Filled(vs, part)[..k]) + rest;
      { FlattenCut(Filled(vs, part), k); }
      Flatten(Filled(vs, part)) + rest;
      { FlattenExtendLast(vs, part); }
      Flatten(vs) + part + rest;
      { Assoc(Flatten(vs), part, rest); }
      Flatten(vs) + (part + rest);
    }
  }

  lemma AddGrowingSlot(vs: seq<seq<byte>>, part: seq<byte>, rest: seq<byte>)
    requires |vs| > 0 && rest != []
    requires !(SparesBehind(vs) && part != [])
    ensures var k := FirstVictim(Filled(vs, part), LastData(vs));
      var vs' := Filled(vs, part)[..k] + [rest];
      && (LastData(vs') == (if k == |vs| then k else LastData(vs)) <==>
            LastData(vs) == |vs| - 1 || |part| > 0 || Flatten(vs) == [])
  {
    var n, d, filled := |vs| - 1, LastData(vs), Filled(vs, part);
    var k := FirstVictim(filled, d);
    LastDataIsLast(vs);
    FirstVictimIsFirst(filled, d);
    var vs' := filled[..k] + [rest];
    AddGrowingHalts(vs, part);
    NoDataIffFirstEmpty(vs);
    assert vs'[k] == rest;
    LastDataIs(vs', k);
    if part == [] {
      assert vs[n] + part == vs[n];
    } else {
      assert filled[n] != [];
    }
  }

  lemma TightSnoc(front: seq<seq<byte>>, last: seq<byte>)
    requires last != [] && forall i :: 0 <= i < |front| ==> front[i] != []
    ensures IsTight(front + [last])
  {
  }

  lemma AddGrowingTight(vs: seq<seq<byte>>, part: seq<byte>, rest: seq<byte>)
    requires |vs| > 0 && IsTight(vs) && rest != []
    ensures IsTight(Filled(vs, part)[..FirstVictim(Filled(vs, part), LastData(vs))] + [rest])
  {
    var n, f := |vs| - 1, Filled(vs, part);
    LastDataIs(vs, n);
    FirstVictimIsFirst(f, n);
    var front := f[..FirstVictim(f, n)];
    assert forall i :: 0 <= i < |front| ==> front[i] == f[i];
    TightSnoc(front, rest);
  }

  /** evbuffer_add on a buffer that has a chunk. */
  method AddTo(buf: Evbuffer, ghost cs: seq<Chain>, ghost vs: seq<seq<byte>>, ghost d: nat,
               data: seq<byte>)
    returns (halted: bool, ghost cs': seq<Chain>)
    requires Linked(buf, cs) && Holds(cs, vs) && SlotAt(buf, cs, d) && d < |cs|
    modifies buf`first, buf`last, buf`lastWithDataPrev, buf`totalLen, Members(cs)
    ensures fresh(Members(cs') - Members(cs))
    ensures old(LastFits(vs, |buf.last.buffer|, buf.last.misalign))
    ensures var r := AddSpec(vs, d, data, old(|buf.last.buffer|), old(buf.last.misalign));
      && (halted <==> r.Halts?)
      && (!halted ==>
            && Linked(buf, cs') && Holds(cs', r.views) && SlotAt(buf, cs', r.lwd)
            && buf.totalLen == old(buf.totalLen) + |data|)
  {
    var chain := buf.last;
    cs' := cs;
    assert Stores(chain, vs[|cs| - 1]);
    Alone(cs, |cs| - 1);
    var done := AddInPlace(buf, chain, data, vs[|cs| - 1]);
    halted := false;
    if !done {
      ghost var k;
      var tmp;
      halted, tmp, k := AddGrowing(buf, cs, vs, d, chain, data, chain.SpaceLen());
      cs' := cs[..k] + [tmp];
      MembersCut(cs, k, tmp);
    }
  }

  /** A chunk that stores nothing is realigned whenever that helps. */
  lemma SpareRoom(vs: seq<seq<byte>>, size: nat, misalign: nat, n: nat)
    requires LastFits(vs, size, misalign) && LastData(vs) < |vs| - 1
    ensures RoomFor(vs, size, misalign, n) <==> n <= size
    ensures vs[|vs| - 1] == []
  {
    LastDataIsLast(vs);
  }

  lemma AddSpecMeans(vs: seq<seq<byte>>, data: seq<byte>, size: nat, misalign: nat)
    requires LastFits(vs, size, misalign)
    ensures var r := AddSpec(vs, LastData(vs), data, size, misalign);
      && (r.Halts? <==> AddHalts(vs, |data|, size, misalign))
      && (r.Adds? ==>
            && Flatten(r.views) == Flatten(vs) + data
            && (LastData(r.views) == r.lwd <==> AddKeepsSlot(vs, |data|, size, misalign))
            && (IsTight(vs) ==> IsTight(r.views)))
  {
    if LastData(vs) < |vs| - 1 {
      SpareRoom(vs, size, misalign, |data|);
    }
    if RoomFor(vs, size, misalign, |data|) {
      AddInPlaceMeans(vs, data);
    } else {
      var remain := size - misalign - |vs[|vs| - 1]|;
      var part, rest := data[..remain], data[remain..];
      var k := FirstVictim(Filled(vs, part), LastData(vs));
      assert data == part + rest;
      AddGrowingHalts(vs, part);
      if AllEmptyFrom(Filled(vs, part), k) {
        AddGrowingMeans(vs, part, rest, k);
      }
    }
  }

  /** What becomes of the pieces when `part` goes to the last chunk and `rest` to a new one. */
  lemma AddGrowingMeans(vs: seq<seq<byte>>, part: seq<byte>, rest: seq<byte>, k: nat)
    requires |vs| > 0 && rest != [] && k == FirstVictim(Filled(vs, part), LastData(vs))
    requires AllEmptyFrom(Filled(vs, part), k)
    ensures var vs' := Filled(vs, part)[..k] + [rest];
      && Flatten(vs') == Flatten(vs) + (part + rest)
      && (LastData(vs') == (if k == |vs| then k else LastData(vs)) <==>
            LastData(vs) == |vs| - 1 || |part| > 0 || Flatten(vs) == [])
      && (IsTight(vs) ==> IsTight(vs'))
  {
    AddGrowingHalts(vs, part);
    AddGrowingContent(vs, part, rest, k);
    AddGrowingSlot(vs, part, rest);
    if IsTight(vs) {
      AddGrowingTight(vs, part, rest);
    }
  }

  /** Where last_with_datap stands before the data, with an empty chunk next to it, it stays there, or the assertion fires. */
  lemma AddBehind(vs: seq<seq<byte>>, d: nat, data: seq<byte>, size: nat, misalign: nat)
    requires LastFits(vs, size, misalign) && d < LastData(vs) && vs[d + 1] == []
    ensures var r := AddSpec(vs, d, data, size, misalign);
      && (r.Halts? <==> !RoomFor(vs, size, misalign, |data|))
      && (r.Adds? ==> Flatten(r.views) == Flatten(vs) + data && LastData(r.views) != r.lwd)
  {
    var e := LastData(vs);
    LastDataIsLast(vs);
    if RoomFor(vs, size, misalign, |data|) {
      AddInPlaceMeans(vs, data);
      LastDataIsLast(Filled(vs, data));
      assert Filled(vs, data)[e] != [];
    } else {
      var filled := Filled(vs, data[..size - misalign - |vs[|vs| - 1]|]);
      FirstVictimIsFirst(filled, d);
      assert filled[e] != [] && filled[d + 1] == [];
    }
  }

  /** The memory of the last chunk, and where in it the bytes begin that it stores. */
  ghost function LastSize(cs: seq<Chain>): nat
    reads Members(cs)`buffer
  {
    if cs == [] then 0 else |cs[|cs| - 1].buffer|
  }

  ghost function LastMisalign(cs: seq<Chain>): nat
    reads Members(cs)`misalign
  {
    if cs == [] then 0 else cs[|cs| - 1].misalign
  }

  /** AddSpec, also for a buffer that has no chunk. */
  ghost function AddAnySpec(vs: seq<seq<byte>>, d: nat, data: seq<byte>, size: nat, misalign: nat): AddResult
    requires |vs| > 0 ==> d < |vs| && LastFits(vs, size, misalign)
  {
    if vs == [] then Adds([data], 0) else AddSpec(vs, d, data, size, misalign)
  }

  lemma AddAnyMeans(vs: seq<seq<byte>>, data: seq<byte>, size: nat, misalign: nat)
    requires |vs| > 0 ==> LastFits(vs, size, misalign)
    ensures var r := AddAnySpec(vs, LastData(vs), data, size, misalign);
      && (r.Halts? <==> AddHalts(vs, |data|, size, misalign))
      && (r.Adds? ==>
            && Flatten(r.views) == Flatten(vs) + data
            && (LastData(r.views) == r.lwd <==> AddKeepsSlot(vs, |data|, size, misalign))
            && (IsTight(vs) ==> IsTight(r.views)))
  {
    if vs == [] {
      FlattenOne(data);
    } else {
      AddSpecMeans(vs, data, size, misalign);
    }
  }

  lemma AddNoSpare(vs: seq<seq<byte>>, data: seq<byte>, size: nat, misalign: nat)
    requires (|vs| > 0 ==> LastFits(vs, size, misalign)) && NoSpare(vs)
    ensures var r := AddAnySpec(vs, LastData(vs), data, size, misalign);
      && r.Adds? && Flatten(r.views) == Flatten(vs) + data
      && LastData(r.views) == r.lwd == |r.views| - 1
      && (IsTight(vs) ==> IsTight(r.views))
  {
    AddAnyMeans(vs, data, size, misalign);
  }

  /** The first chunk of a buffer that has none. */
  method FirstChain(buf: Evbuffer, size: nat) returns (chain: Chain)
    requires Rep(buf, [], [])
    modifies buf`first, buf`last, buf`lastWithDataPrev, buf`totalLen
    ensures fresh(chain) && chain.misalign == 0 && chain.off == 0 && size <= |chain.buffer|
    ensures Rep(buf, [chain], [[]])
  {
    chain := ChainNew(size);
    var halted;
    ghost var k;
    halted, k := ChainInsert(buf, [], [], 0, chain, []);
  }

  /** evbuffer_add on a buffer without chunks. */
  method AddFirst(buf: Evbuffer, data: seq<byte>) returns (ghost cs': seq<Chain>)
    requires Rep(buf, [], [])
    modifies buf
    ensures fresh(Members(cs')) && Rep(buf, cs', [data])
  {
    var chain := FirstChain(buf, |data|);
    var halted;
    assert Stores(chain, []);
    halted, cs' := AddTo(buf, [chain], [[]], 0, data);
    assert Filled([[]], data) == [[] + data] && [] + data == data;
    FlattenOne(data);
  }

  /** evbuffer_add, wherever last_with_datap stands. */
  method AddAny(buf: Evbuffer, ghost cs: seq<Chain>, ghost vs: seq<seq<byte>>, ghost d: nat, data: seq<byte>)
    returns (halted: bool, ghost cs': seq<Chain>)
    requires Linked(buf, cs) && Holds(cs, vs) && SlotAt(buf, cs, d) && (|cs| > 0 ==> d < |cs|) && buf.totalLen == |Flatten(vs)|
    modifies buf, Members(cs)
    ensures fresh(Members(cs') - Members(cs))
    ensures old(|vs| > 0 ==> LastFits(vs, LastSize(cs), LastMisalign(cs)))
    ensures var r := AddAnySpec(vs, d, data, old(LastSize(cs)), old(LastMisalign(cs)));
      && (halted <==> r.Halts?)
      && (!halted ==>
            && Linked(buf, cs') && Holds(cs', r.views) && SlotAt(buf, cs', r.lwd)
            && buf.totalLen == |Flatten(vs)| + |data|)
  {
    if buf.last == null {
      halted := false;
      assert cs == [] && vs == [];
      cs' := AddFirst(buf, data);
      FlattenOne(data);
    } else {
      assert Stores(buf.last, vs[|vs| - 1]);
      halted, cs' := AddTo(buf, cs, vs, d, data);
    }
  }

  /** evbuffer_add on a buffer without spare chunks. */
  method Add(buf: Evbuffer, ghost cs: seq<Chain>, ghost vs: seq<seq<byte>>, data: seq<byte>)
    returns (ghost cs': seq<Chain>, ghost vs': seq<seq<byte>>)
    requires Rep(buf, cs, vs) && NoSpare(vs)
    modifies buf, Members(cs)
    ensures Rep(buf, cs', vs') && NoSpare(vs')
    ensures Flatten(vs') == Flatten(vs) + data
    ensures IsTight(vs) ==> IsTight(vs')
    ensures fresh(Members(cs') - Members(cs))
  {
    ghost var size, misalign := LastSize(cs), LastMisalign(cs);
    var halted;
    halted, cs' := AddAny(buf, cs, vs, LastData(vs), data);
    AddNoSpare(vs, data, size, misalign);
    vs' := AddAnySpec(vs, LastData(vs), data, size, misalign).views;
  }
}
