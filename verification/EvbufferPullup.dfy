/** Making the first bytes of an evbuffer contiguous. */
module EvbufferPullup {
  import opened Bytes
  import opened Chains
  import opened Lists
  import opened EvbufferAppend
  import opened EvbufferDrain

  /**
   * The copy loop of evbuffer_pullup: chunks of `rest` that are wanted whole are copied behind
   * what `tmp` stores, and freed. Chunk number e of `rest` is the last one with data.
   */
  method Swallow(buf: Evbuffer, ghost rest: seq<Chain>, ghost vr: seq<seq<byte>>, ghost e: nat,
                 tmp: Chain, ghost acc: seq<byte>, head: Chain?, size: nat, lastWithData: Chain)
    returns (chain: Chain?, left: nat, ghost k: nat, removedLast: bool, removedSlot: bool)
    requires Chained(rest) && Distinct(rest) && Holds(rest, vr) && head == Nth(rest, 0)
    requires Stores(tmp, acc) && tmp !in rest && size <= tmp.SpaceLen() && size <= |Flatten(vr)|
    requires e < |rest| && lastWithData == rest[e]
    requires if e == 0 then buf.lastWithDataPrev !in rest else buf.lastWithDataPrev == rest[e - 1]
    modifies tmp`off, tmp`buffer
    ensures k <= |rest| && chain == Nth(rest, k)
    ensures left + |Flatten(vr[..k])| == size && (if k < |rest| then left < |vr[k]| else left == 0)
    ensures Stores(tmp, acc + Flatten(vr[..k])) && left <= tmp.SpaceLen()
    ensures removedLast <==> e < k
    ensures removedSlot <==> 0 < e <= k
  {
    k := 0;
    chain, left, removedLast, removedSlot := head, size, false, false;
    assert acc + Flatten(vr[..0]) == acc;
    assert k < |rest| ==> Stores(rest[k], vr[k]);
    while chain != null && left >= chain.off
      invariant k <= |rest| && chain == Nth(rest, k)
      invariant k < |rest| ==> Stores(rest[k], vr[k])
      invariant left + |Flatten(vr[..k])| == size
      invariant Stores(tmp, acc + Flatten(vr[..k])) && left <= tmp.SpaceLen()
      invariant removedLast <==> e < k
      invariant removedSlot <==> 0 < e <= k
      decreases |rest| - k
    {
      TakeOneMore(vr, k);
      Assoc(acc, Flatten(vr[..k]), vr[k]);
      Alone(rest, k);
      StoreAfter(tmp, chain.buffer[chain.misalign..chain.misalign + chain.off], acc + Flatten(vr[..k]));
      left := left - chain.off;
      if chain == lastWithData {
        removedLast := true;
      }
      if chain == buf.lastWithDataPrev {
        removedSlot := true;
      }
      chain, k := chain.next, k + 1;
      assert k < |rest| ==> Stores(rest[k], vr[k]);
    }
    if chain == null {
      assert vr[..k] == vr;
    }
  }

  /** What is left behind once k pieces and `n` more bytes are gone. */
  ghost function Tail(vr: seq<seq<byte>>, k: nat, n: nat): seq<seq<byte>>
    requires k <= |vr| && (k < |vr| ==> n <= |vr[k]|)
  {
    if k < |vr| then From(vr, k, n) else []
  }

  /** The bytes of piece k that go along. */
  ghost function Part(vr: seq<seq<byte>>, k: nat, n: nat): seq<byte>
    requires k <= |vr| && (k < |vr| ==> n <= |vr[k]|)
  {
    if k < |vr| then vr[k][..n] else []
  }

  /** `tmp->next = chain`: the list is `tmp` and what follows the swallowed chunks. */
  method Relink(buf: Evbuffer, ghost rest: seq<Chain>, tmp: Chain, ghost k: nat, chain: Chain?)
    requires Chained(rest) && Distinct(rest) && |rest| > 0 && tmp !in rest
    requires k <= |rest| && chain == Nth(rest, k)
    requires buf.first == tmp && buf.last == rest[|rest| - 1]
    modifies buf`last, tmp`next
    ensures Linked(buf, [tmp] + rest[k..])
  {
    DistinctDrop(rest, k);
    DistinctJoin([tmp], rest[k..]);
    if chain == null {
      buf.last := tmp;
    }
    tmp.next := chain;
  }

  /** The bytes of a chunk that is only partly wanted move to the end of what `tmp` stores. */
  method TakePart(ghost rest: seq<Chain>, ghost vr: seq<seq<byte>>, tmp: Chain, ghost acc: seq<byte>,
                  ghost k: nat, left: nat, chain: Chain?)
    requires Distinct(rest) && Holds(rest, vr) && tmp !in rest && Stores(tmp, acc) && left <= tmp.SpaceLen()
    requires k <= |rest| && chain == Nth(rest, k) && (k < |rest| ==> left <= |vr[k]|)
    modifies tmp`off, tmp`buffer, (if chain == null then {} else {chain})`misalign, (if chain == null then {} else {chain})`off
    ensures Holds([tmp] + rest[k..], [acc + Part(vr, k, left)] + Tail(vr, k, left))
  {
    if chain != null {
      assert Stores(chain, vr[k]);
      StoreAfter(tmp, chain.buffer[chain.misalign..chain.misalign + left], acc);
      DropBytes(chain, left, rest, vr, k);
    } else {
      assert rest[k..] == [] && acc + [] == acc;
    }
    HoldsOne(tmp, acc + Part(vr, k, left));
    HoldsJoin([tmp], [acc + Part(vr, k, left)], rest[k..], Tail(vr, k, left));
  }

  /** The pieces after `acc` has swallowed `size` bytes of `vr`: k whole pieces and `left` bytes more. */
  ghost function Pulled(acc: seq<byte>, vr: seq<seq<byte>>, k: nat, left: nat): seq<seq<byte>>
    requires k <= |vr| && (k < |vr| ==> left <= |vr[k]|)
  {
    [acc + Flatten(vr[..k]) + Part(vr, k, left)] + Tail(vr, k, left)
  }

  ghost predicate PulledFrom(vr: seq<seq<byte>>, k: nat, left: nat) {
    k <= |vr| && if k < |vr| then left < |vr[k]| else left == 0
  }

  lemma PulledContent(acc: seq<byte>, vr: seq<seq<byte>>, k: nat, left: nat)
    requires PulledFrom(vr, k, left)
    ensures var vs' := Pulled(acc, vr, k, left);
      && Flatten(vs') == acc + Flatten(vr)
      && |vs'[0]| == |acc| + |Flatten(vr[..k])| + left
  {
    var whole, part, tail := Flatten(vr[..k]), Part(vr, k, left), Tail(vr, k, left);
    assert Flatten(vr) == whole + part + Flatten(tail) by {
      if k < |vr| {
        FromMeans(vr, k, left);
      } else {
        assert vr[..k] == vr;
      }
    }
    assert ([acc + whole + part] + tail)[1..] == tail;
    Assoc(acc, whole, part);
    Assoc(acc, whole + part, Flatten(tail));
  }

  lemma PulledSlot(acc: seq<byte>, vr: seq<seq<byte>>, k: nat, left: nat)
    requires PulledFrom(vr, k, left) && Flatten(vr) != []
    ensures var e := LastData(vr);
      && e < |vr| && (e < k || k < |vr|)
      && LastData(Pulled(acc, vr, k, left)) == (if e < k then 0 else e - k + 1)
      && (NoSpare(vr) ==> NoSpare(Pulled(acc, vr, k, left)))
  {
    var e, first := LastData(vr), acc + Flatten(vr[..k]) + Part(vr, k, left);
    LastDataIsLast(vr);
    NoDataIffFirstEmpty(vr);
    if k < |vr| {
      assert vr[k] != [];
      TailSlot(first, vr, k, left);
    } else {
      assert Pulled(acc, vr, k, left) == [first];
    }
  }

  lemma TailSlot(first: seq<byte>, vr: seq<seq<byte>>, k: nat, left: nat)
    requires k < |vr| && left < |vr[k]|
    ensures k <= LastData(vr) < |vr|
    ensures LastData([first] + From(vr, k, left)) == LastData(vr) - k + 1
  {
    var e, vs' := LastData(vr), [first] + From(vr, k, left);
    LastDataIsLast(vr);
    assert vr[k] != [];
    assert vs'[e - k + 1] == if e == k then vr[k][left..] else vr[e];
    assert forall j :: e - k + 1 < j < |vs'| ==> vs'[j] == vr[k + j - 1];
    LastDataIs(vs', e - k + 1);
  }

  /** The last step of evbuffer_pullup: last_with_datap when the chunk it is in, or it names, is gone. */
  method FixSlot(buf: Evbuffer, ghost cs: seq<Chain>, ghost vs: seq<seq<byte>>, removedLast: bool, removedSlot: bool)
    requires Linked(buf, cs) && Holds(cs, vs) && |cs| > 0
    modifies buf`lastWithDataPrev
    ensures Linked(buf, cs) && Holds(cs, vs)
    ensures removedLast ==> SlotAt(buf, cs, 0)
    ensures !removedLast && removedSlot ==> SlotAt(buf, cs, if |vs| > 1 && vs[1] != [] then 1 else 0)
    ensures !removedLast && !removedSlot ==> unchanged(buf)
  {
    if removedLast {
      buf.lastWithDataPrev := null;
    } else if removedSlot {
      assert |cs| > 1 ==> Stores(cs[1], vs[1]);
      if buf.first.next != null && buf.first.next.off > 0 {
        buf.lastWithDataPrev := buf.first;
      } else {
        buf.lastWithDataPrev := null;
      }
    }
  }

  /** The bytes that come into `tmp`, and the list that remains. */
  method PullBytes(buf: Evbuffer, ghost rest: seq<Chain>, ghost vr: seq<seq<byte>>, ghost e: nat,
                   tmp: Chain, ghost acc: seq<byte>, head: Chain?, size: nat, lastWithData: Chain)
    returns (ghost k: nat, ghost left: nat, removedLast: bool, removedSlot: bool)
    requires Chained(rest) && Distinct(rest) && Holds(rest, vr) && e < |rest| && head == rest[0]
    requires Stores(tmp, acc) && tmp !in rest && size <= tmp.SpaceLen() && size <= |Flatten(vr)|
    requires buf.first == tmp && buf.last == rest[|rest| - 1]
    requires lastWithData == rest[e]
    requires if e == 0 then buf.lastWithDataPrev !in rest else buf.lastWithDataPrev == rest[e - 1]
    modifies buf`last, tmp, Members(rest)
    ensures PulledFrom(vr, k, left) && left + |Flatten(vr[..k])| == size
    ensures Linked(buf, [tmp] + rest[k..]) && Holds([tmp] + rest[k..], Pulled(acc, vr, k, left))
    ensures removedLast <==> e < k
    ensures removedSlot <==> 0 < e <= k
  {
    var chain, n;
    chain, n, k, removedLast, removedSlot := Swallow(buf, rest, vr, e, tmp, acc, head, size, lastWithData);
    left := n;
    assert chain != null ==> chain in Members(rest);
    TakePart(rest, vr, tmp, acc + Flatten(vr[..k]), k, n, chain);
    Relink(buf, rest, tmp, k, chain);
  }

  lemma PulledSlotAt(buf: Evbuffer, tmp: Chain, rest: seq<Chain>, acc: seq<byte>, vr: seq<seq<byte>>,
                     k: nat, left: nat)
    requires |rest| == |vr| && PulledFrom(vr, k, left) && Flatten(vr) != []
    requires var e, vs := LastData(vr), Pulled(acc, vr, k, left);
      && e < |rest|
      && (e < k ==> buf.lastWithDataPrev == null)
      && (e == k ==> buf.lastWithDataPrev == tmp)
      && (e > k ==> buf.lastWithDataPrev == rest[e - 1])
    ensures SlotAt(buf, [tmp] + rest[k..], LastData(Pulled(acc, vr, k, left)))
  {
    PulledSlot(acc, vr, k, left);
  }

  /** Everything evbuffer_pullup does once `tmp`, the first chunk, has room for `size` bytes more. */
  method PullInto(buf: Evbuffer, ghost rest: seq<Chain>, ghost vr: seq<seq<byte>>,
                  tmp: Chain, ghost acc: seq<byte>, head: Chain?, size: nat, lastWithData: Chain)
    returns (ghost k: nat, ghost left: nat, ghost cs': seq<Chain>)
    requires Chained(rest) && Distinct(rest) && Holds(rest, vr) && |rest| > 0 && head == rest[0]
    requires Stores(tmp, acc) && tmp !in rest && size <= tmp.SpaceLen() && 0 < size <= |Flatten(vr)|
    requires buf.first == tmp && buf.last == rest[|rest| - 1]
    requires lastWithData == Nth(rest, LastData(vr))
    requires buf.lastWithDataPrev == if LastData(vr) == 0 then tmp else rest[LastData(vr) - 1]
    modifies buf`last, buf`lastWithDataPrev, tmp, Members(rest)
    ensures PulledFrom(vr, k, left) && left + |Flatten(vr[..k])| == size && Members(cs') <= {tmp} + Members(rest)
    ensures Linked(buf, cs') && Holds(cs', Pulled(acc, vr, k, left))
    ensures SlotAt(buf, cs', LastData(Pulled(acc, vr, k, left)))
  {
    var removedLast, removedSlot;
    LastDataIsLast(vr);
    k, left, removedLast, removedSlot := PullBytes(buf, rest, vr, LastData(vr), tmp, acc, head, size, lastWithData);
    PulledSlot(acc, vr, k, left);
    cs' := [tmp] + rest[k..];
    ghost var vs' := Pulled(acc, vr, k, left);
    assert 0 < LastData(vr) == k ==> |vs'| > 1 && vs'[1] != [];
    FixSlot(buf, cs', vs', removedLast, removedSlot);
    PulledSlotAt(buf, tmp, rest, acc, vr, k, left);
  }

  /** When the first piece is too short, data follows it. */
  lemma FirstShort(vs: seq<seq<byte>>, size: nat)
    requires |vs| > 0 && |vs[0]| < size <= |Flatten(vs)|
    ensures Flatten(vs) == vs[0] + Flatten(vs[1..]) && Flatten(vs[1..]) != []
    ensures 0 < LastData(vs) == LastData(vs[1..]) + 1 < |vs|
    ensures NoSpare(vs) ==> NoSpare(vs[1..])
    ensures IsTight(vs) ==> forall i :: 0 <= i < |vs| ==> vs[i] != []
  {
    var vr := vs[1..];
    assert Flatten(vr) != [];
    assert |vr| > 0;
    LastDataIsLast(vr);
    NoDataIffFirstEmpty(vr);
    LastDataIs(vs, LastData(vr) + 1);
  }

  lemma PulledTight(acc: seq<byte>, vr: seq<seq<byte>>, k: nat, left: nat)
    requires PulledFrom(vr, k, left) && (forall i :: 0 <= i < |vr| ==> vr[i] != [])
    requires |acc| + |Flatten(vr[..k])| + left > 0
    ensures IsTight(Pulled(acc, vr, k, left))
  {
    PulledContent(acc, vr, k, left);
  }

  /** The rest of the list, behind its first chunk. */
  lemma Behind(buf: Evbuffer, cs: seq<Chain>, vs: seq<seq<byte>>)
    requires Linked(buf, cs) && Holds(cs, vs) && |cs| > 1
    ensures Chained(cs[1..]) && Distinct(cs[1..]) && Holds(cs[1..], vs[1..])
    ensures cs[0] !in cs[1..] && cs[0].next == cs[1..][0] && buf.last == cs[1..][|cs| - 2]
  {
    DistinctDrop(cs, 1);
    HoldsDrop(cs, vs, 1);
    Alone(cs, 0);
    forall i | 0 <= i < |cs| - 1
      ensures cs[1..][i].next == Nth(cs[1..], i + 1)
    {
      assert cs[i + 1].next == Nth(cs, i + 2);
    }
  }

  /** What pulling `size` bytes into the first piece means for the whole. */
  lemma PulledMeans(vs: seq<seq<byte>>, acc: seq<byte>, vr: seq<seq<byte>>, k: nat, left: nat, size: nat)
    requires PulledFrom(vr, k, left) && Flatten(vs) == acc + Flatten(vr) && Flatten(vr) != []
    requires |acc| + |Flatten(vr[..k])| + left == size > 0
    requires IsTight(vs) ==> forall i :: 0 <= i < |vr| ==> vr[i] != []
    requires NoSpare(vs) ==> NoSpare(vr)
    ensures var vs' := Pulled(acc, vr, k, left);
      && Flatten(vs') == Flatten(vs) && |vs'| > 0 && |vs'[0]| == size
      && (IsTight(vs) ==> IsTight(vs')) && (NoSpare(vs) ==> NoSpare(vs'))
  {
    PulledContent(acc, vr, k, left);
    PulledSlot(acc, vr, k, left);
    if IsTight(vs) {
      PulledTight(acc, vr, k, left);
    }
  }

  /** PullInto, with what it means for the buffer, whose pieces are `vs` in all. */
  method PullAll(buf: Evbuffer, ghost rest: seq<Chain>, ghost vr: seq<seq<byte>>,
                 tmp: Chain, ghost acc: seq<byte>, head: Chain?, size: nat, lastWithData: Chain, ghost vs: seq<seq<byte>>)
    returns (ghost cs': seq<Chain>, ghost vs': seq<seq<byte>>)
    requires Chained(rest) && Distinct(rest) && Holds(rest, vr) && |rest| > 0 && head == rest[0]
    requires Stores(tmp, acc) && tmp !in rest && size <= tmp.SpaceLen() && 0 < size <= |Flatten(vr)|
    requires buf.first == tmp && buf.last == rest[|rest| - 1] && buf.totalLen == |Flatten(vs)|
    requires lastWithData == Nth(rest, LastData(vr))
    requires buf.lastWithDataPrev == if LastData(vr) == 0 then tmp else rest[LastData(vr) - 1]
    requires Flatten(vs) == acc + Flatten(vr)
    requires IsTight(vs) ==> forall i :: 0 <= i < |vr| ==> vr[i] != []
    requires NoSpare(vs) ==> NoSpare(vr)
    modifies buf`last, buf`lastWithDataPrev, tmp, Members(rest)
    ensures Rep(buf, cs', vs') && Flatten(vs') == Flatten(vs) && Members(cs') <= {tmp} + Members(rest)
    ensures |vs'| > 0 && |vs'[0]| == |acc| + size
    ensures (IsTight(vs) ==> IsTight(vs')) && (NoSpare(vs) ==> NoSpare(vs'))
  {
    ghost var k, left;
    k, left, cs' := PullInto(buf, rest, vr, tmp, acc, head, size, lastWithData);
    vs' := Pulled(acc, vr, k, left);
    PulledMeans(vs, acc, vr, k, left, |acc| + size);
  }

  /** The first chunk has room for all `size` bytes: those that are missing move into it. */
  method PullReuse(buf: Evbuffer, ghost cs: seq<Chain>, ghost vs: seq<seq<byte>>, chain: Chain, size: nat)
    returns (ghost cs': seq<Chain>, ghost vs': seq<seq<byte>>)
    requires Rep(buf, cs, vs) && |cs| > 0 && chain == cs[0]
    requires |vs[0]| < size <= |Flatten(vs)| && size <= |chain.buffer| - chain.misalign
    modifies buf`last, buf`lastWithDataPrev, Members(cs)
    ensures Rep(buf, cs', vs') && Flatten(vs') == Flatten(vs)
    ensures |vs'| > 0 && |vs'[0]| == size
    ensures IsTight(vs) ==> IsTight(vs')
    ensures NoSpare(vs) ==> NoSpare(vs')
    ensures Members(cs') <= Members(cs)
  {
    FirstShort(vs, size);
    Behind(buf, cs, vs);
    assert Stores(chain, vs[0]) && chain in Members(cs);
    LastWithDataIsNth(buf, cs, LastData(vs));
    assert Members(cs[1..]) <= Members(cs);
    cs', vs' := PullAll(buf, cs[1..], vs[1..], chain, vs[0], chain.next, size - chain.off, LastWithData(buf), vs);
  }

  /** `buf->first = tmp`, a new chunk. */
  method NewFirst(buf: Evbuffer, ghost cs: seq<Chain>, ghost vs: seq<seq<byte>>, size: nat) returns (tmp: Chain)
    requires Chained(cs) && Distinct(cs) && Holds(cs, vs)
    modifies buf`first
    ensures fresh(tmp) && tmp !in cs && Stores(tmp, []) && size <= tmp.SpaceLen() && buf.first == tmp
    ensures Chained(cs) && Distinct(cs) && Holds(cs, vs)
  {
    tmp := ChainNew(size);
    buf.first := tmp;
  }

  /** The first chunk is too small: a new one takes its place. */
  method PullNew(buf: Evbuffer, ghost cs: seq<Chain>, ghost vs: seq<seq<byte>>, chain: Chain, size: nat)
    returns (ghost cs': seq<Chain>, ghost vs': seq<seq<byte>>)
    requires Rep(buf, cs, vs) && |cs| > 0 && chain == cs[0] && |vs[0]| < size <= |Flatten(vs)|
    modifies buf`first, buf`last, buf`lastWithDataPrev, Members(cs)
    ensures Rep(buf, cs', vs') && Flatten(vs') == Flatten(vs)
    ensures |vs'| > 0 && |vs'[0]| == size
    ensures IsTight(vs) ==> IsTight(vs')
    ensures NoSpare(vs) ==> NoSpare(vs')
    ensures fresh(Members(cs') - Members(cs))
  {
    FirstShort(vs, size);
    var tmp := NewFirst(buf, cs, vs, size);
    assert cs[LastData(vs) - 1].next == cs[LastData(vs)];
    var lastWithData := LastWithData(buf);
    assert Flatten(vs) == [] + Flatten(vs);
    cs', vs' := PullAll(buf, cs, vs, tmp, [], chain, size, lastWithData, vs);
  }

  /** evbuffer_pullup. The bytes it points at are the first chunk's; `ok` is that it is not NULL. */
  method Pullup(buf: Evbuffer, ghost cs: seq<Chain>, ghost vs: seq<seq<byte>>, size: int)
    returns (ok: bool, ghost cs': seq<Chain>, ghost vs': seq<seq<byte>>)
    requires Rep(buf, cs, vs)
    modifies buf`first, buf`last, buf`lastWithDataPrev, Members(cs)
    ensures Rep(buf, cs', vs') && Flatten(vs') == Flatten(vs)
    ensures var wanted := if size < 0 then |Flatten(vs)| else size;
      && (ok <==> 0 < wanted <= |Flatten(vs)|)
      && (ok ==> |vs'| > 0 && wanted <= |vs'[0]| && vs'[0][..wanted] == Flatten(vs)[..wanted])
    ensures IsTight(vs) ==> IsTight(vs')
    ensures NoSpare(vs) ==> NoSpare(vs')
    ensures fresh(Members(cs') - Members(cs))
  {
    var wanted: nat := if size < 0 then buf.totalLen else size;
    cs', vs' := cs, vs;
    if wanted == 0 || wanted > buf.totalLen {
      return false, cs, vs;
    }
    var chain := buf.first;
    assert |vs| > 0;
    assert Stores(chain, vs[0]);
    if chain.off < wanted {
      if |chain.buffer| - chain.misalign >= wanted {
        cs', vs' := PullReuse(buf, cs, vs, chain, wanted);
      } else {
        cs', vs' := PullNew(buf, cs, vs, chain, wanted);
      }
    }
    FlattenSplit(vs', 0);
    return true, cs', vs';
  }
}
