/** The chunks of an evbuffer and the linked list that holds them. */
module Chains {
  import opened Bytes
  import opened Lists

  /** Size of the bookkeeping at the head of every chunk allocation, and the smallest allocation. */
  const EVBUFFER_CHAIN_SIZE: nat := 48
  const MIN_BUFFER_SIZE: nat := 1024

  /**
   * One chunk. Its header and its memory are a single allocation, so the memory is a field
   * of the object: a sequence of fixed length that is overwritten in place.
   */
  class Chain {
    var buffer: seq<byte>
    var next: Chain?
    var misalign: nat
    var off: nat

    constructor (size: nat)
      ensures |buffer| == size
      ensures next == null && misalign == 0 && off == 0
    {
      buffer := seq(size, _ => 0);
      next, misalign, off := null, 0, 0;
    }

    /** CHAIN_SPACE_LEN: room after the stored bytes. */
    function SpaceLen(): nat
      reads `misalign, `off, `buffer
    {
      if misalign + off <= |buffer| then |buffer| - (misalign + off) else 0
    }
  }

  /** memcpy or memmove of a byte string to position `at` of a chunk's memory. */
  function Overwrite(mem: seq<byte>, at: nat, data: seq<byte>): (r: seq<byte>)
    requires at + |data| <= |mem|
    ensures |r| == |mem|
    ensures r[..at] == mem[..at] && r[at..at + |data|] == data && r[at + |data|..] == mem[at + |data|..]
  {
    mem[..at] + data + mem[at + |data|..]
  }

  /** Chunk `c` stores exactly the bytes `v`. */
  ghost predicate Stores(c: Chain, v: seq<byte>)
    reads c`misalign, c`off, c`buffer
  {
    && c.misalign + c.off <= |c.buffer|
    && MIN_BUFFER_SIZE - EVBUFFER_CHAIN_SIZE <= |c.buffer|
    && v == c.buffer[c.misalign..c.misalign + c.off]
  }

  ghost predicate Holds(cs: seq<Chain>, vs: seq<seq<byte>>)
    reads Members(cs)`misalign, Members(cs)`off, Members(cs)`buffer
  {
    |vs| == |cs| && forall i {:trigger Stores(cs[i], vs[i])} :: 0 <= i < |cs| ==> Stores(cs[i], vs[i])
  }

  lemma HoldsJoin(a: seq<Chain>, va: seq<seq<byte>>, b: seq<Chain>, vb: seq<seq<byte>>)
    requires Holds(a, va) && Holds(b, vb)
    ensures Holds(a + b, va + vb)
  {
    forall i | 0 <= i < |a + b|
      ensures Stores((a + b)[i], (va + vb)[i])
    {
      assert if i < |a| then Stores(a[i], va[i]) else Stores(b[i - |a|], vb[i - |a|]);
    }
  }

  lemma HoldsSlice(a: seq<Chain>, va: seq<seq<byte>>, lo: nat, hi: nat)
    requires Holds(a, va) && lo <= hi <= |a|
    ensures Holds(a[lo..hi], va[lo..hi])
  {
    forall i | 0 <= i < hi - lo
      ensures Stores(a[lo..hi][i], va[lo..hi][i])
    {
      assert Stores(a[lo + i], va[lo + i]);
    }
  }

  lemma HoldsDrop(a: seq<Chain>, va: seq<seq<byte>>, k: nat)
    requires Holds(a, va) && k <= |a|
    ensures Holds(a[k..], va[k..])
  {
    HoldsSlice(a, va, k, |a|);
    assert a[k..|a|] == a[k..] && va[k..|a|] == va[k..];
  }

  lemma HoldsOne(c: Chain, v: seq<byte>)
    requires Stores(c, v)
    ensures Holds([c], [v])
  {
  }

  class Evbuffer {
    var first: Chain?
    var last: Chain?
    /** last_with_datap: the chunk whose `next` slot it addresses, or null for the slot `&first`. */
    var lastWithDataPrev: Chain?
    var totalLen: nat

    constructor ()
      ensures Rep(this, [], [])
    {
      first, last, lastWithDataPrev, totalLen := null, null, null, 0;
    }
  }

  lemma MembersCut(cs: seq<Chain>, k: nat, chain: Chain)
    requires k <= |cs|
    ensures Members(cs[..k] + [chain]) <= Members(cs) + {chain}
  {
  }

  /**
   * The representation invariant: `buf` is the list of chunks `cs`, chunk i stores the piece
   * vs[i], last_with_datap addresses the last chunk with data, and the cached length is right.
   * The flat byte string the buffer stands for is Flatten(vs).
   */
  ghost predicate Rep(buf: Evbuffer, cs: seq<Chain>, vs: seq<seq<byte>>)
    reads buf`first, buf`last, buf`lastWithDataPrev, buf`totalLen, Members(cs)
  {
    && Linked(buf, cs)
    && Holds(cs, vs)
    && SlotAt(buf, cs, LastData(vs))
    && buf.totalLen == |Flatten(vs)|
  }

  /** The chunks `cs`, all distinct, are the list that runs from `first` to `last`. */
  ghost predicate Linked(buf: Evbuffer, cs: seq<Chain>)
    reads buf`first, buf`last, Members(cs)`next
  {
    && Distinct(cs)
    && Chained(cs)
    && buf.first == Nth(cs, 0)
    && buf.last == (if |cs| == 0 then null else cs[|cs| - 1])
  }

  ghost predicate Chained(cs: seq<Chain>)
    reads Members(cs)`next
  {
    forall i {:trigger cs[i].next} :: 0 <= i < |cs| ==> cs[i].next == Nth(cs, i + 1)
  }

  /** Chunk i of the list, or the null that ends it. */
  ghost function Nth(cs: seq<Chain>, i: nat): Chain? {
    if i < |cs| then cs[i] else null
  }

  /** The chunk whose `next` slot points at chunk k, or null when `&first` is that slot. */
  ghost function Before(cs: seq<Chain>, k: nat): Chain?
    requires k <= |cs|
  {
    if k == 0 then null else cs[k - 1]
  }

  lemma BeforeCons(c: Chain, cs: seq<Chain>, k: nat)
    requires k <= |cs|
    ensures Before([c] + cs, k + 1) == if k == 0 then c else Before(cs, k)
  {
  }

  /** last_with_datap addresses the slot that points at chunk k. */
  ghost predicate SlotAt(buf: Evbuffer, cs: seq<Chain>, k: nat)
    reads buf`lastWithDataPrev
  {
    k <= |cs| && buf.lastWithDataPrev == Before(cs, k)
  }

  /** The chunk that *last_with_datap points at. */
  function LastWithData(buf: Evbuffer): (c: Chain?)
    reads buf, buf.lastWithDataPrev
  {
    if buf.lastWithDataPrev == null then buf.first else buf.lastWithDataPrev.next
  }

  lemma LastWithDataIsNth(buf: Evbuffer, cs: seq<Chain>, k: nat)
    requires Linked(buf, cs) && SlotAt(buf, cs, k)
    ensures LastWithData(buf) == Nth(cs, k)
  {
  }

  lemma SlotIsOne(buf: Evbuffer, cs: seq<Chain>, d: nat, e: nat)
    requires Linked(buf, cs) && SlotAt(buf, cs, d) && SlotAt(buf, cs, e)
    ensures d == e
  {
    assert d > 0 && e > 0 && d != e ==> if d < e then Apart(cs, d - 1, e - 1) else Apart(cs, e - 1, d - 1);
  }

  /**
   * Where the last chunk with data stands: nothing is stored after it, and it is the first
   * chunk when nothing is stored at all.
   */
  ghost function LastData(views: seq<seq<byte>>): (d: nat)
    ensures d == 0 || d < |views|
  {
    var n := |views|;
    if n == 0 then 0
    else if n == 1 || views[n - 1] != [] then n - 1
    else LastData(views[..n - 1])
  }

  /** No chunk follows the last one with data. */
  ghost predicate NoSpare(views: seq<seq<byte>>) {
    |views| == 0 || LastData(views) == |views| - 1
  }

  ghost predicate IsLastData(views: seq<seq<byte>>, d: nat) {
    && (|views| == 0 ==> d == 0)
    && (|views| > 0 ==> d < |views| && (views[d] == [] ==> d == 0))
    && (forall k :: d < k < |views| ==> views[k] == [])
  }

  lemma {:induction false} LastDataIsLast(views: seq<seq<byte>>)
    ensures IsLastData(views, LastData(views))
  {
    var n := |views|;
    if n > 1 && views[n - 1] == [] {
      LastDataIsLast(views[..n - 1]);
    }
  }

  lemma LastDataIs(views: seq<seq<byte>>, d: nat)
    requires IsLastData(views, d)
    ensures LastData(views) == d
  {
    LastDataIsLast(views);
    var e := LastData(views);
    assert !(d < e) && !(e < d);
  }

  /** No chunk is empty, except perhaps a single one that is the whole list. */
  ghost predicate IsTight(views: seq<seq<byte>>) {
    |views| > 1 ==> forall k :: 0 <= k < |views| ==> views[k] != []
  }
}
