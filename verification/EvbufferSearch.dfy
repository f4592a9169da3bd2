/** Positions in an evbuffer, and searching it across chunk boundaries. */
module EvbufferSearch {
  import opened Bytes
  import opened Chains
  import opened Lists
  import opened EvbufferDrain

  /** struct evbuffer_ptr: a flat position, and the chunk and offset it falls on. */
  datatype EvbufferPtr = EvbufferPtr(pos: int, chain: Chain?, posInChain: nat)

  const NOT_FOUND := EvbufferPtr(-1, null, 0)

  /** How many bytes are stored before chunk k. */
  ghost function Offset(vs: seq<seq<byte>>, k: nat): nat
    requires k <= |vs|
  {
    |Flatten(vs[..k])|
  }

  /** `p` addresses byte `p.posInChain` of chunk k, or the end of that chunk. */
  ghost predicate PtrAt(cs: seq<Chain>, vs: seq<seq<byte>>, p: EvbufferPtr, k: nat) {
    && k < |cs| == |vs| && p.chain == cs[k] && p.posInChain <= |vs[k]|
    && p.pos == Offset(vs, k) + p.posInChain
  }

  /** `p` addresses a byte of the buffer. */
  ghost predicate Denotes(cs: seq<Chain>, vs: seq<seq<byte>>, p: EvbufferPtr) {
    exists k: nat {:trigger PtrAt(cs, vs, p, k)} :: PtrAt(cs, vs, p, k) && p.posInChain < |vs[k]|
  }

  lemma OffsetStep(vs: seq<seq<byte>>, k: nat)
    requires k < |vs|
    ensures Offset(vs, k + 1) == Offset(vs, k) + |vs[k]| <= |Flatten(vs)|
    ensures Flatten(vs)[Offset(vs, k)..Offset(vs, k + 1)] == vs[k]
  {
    TakeOneMore(vs, k);
    FlattenSplit(vs, k);
  }

  lemma OffsetEnd(vs: seq<seq<byte>>)
    ensures Offset(vs, |vs|) == |Flatten(vs)|
  {
    assert vs[..|vs|] == vs;
  }

  /** The walk of evbuffer_ptr_set from `left` bytes behind offset `position` of chunk k0. */
  method WalkTo(buf: Evbuffer, ghost cs: seq<Chain>, ghost vs: seq<seq<byte>>, ghost k0: nat,
                chain0: Chain?, position0: nat, left0: nat)
    returns (chain: Chain?, posInChain: nat, ghost k: nat)
    requires Rep(buf, cs, vs) && k0 <= |cs| && chain0 == Nth(cs, k0)
    requires if k0 < |cs| then position0 <= |vs[k0]| else position0 == 0
    ensures k <= |cs| && chain == Nth(cs, k)
    ensures k < |cs| ==> posInChain < |vs[k]| && Offset(vs, k) + posInChain == Offset(vs, k0) + position0 + left0
    ensures k == |cs| ==> |Flatten(vs)| <= Offset(vs, k0) + position0 + left0
  {
    var position: nat, left: nat := position0, left0;
    chain, k := chain0, k0;
    ghost var target := Offset(vs, k0) + position0 + left0;
    assert k < |cs| ==> Stores(cs[k], vs[k]);
    while chain != null && position + left >= chain.off
      invariant k <= |cs| && chain == Nth(cs, k)
      invariant k < |cs| ==> Stores(cs[k], vs[k]) && position <= |vs[k]|
      invariant Offset(vs, k) + position + left == target && (k == |cs| ==> position == 0)
      decreases |cs| - k
    {
      OffsetStep(vs, k);
      left := left - (chain.off - position);
      chain, position, k := chain.next, 0, k + 1;
      assert k < |cs| ==> Stores(cs[k], vs[k]);
    }
    OffsetEnd(vs);
    posInChain := position + left;
  }

  /** evbuffer_ptr_set with EVBUFFER_PTR_SET. */
  method PtrSet(buf: Evbuffer, ghost cs: seq<Chain>, ghost vs: seq<seq<byte>>, position: nat)
    returns (ok: bool, p: EvbufferPtr)
    requires Rep(buf, cs, vs)
    ensures ok <==> position < |Flatten(vs)|
    ensures ok ==> p.pos == position && Denotes(cs, vs, p)
    ensures !ok ==> p.pos == -1 && p.chain == null
  {
    var chain, posInChain;
    ghost var k;
    chain, posInChain, k := WalkTo(buf, cs, vs, 0, buf.first, 0, position);
    p, ok := Landed(cs, vs, chain, posInChain, k, position);
  }

  /** evbuffer_ptr_set with EVBUFFER_PTR_ADD, which goes on from where `q` is. */
  method PtrAdd(buf: Evbuffer, ghost cs: seq<Chain>, ghost vs: seq<seq<byte>>, q: EvbufferPtr, n: nat, ghost k0: nat)
    returns (ok: bool, p: EvbufferPtr)
    requires Rep(buf, cs, vs) && PtrAt(cs, vs, q, k0)
    ensures ok <==> q.pos + n < |Flatten(vs)|
    ensures ok ==> p.pos == q.pos + n && Denotes(cs, vs, p)
    ensures !ok ==> p.pos == -1 && p.chain == null
  {
    var chain, posInChain;
    ghost var k;
    chain, posInChain, k := WalkTo(buf, cs, vs, k0, q.chain, q.posInChain, n);
    p, ok := Landed(cs, vs, chain, posInChain, k, q.pos + n);
  }

  method Landed(ghost cs: seq<Chain>, ghost vs: seq<seq<byte>>, chain: Chain?, posInChain: nat, ghost k: nat, pos: nat)
    returns (p: EvbufferPtr, ok: bool)
    requires |cs| == |vs| && k <= |cs| && chain == Nth(cs, k)
    requires if k < |cs| then posInChain < |vs[k]| && Offset(vs, k) + posInChain == pos else |Flatten(vs)| <= pos
    ensures ok <==> pos < |Flatten(vs)|
    ensures ok ==> p.pos == pos && Denotes(cs, vs, p)
    ensures !ok ==> p.pos == -1 && p.chain == null
  {
    if chain != null {
      p, ok := EvbufferPtr(pos, chain, posInChain), true;
      assert PtrAt(cs, vs, p, k);
      OffsetStep(vs, k);
    } else {
      p, ok := EvbufferPtr(-1, null, posInChain), false;
    }
  }

  /** memcmp says whether two byte strings of one length are equal. */
  method MemCmp(a: seq<byte>, b: seq<byte>) returns (r: int)
    requires |a| == |b|
    ensures r == 0 <==> a == b
  {
    for i := 0 to |a|
      invariant a[..i] == b[..i]
    {
      if a[i] != b[i] {
        var x: int, y: int := a[i], b[i];
        return x - y;
      }
    }
    return 0;
  }

  predicate MatchAt(c: seq<byte>, w: seq<byte>, i: nat) {
    i + |w| <= |c| && c[i..i + |w|] == w
  }

  /** The first `at` bytes of `mem` are those at position p. */
  ghost predicate Matched(c: seq<byte>, mem: seq<byte>, p: nat, at: nat) {
    p + |mem| <= |c| && at <= |mem| && c[p..p + at] == mem[..at]
  }

  /** One memcmp of evbuffer_ptr_memcmp: `n` bytes of chunk k from offset `position` on. */
  method CompareIn(ghost cs: seq<Chain>, ghost vs: seq<seq<byte>>, ghost k: nat, chain: Chain, position: nat,
                   mem: seq<byte>, ghost p: nat, at: nat)
    returns (r: int, n: nat)
    requires Holds(cs, vs) && k < |cs| && chain == cs[k] && position <= |vs[k]|
    requires Matched(Flatten(vs), mem, p, at) && Offset(vs, k) + position == p + at
    ensures r == 0 ==> Matched(Flatten(vs), mem, p, at + n)
    ensures r != 0 ==> !MatchAt(Flatten(vs), mem, p)
    ensures at + n < |mem| ==> Offset(vs, k + 1) == p + at + n
  {
    assert Stores(chain, vs[k]);
    OffsetStep(vs, k);
    n := if |mem| - at + position > chain.off then chain.off - position else |mem| - at;
    ghost var c := Flatten(vs);
    PieceOf(c, vs[k], chain.buffer, Offset(vs, k), chain.misalign, chain.off, position, n);
    var piece := chain.buffer[chain.misalign + position..chain.misalign + position + n];
    assert piece == c[p + at..p + at + n];
    r := MemCmp(piece, mem[at..at + n]);
    StillMatched(c, mem, p, at, n, piece);
  }

  /** A piece of the content against the next bytes of the pattern. */
  lemma StillMatched(c: seq<byte>, mem: seq<byte>, p: nat, at: nat, n: nat, piece: seq<byte>)
    requires Matched(c, mem, p, at) && at + n <= |mem| && p + |mem| <= |c| && piece == c[p + at..p + at + n]
    ensures piece == mem[at..at + n] ==> Matched(c, mem, p, at + n)
    ensures piece != mem[at..at + n] ==> !MatchAt(c, mem, p)
  {
    MatchMore(c, mem, p, at, n);
  }

  /** evbuffer_ptr_memcmp: 0 exactly when the bytes at `pos` are `mem`, in however many chunks they are. */
  method PtrMemcmp(buf: Evbuffer, ghost cs: seq<Chain>, ghost vs: seq<seq<byte>>, pos: EvbufferPtr, mem: seq<byte>, ghost k0: nat)
    returns (r: int)
    requires Rep(buf, cs, vs) && PtrAt(cs, vs, pos, k0)
    ensures r == 0 <==> MatchAt(Flatten(vs), mem, pos.pos)
  {
    if pos.pos + |mem| > buf.totalLen {
      return -1;
    }
    var chain := pos.chain;
    var position: nat, at: nat, n: nat := pos.posInChain, 0, 0;
    ghost var k := k0;
    OffsetEnd(vs);
    while at < |mem| && chain != null
      invariant k <= |cs| && chain == Nth(cs, k)
      invariant Matched(Flatten(vs), mem, pos.pos, at)
      invariant at < |mem| ==> Offset(vs, k) + position == pos.pos + at && (if k < |cs| then position <= |vs[k]| else position == 0)
      decreases |cs| - k
    {
      r, n := CompareIn(cs, vs, k, chain, position, mem, pos.pos, at);
      if r != 0 {
        return;
      }
      at, position := at + n, 0;
      chain, k := chain.next, k + 1;
    }
    assert mem[..|mem|] == mem;
    return 0;
  }

  /** The bytes of a chunk are bytes of the flat content. */
  lemma PieceOf(c: seq<byte>, v: seq<byte>, b: seq<byte>, offset: nat, misalign: nat, off: nat, position: nat, n: nat)
    requires misalign + off <= |b| && v == b[misalign..misalign + off] && offset + off <= |c|
    requires c[offset..offset + off] == v && position + n <= off
    ensures b[misalign + position..misalign + position + n] == c[offset + position..offset + position + n]
  {
    SubSlice(b, misalign, misalign + off, position, position + n);
    SubSlice(c, offset, offset + off, position, position + n);
  }

  lemma Halves(s: seq<byte>, lo: nat, mid: nat, hi: nat)
    requires lo <= mid <= hi <= |s|
    ensures s[lo..hi] == s[lo..mid] + s[mid..hi]
  {
  }

  lemma SameFront(a: seq<byte>, b: seq<byte>, b': seq<byte>)
    ensures a + b == a + b' <==> b == b'
  {
    assert b == (a + b)[|a|..] && b' == (a + b')[|a|..];
  }

  lemma MatchMore(c: seq<byte>, mem: seq<byte>, pos: nat, at: nat, n: nat)
    requires pos + |mem| <= |c| && at + n <= |mem| && c[pos..pos + at] == mem[..at]
    ensures c[pos..pos + at + n] == mem[..at + n] <==> c[pos + at..pos + at + n] == mem[at..at + n]
    ensures c[pos + at..pos + at + n] != mem[at..at + n] ==> c[pos..pos + |mem|] != mem
  {
    Halves(c, pos, pos + at, pos + at + n);
    Halves(mem, 0, at, at + n);
    assert mem[0..at] == mem[..at] && mem[0..at + n] == mem[..at + n];
    SameFront(c[pos..pos + at], c[pos + at..pos + at + n], mem[at..at + n]);
    SubSlice(c, pos, pos + |mem|, at, at + n);
  }

  /** memchr. */
  method FindByte(s: seq<byte>, b: byte) returns (i: int)
    ensures i == -1 || 0 <= i < |s|
    ensures i == -1 ==> b !in s
    ensures i >= 0 ==> s[i] == b && b !in s[..i]
  {
    for j := 0 to |s|
      invariant b !in s[..j]
    {
      if s[j] == b {
        return j;
      }
    }
    return -1;
  }

  /** Where a walk over the chunks stands: in chunk k, or behind the last one. */
  ghost predicate Standing(cs: seq<Chain>, vs: seq<seq<byte>>, p: EvbufferPtr, k: nat) {
    if k < |cs| then PtrAt(cs, vs, p, k)
    else k == |cs| == |vs| && p.chain == null && p.posInChain == 0 && p.pos == |Flatten(vs)|
  }

  /** No match begins from position `lo` on and before position `hi`. */
  ghost predicate NoMatch(c: seq<byte>, w: seq<byte>, lo: int, hi: int) {
    forall i: nat :: lo <= i < hi ==> !MatchAt(c, w, i)
  }

  /** Where a chunk does not hold the first byte of the pattern, no match begins. */
  lemma NoFirstByte(c: seq<byte>, w: seq<byte>, v: seq<byte>, offset: nat, lo: nat, hi: nat)
    requires |w| > 0 && offset + |v| <= |c| && c[offset..offset + |v|] == v && lo <= hi <= |v|
    requires w[0] !in v[lo..hi]
    ensures NoMatch(c, w, offset + lo, offset + hi)
  {
    forall i: nat | offset + lo <= i < offset + hi
      ensures !MatchAt(c, w, i)
    {
      assert c[i] == v[i - offset] == v[lo..hi][i - offset - lo];
    }
  }

  /** memchr in chunk k, from offset `lo` to the end of what it stores. */
  method FindIn(ghost cs: seq<Chain>, ghost vs: seq<seq<byte>>, ghost k: nat, chain: Chain, lo: nat, b: byte)
    returns (i: int)
    requires Holds(cs, vs) && k < |cs| && chain == cs[k] && lo <= |vs[k]|
    ensures chain.off == |vs[k]|
    ensures i == -1 ==> b !in vs[k][lo..|vs[k]|]
    ensures i != -1 ==> 0 <= i && lo + i < |vs[k]| && b !in vs[k][lo..lo + i] && vs[k][lo + i] == b
  {
    assert Stores(chain, vs[k]);
    var s := chain.buffer[chain.misalign + lo..chain.misalign + chain.off];
    SubSlice(chain.buffer, chain.misalign, chain.misalign + chain.off, lo, chain.off);
    i := FindByte(s, b);
    if i >= 0 {
      SubSlice(vs[k], lo, |vs[k]|, 0, i);
      assert s[i] == vs[k][lo..|vs[k]|][i];
    }
  }

  /** The search for the first byte of `what` in the chunk where `p` stands; without it, on to the next chunk. */
  method NextCandidate(buf: Evbuffer, ghost cs: seq<Chain>, ghost vs: seq<seq<byte>>, p: EvbufferPtr, ghost k: nat,
                       chain: Chain, what: seq<byte>)
    returns (here: bool, q: EvbufferPtr)
    requires Linked(buf, cs) && Holds(cs, vs) && PtrAt(cs, vs, p, k) && chain == cs[k] && |what| > 0
    ensures here ==> PtrAt(cs, vs, q, k) && q.posInChain < |vs[k]|
    ensures !here ==> Standing(cs, vs, q, k + 1) && q.pos == Offset(vs, k + 1)
    ensures p.pos <= q.pos && NoMatch(Flatten(vs), what, p.pos, q.pos)
  {
    OffsetStep(vs, k);
    OffsetEnd(vs);
    var lo := p.posInChain;
    var i := FindIn(cs, vs, k, chain, lo, what[0]);
    NoFirstByte(Flatten(vs), what, vs[k], Offset(vs, k), lo, if i >= 0 then lo + i else |vs[k]|);
    if i >= 0 {
      here, q := true, p.(pos := p.pos + i, posInChain := lo + i);
    } else {
      here, q := false, EvbufferPtr(p.pos + (chain.off - lo), chain.next, 0);
    }
  }

  /** `r` is the leftmost match that lies wholly within positions `start` to `end`, or -1 for none. */
  ghost predicate Leftmost(c: seq<byte>, what: seq<byte>, start: int, end: int, r: int) {
    if r >= 0 then start <= r && MatchAt(c, what, r) && r + |what| <= end && NoMatch(c, what, start, r)
    else r == -1 && NoMatch(c, what, start, end - |what| + 1)
  }

  /** What is found is a match within the range, and no match within the range begins before it. */
  lemma LeftmostMeans(c: seq<byte>, what: seq<byte>, start: nat, end: nat, r: int, i: nat)
    requires Leftmost(c, what, start, end, r) && r >= -1
    ensures r >= 0 ==> start <= r && r + |what| <= end && r + |what| <= |c| && c[r..r + |what|] == what
    ensures start <= i && i + |what| <= end && i + |what| <= |c| && c[i..i + |what|] == what ==> 0 <= r <= i
  {
    assert MatchAt(c, what, i) <==> i + |what| <= |c| && c[i..i + |what|] == what;
  }

  /** The step behind a candidate that does not match. */
  method StepOver(buf: Evbuffer, ghost cs: seq<Chain>, ghost vs: seq<seq<byte>>, p: EvbufferPtr, ghost k: nat, chain: Chain)
    returns (q: EvbufferPtr, ghost k': nat)
    requires Linked(buf, cs) && Holds(cs, vs) && PtrAt(cs, vs, p, k) && chain == cs[k] && p.posInChain < |vs[k]|
    ensures k <= k' <= |cs| && Standing(cs, vs, q, k') && q.pos == p.pos + 1
    ensures k' == k ==> q.posInChain > p.posInChain
  {
    assert Stores(chain, vs[k]);
    OffsetStep(vs, k);
    OffsetEnd(vs);
    q, k' := p.(pos := p.pos + 1, posInChain := p.posInChain + 1), k;
    if q.posInChain == chain.off {
      q, k' := EvbufferPtr(q.pos, chain.next, 0), k + 1;
    }
  }

  lemma NoMatchJoin(c: seq<byte>, w: seq<byte>, lo: int, mid: int, hi: int)
    requires NoMatch(c, w, lo, mid) && NoMatch(c, w, mid, hi)
    ensures NoMatch(c, w, lo, hi)
  {
  }

  /** Where a match has to end: an `end` may also be a position that no chunk holds. */
  function Limit(end: Option<EvbufferPtr>, length: nat): int {
    if end.Some? then end.value.pos else length
  }

  ghost predicate EndOk(cs: seq<Chain>, vs: seq<seq<byte>>, end: Option<EvbufferPtr>, ke: nat) {
    end.Some? && end.value.chain != null ==> PtrAt(cs, vs, end.value, ke)
  }

  /** What a search answers: the leftmost match between two positions, as a position that denotes itself, or none. */
  ghost predicate Answers(cs: seq<Chain>, vs: seq<seq<byte>>, what: seq<byte>, from: int, to: int, r: EvbufferPtr) {
    Leftmost(Flatten(vs), what, from, to, r.pos) && if r.pos >= 0 then Denotes(cs, vs, r) else r.chain == null
  }

  lemma AnswersEarlier(cs: seq<Chain>, vs: seq<seq<byte>>, what: seq<byte>, from: int, mid: int, to: int, r: EvbufferPtr)
    requires NoMatch(Flatten(vs), what, from, mid) && from <= mid && Answers(cs, vs, what, mid, to, r)
    ensures Answers(cs, vs, what, from, to, r)
  {
  }

  /** No match begins at the end of what is stored, nor behind it. */
  lemma NothingBehind(c: seq<byte>, what: seq<byte>, from: int, to: int)
    requires |what| > 0 && from >= |c|
    ensures Leftmost(c, what, from, to, -1)
  {
  }

  /** A place where the first byte is right: a match, or one step on. */
  method TryHere(buf: Evbuffer, ghost cs: seq<Chain>, ghost vs: seq<seq<byte>>, q: EvbufferPtr, ghost k: nat,
                 chain: Chain, what: seq<byte>, end: Option<EvbufferPtr>)
    returns (done: bool, r: EvbufferPtr, ghost k': nat)
    requires Rep(buf, cs, vs) && |what| > 0 && PtrAt(cs, vs, q, k) && chain == cs[k] && q.posInChain < |vs[k]|
    ensures done ==> Answers(cs, vs, what, q.pos, Limit(end, |Flatten(vs)|), r)
    ensures !done ==> NoMatch(Flatten(vs), what, q.pos, r.pos) && r.pos == q.pos + 1
    ensures !done ==> k <= k' <= |cs| && Standing(cs, vs, r, k') && (k' == k ==> r.posInChain > q.posInChain)
  {
    done, r, k' := false, q, k;
    var cmp := PtrMemcmp(buf, cs, vs, q, what, k);
    if cmp == 0 {
      done := true;
      if end.Some? && q.pos + |what| > end.value.pos {
        r := NOT_FOUND;
      }
    } else {
      r, k' := StepOver(buf, cs, vs, q, k, chain);
    }
  }

  /** The loop of evbuffer_search_range. The chunk of `end`, if it has one, is number `ke`. */
  method SearchLoop(buf: Evbuffer, ghost cs: seq<Chain>, ghost vs: seq<seq<byte>>, what: seq<byte>,
                    start: EvbufferPtr, ghost ks: nat, end: Option<EvbufferPtr>, ghost ke: nat)
    returns (r: EvbufferPtr)
    requires Rep(buf, cs, vs) && |what| > 0 && Standing(cs, vs, start, ks) && EndOk(cs, vs, end, ke)
    ensures Answers(cs, vs, what, start.pos, Limit(end, |Flatten(vs)|), r)
  {
    var pos := start;
    ghost var k, c, to := ks, Flatten(vs), Limit(end, |Flatten(vs)|);
    while pos.chain != null
      invariant k <= |cs| && Standing(cs, vs, pos, k) && start.pos <= pos.pos
      invariant NoMatch(c, what, start.pos, pos.pos)
      decreases |cs| - k, if k < |vs| then |vs[k]| - pos.posInChain else 0
    {
      var chain := pos.chain;
      ghost var from := pos.pos;
      var here, q := NextCandidate(buf, cs, vs, pos, k, chain, what);
      NoMatchJoin(c, what, start.pos, from, q.pos);
      if here {
        var done, next;
        done, next, k := TryHere(buf, cs, vs, q, k, chain, what, end);
        if done {
          AnswersEarlier(cs, vs, what, start.pos, q.pos, to, next);
          return next;
        }
        NoMatchJoin(c, what, start.pos, q.pos, next.pos);
        pos := next;
      } else {
        if end.Some? && chain == end.value.chain {
          EndsHere(cs, vs, end.value, ke, k);
          return NOT_FOUND;
        }
        pos, k := q, k + 1;
      }
    }
    OffsetEnd(vs);
    NothingBehind(c, what, pos.pos, to);
    r := NOT_FOUND;
    AnswersEarlier(cs, vs, what, start.pos, pos.pos, to, r);
  }

  lemma EndsHere(cs: seq<Chain>, vs: seq<seq<byte>>, end: EvbufferPtr, ke: nat, k: nat)
    requires Distinct(cs) && PtrAt(cs, vs, end, ke) && k < |cs| && end.chain == cs[k]
    ensures end.pos <= Offset(vs, k + 1)
  {
    Alone(cs, k);
    OffsetStep(vs, k);
  }

  /** Where a search without a start begins. */
  method Beginning(buf: Evbuffer, ghost cs: seq<Chain>, ghost vs: seq<seq<byte>>) returns (p: EvbufferPtr)
    requires Rep(buf, cs, vs)
    ensures Standing(cs, vs, p, 0) && p.pos == 0
  {
    p := EvbufferPtr(0, buf.first, 0);
    OffsetEnd(vs);
  }

  /** evbuffer_search_range. Behind a `start` whose chunk is NULL only "" is found. */
  method SearchRange(buf: Evbuffer, ghost cs: seq<Chain>, ghost vs: seq<seq<byte>>, what: seq<byte>,
                     start: Option<EvbufferPtr>, ghost ks: nat, end: Option<EvbufferPtr>, ghost ke: nat)
    returns (r: EvbufferPtr)
    requires Rep(buf, cs, vs)
    requires start.Some? && start.value.chain != null ==> PtrAt(cs, vs, start.value, ks)
    requires EndOk(cs, vs, end, ke)
    ensures what == [] ==> r.pos == if start.Some? then start.value.pos else 0
    ensures what != [] ==>
      var from := if start.None? then 0 else if start.value.chain == null then |Flatten(vs)| else start.value.pos;
      Answers(cs, vs, what, from, if end.Some? then end.value.pos else |Flatten(vs)|, r)
  {
    var pos := Beginning(buf, cs, vs);
    ghost var k := 0;
    if start.Some? {
      pos, k := start.value, ks;
    }
    if |what| == 0 {
      return pos;
    }
    if pos.chain == null {
      OffsetEnd(vs);
      NothingBehind(Flatten(vs), what, |Flatten(vs)|, Limit(end, |Flatten(vs)|));
      return NOT_FOUND;
    }
    r := SearchLoop(buf, cs, vs, what, pos, k, end, ke);
  }
}
